/** Laws of the cache operations: coherence of every reachable cache, the
    algebra of eviction, and exactly what eviction protects. */
module CacheLaws {
  import opened Options
  import opened References
  import opened ImageCache

  /** Every key points to a cached image and every image sits under its own digest. */
  ghost predicate Coherent(c: Cache) {
    && (forall key :: key in c.digestMap ==> c.digestMap[key] in c.imageMap)
    && (forall digest :: digest in c.imageMap ==> c.imageMap[digest].image.digest == digest)
  }

  /** An image that no key points to. */
  ghost predicate Orphan(c: Cache, digest: string) {
    digest in c.imageMap && digest !in c.digestMap.Values
  }

  lemma StoredStaysCoherent(c: Cache, ref: Ref, image: Image, now: int)
    requires Coherent(c)
    ensures Coherent(Stored(c, ref, image, now))
    ensures image.digest != "" && (ref.Digest? ==> ref.digest == image.digest) ==>
              Lookup(Stored(c, ref, image, now), ref) == Some(CachedImage(image, now))
  {
  }

  lemma EvictedStaysCoherent(c: Cache, active: set<string>, olderThan: int)
    requires Coherent(c)
    ensures Coherent(Evicted(c, active, olderThan))
    ensures forall digest :: !Orphan(Evicted(c, active, olderThan), digest)
  {
    var kept := KeptKeys(c, active, olderThan);
    forall key | key in kept
      ensures kept[key] in Evicted(c, active, olderThan).imageMap
    {
      assert kept[key] in kept.Values;
    }
  }

  /** Eviction never removes the image of a key it keeps, so a second eviction
      sees the same times: two evictions keep exactly the keys both keep. */
  lemma EvictTwice(c: Cache, a: set<string>, s: int, b: set<string>, t: int)
    ensures forall key :: key in Evicted(Evicted(c, a, s), b, t).digestMap <==>
              key in c.digestMap && Kept(c, a, s, key) && Kept(c, b, t, key)
    ensures forall digest :: digest in Evicted(Evicted(c, a, s), b, t).imageMap <==>
              digest in c.imageMap &&
              exists key :: key in c.digestMap && c.digestMap[key] == digest && Kept(c, a, s, key) && Kept(c, b, t, key)
  {
    var once := Evicted(c, a, s);
    var twice := Evicted(once, b, t);
    forall key | key in once.digestMap
      ensures Kept(once, b, t, key) == Kept(c, b, t, key)
    {
      assert c.digestMap[key] in once.digestMap.Values;
    }
    forall digest | digest in c.imageMap
      ensures digest in twice.imageMap <==>
        exists key :: key in c.digestMap && c.digestMap[key] == digest && Kept(c, a, s, key) && Kept(c, b, t, key)
    {
      if key :| key in c.digestMap && c.digestMap[key] == digest && Kept(c, a, s, key) && Kept(c, b, t, key) {
        assert digest == once.digestMap[key] && digest in once.digestMap.Values;
        assert digest == twice.digestMap[key] && digest in twice.digestMap.Values;
      }
    }
  }

  /** Caches that only drop entries of c are equal when they keep the same keys and digests. */
  lemma SubCachesEqual(c: Cache, x: Cache, y: Cache)
    requires forall key :: key in x.digestMap ==> key in c.digestMap && x.digestMap[key] == c.digestMap[key]
    requires forall key :: key in y.digestMap ==> key in c.digestMap && y.digestMap[key] == c.digestMap[key]
    requires forall digest :: digest in x.imageMap ==> digest in c.imageMap && x.imageMap[digest] == c.imageMap[digest]
    requires forall digest :: digest in y.imageMap ==> digest in c.imageMap && y.imageMap[digest] == c.imageMap[digest]
    requires forall key :: key in x.digestMap <==> key in y.digestMap
    requires forall digest :: digest in x.imageMap <==> digest in y.imageMap
    ensures x == y
  {
    assert x.digestMap == y.digestMap && x.imageMap == y.imageMap;
  }

  /** Overlapping scrapes may evict in either order. */
  lemma EvictsCommute(c: Cache, a: set<string>, s: int, b: set<string>, t: int)
    ensures Evicted(Evicted(c, a, s), b, t) == Evicted(Evicted(c, b, t), a, s)
  {
    var x, y := Evicted(Evicted(c, a, s), b, t), Evicted(Evicted(c, b, t), a, s);
    EvictTwice(c, a, s, b, t);
    EvictTwice(c, b, t, a, s);
    SubCachesEqual(c, x, y);
  }

  lemma EvictIdempotent(c: Cache, a: set<string>, s: int)
    ensures Evicted(Evicted(c, a, s), a, s) == Evicted(c, a, s)
  {
    EvictTwice(c, a, s, a, s);
    var once, twice := Evicted(c, a, s), Evicted(Evicted(c, a, s), a, s);
    forall digest | digest in once.imageMap
      ensures digest in twice.imageMap
    {
      var key :| key in once.digestMap && once.digestMap[key] == digest;
    }
    assert once.digestMap == twice.digestMap;
    assert once.imageMap == twice.imageMap;
  }

  /** A tag that is active, or whose image is recent, answers the same after eviction as before. */
  lemma EvictKeepsTag(c: Cache, active: set<string>, olderThan: int, tag: Ref)
    requires tag.Tag?
    ensures Lookup(Evicted(c, active, olderThan), tag) == Lookup(c, tag) <==>
              Lookup(c, tag).None? || Kept(c, active, olderThan, tag.String())
  {
    var after := Evicted(c, active, olderThan);
    if tag.String() in c.digestMap && Kept(c, active, olderThan, tag.String()) {
      assert after.digestMap[tag.String()] in after.digestMap.Values;
    }
  }

  /** A digest reference is answered from its digest alone, so being active
      keeps it alive under every epoch only through an active key that points
      to that digest; its own key counts only if it was itself cached. */
  lemma DigestKeptAlive(c: Cache, active: set<string>, ref: Ref)
    requires ref.Digest? && Lookup(c, ref).Some?
    ensures (forall olderThan :: Lookup(Evicted(c, active, olderThan), ref).Some?) <==>
              exists key :: key in active && key in c.digestMap && c.digestMap[key] == ref.digest
  {
    if key :| key in active && key in c.digestMap && c.digestMap[key] == ref.digest {
      forall olderThan ensures Lookup(Evicted(c, active, olderThan), ref).Some? {
        assert KeptKeys(c, active, olderThan)[key] == ref.digest;
        assert ref.digest in KeptKeys(c, active, olderThan).Values;
      }
    } else {
      var late := c.imageMap[ref.digest].time + 1;
      assert Lookup(Evicted(c, active, late), ref).None?;
    }
  }

  /** The case the previous lemma excludes: a digest reference that hits only
      because a tag cached the same digest is dropped although it is active. */
  lemma ActiveDigestCanBeDropped(tag: Ref, ref: Ref, image: Image, now: int)
    requires tag.Tag? && ref.Digest? && image.digest == ref.digest
    ensures var c := Stored(EMPTY, tag, image, now);
            Lookup(c, ref).Some? && Lookup(Evicted(c, Keys([ref]), now + 1), ref).None?
  {
    AtSign(tag);
    AtSign(ref);
    assert tag.String() !in Keys([ref]);
  }

  /** An image cached at or after olderThan is protected exactly when some key
      still points to it: recency alone does not save an orphan. */
  lemma RecentImageKept(c: Cache, active: set<string>, olderThan: int, digest: string)
    requires digest in c.imageMap && c.imageMap[digest].time >= olderThan
    ensures digest in Evicted(c, active, olderThan).imageMap <==> !Orphan(c, digest)
  {
    if !Orphan(c, digest) {
      var key :| key in c.digestMap && c.digestMap[key] == digest;
      assert KeptKeys(c, active, olderThan)[key] == digest;
    }
  }

  /** A moved tag orphans its old digest, and the next eviction drops it however recent it is. */
  lemma MovedTagDropsRecentDigest(tag: Ref, previous: Image, moved: Image, now: int)
    requires tag.Tag? && previous.digest != moved.digest
    ensures var c := Stored(Stored(EMPTY, tag, previous, now), tag, moved, now);
            previous.digest in c.imageMap && previous.digest !in Evicted(c, Keys([tag]), now).imageMap
  {
    var c := Stored(Stored(EMPTY, tag, previous, now), tag, moved, now);
    assert c.digestMap == map[tag.String() := moved.digest];
  }

  /** A map has at most as many values as keys. */
  lemma {:induction false} ValuesAtMostKeys<K, V>(m: map<K, V>)
    ensures |m.Values| <= |m.Keys|
  {
    if m.Keys != {} {
      var key :| key in m.Keys;
      var rest := m - {key};
      ValuesAtMostKeys(rest);
      assert m.Values == rest.Values + {m[key]};
      assert rest.Keys == m.Keys - {key};
    } else {
      assert m.Values == {};
    }
  }

  lemma SubsetAtMost<T>(a: set<T>, b: set<T>)
    requires a <= b
    ensures |a| <= |b|
  {
    assert b == a + (b - a);
  }

  /** No leak: when nothing was cached at or after the epoch, eviction leaves
      exactly the active cached keys and no more images than that. */
  lemma EvictLeavesOnlyActive(c: Cache, active: set<string>, olderThan: int)
    requires forall digest :: digest in c.imageMap ==> c.imageMap[digest].time < olderThan
    ensures var after := Evicted(c, active, olderThan);
            && after.digestMap.Keys == c.digestMap.Keys * active
            && |after.imageMap.Keys| <= |after.digestMap.Keys| <= |active|
  {
    var after := Evicted(c, active, olderThan);
    SubsetAtMost(after.digestMap.Keys, active);
    SubsetAtMost(after.imageMap.Keys, after.digestMap.Values);
    ValuesAtMostKeys(after.digestMap);
  }
}
