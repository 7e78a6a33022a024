/** The cache refines its history. The reference answers below are read off
    the list of past operations without building any map: the key's last Put,
    whether every later eviction let it through, and the latest Put of the
    digest it named. */
module CacheLog {
  import opened Options
  import opened References
  import opened ImageCache

  datatype Op =
    | PutOp(ref: Ref, image: Image, time: int)
    | EvictOp(active: set<string>, olderThan: int)

  function Apply(c: Cache, op: Op): Cache {
    match op
    case PutOp(ref, image, time) => Stored(c, ref, image, time)
    case EvictOp(active, olderThan) => Evicted(c, active, olderThan)
  }

  /** The cache after a history of operations, oldest first. */
  function Replay(h: seq<Op>): Cache {
    if h == [] then EMPTY else Apply(Replay(h[..|h| - 1]), h[|h| - 1])
  }

  /** The position of the last Put of a key, or -1. */
  function LastPut(h: seq<Op>, key: string): (i: int)
    ensures -1 <= i < |h|
    ensures i >= 0 ==> h[i].PutOp? && h[i].ref.String() == key
    ensures forall j :: i < j < |h| && h[j].PutOp? ==> h[j].ref.String() != key
  {
    if h == [] then -1
    else if h[|h| - 1].PutOp? && h[|h| - 1].ref.String() == key then |h| - 1
    else LastPut(h[..|h| - 1], key)
  }

  /** The position of the last Put of an image with this digest, or -1. */
  function LastPutOfDigest(h: seq<Op>, digest: string): (i: int)
    ensures -1 <= i < |h|
    ensures i >= 0 ==> h[i].PutOp? && h[i].image.digest == digest
    ensures forall j :: i < j < |h| && h[j].PutOp? ==> h[j].image.digest != digest
  {
    if h == [] then -1
    else if h[|h| - 1].PutOp? && h[|h| - 1].image.digest == digest then |h| - 1
    else LastPutOfDigest(h[..|h| - 1], digest)
  }

  /** The position of the last eviction, or -1. */
  function LastEvict(h: seq<Op>): (i: int)
    ensures -1 <= i < |h|
    ensures i >= 0 ==> h[i].EvictOp?
    ensures forall j :: i < j < |h| ==> h[j].PutOp?
  {
    if h == [] then -1
    else if h[|h| - 1].EvictOp? then |h| - 1
    else LastEvict(h[..|h| - 1])
  }

  /** The eviction at position j spares the key put at position i: the key is
      active, or the digest had last been put at or after the epoch. */
  ghost predicate Spared(h: seq<Op>, i: nat, j: nat)
    requires i < j < |h| && h[i].PutOp? && h[j].EvictOp?
  {
    var latest := LastPutOfDigest(h[..j], h[i].image.digest);
    assert h[..j][i] == h[i];
    h[i].ref.String() in h[j].active || h[latest].time >= h[j].olderThan
  }

  /** Every eviction after position i spares the key put there. */
  ghost predicate Survives(h: seq<Op>, i: nat)
    requires i < |h| && h[i].PutOp?
  {
    forall j :: i < j < |h| && h[j].EvictOp? ==> Spared(h, i, j)
  }

  /** The digest a key stands for, according to the history. */
  ghost function Binding(h: seq<Op>, key: string): Option<string> {
    var i := LastPut(h, key);
    if i >= 0 && Survives(h, i) then Some(h[i].image.digest) else None
  }

  ghost predicate Named(h: seq<Op>, key: string, digest: string) {
    Binding(h, key) == Some(digest)
  }

  ghost predicate NamedBySome(h: seq<Op>, digest: string) {
    exists key :: Named(h, key, digest)
  }

  /** A digest is held if it was put since the last eviction, or some key stood for it just after that eviction. */
  ghost predicate Held(h: seq<Op>, digest: string) {
    var e := LastEvict(h);
    LastPutOfDigest(h, digest) > e || NamedBySome(h[..e + 1], digest)
  }

  /** The image last put under a digest. */
  function Latest(h: seq<Op>, digest: string): (r: CachedImage)
    requires LastPutOfDigest(h, digest) >= 0
  {
    var i := LastPutOfDigest(h, digest);
    CachedImage(h[i].image, h[i].time)
  }

  /** The answer to a lookup, according to the history. */
  ghost function Answer(h: seq<Op>, ref: Ref): Option<CachedImage> {
    match ref
    case Digest(_, digest) =>
      if Held(h, digest) && LastPutOfDigest(h, digest) >= 0 then Some(Latest(h, digest)) else None
    case Tag(_) =>
      match Binding(h, ref.String())
      case Some(digest) =>
        if digest != "" && LastPutOfDigest(h, digest) >= 0 then Some(Latest(h, digest)) else None
      case None => None
  }

  lemma SparedByPrefix(h: seq<Op>, n: nat, i: nat, j: nat)
    requires i < j < n <= |h| && h[i].PutOp? && h[j].EvictOp?
    ensures Spared(h[..n], i, j) == Spared(h, i, j)
  {
    assert h[..n][..j] == h[..j];
  }

  lemma SurvivesExtended(h: seq<Op>, op: Op, i: nat)
    requires i < |h| && h[i].PutOp?
    ensures Survives(h + [op], i) <==> Survives(h, i) && (op.EvictOp? ==> Spared(h + [op], i, |h|))
  {
    var h' := h + [op];
    assert h'[..|h|] == h;
    forall j | i < j < |h| && h[j].EvictOp?
      ensures Spared(h', i, j) == Spared(h, i, j)
    {
      SparedByPrefix(h', |h|, i, j);
    }
  }

  lemma BindingExtended(h: seq<Op>, op: Op, key: string)
    ensures op.PutOp? && op.ref.String() == key ==> Binding(h + [op], key) == Some(op.image.digest)
    ensures op.PutOp? && op.ref.String() != key ==> Binding(h + [op], key) == Binding(h, key)
    ensures op.EvictOp? && Binding(h, key).None? ==> Binding(h + [op], key).None?
    ensures op.EvictOp? && Binding(h, key).Some? ==>
              var digest := Binding(h, key).value;
              var latest := LastPutOfDigest(h, digest);
              && latest >= 0
              && Binding(h + [op], key) ==
                 if key in op.active || h[latest].time >= op.olderThan then Some(digest) else None
  {
    assert (h + [op])[..|h|] == h;
    var i := LastPut(h, key);
    if i >= 0 {
      SurvivesExtended(h, op, i);
    }
  }

  /** The keys a replayed cache holds, in terms of its history. */
  ghost predicate KeysAgree(h: seq<Op>, c: Cache) {
    && (forall key :: key in c.digestMap <==> Binding(h, key).Some?)
    && (forall key :: key in c.digestMap ==> Binding(h, key) == Some(c.digestMap[key]))
  }

  /** The images a replayed cache holds, in terms of its history. */
  ghost predicate ImagesAgree(h: seq<Op>, c: Cache) {
    && (forall digest :: digest in c.imageMap <==> Held(h, digest))
    && (forall digest :: digest in c.imageMap ==>
        LastPutOfDigest(h, digest) >= 0 && c.imageMap[digest] == Latest(h, digest))
    && (forall key :: key in c.digestMap ==> c.digestMap[key] in c.imageMap)
  }

  lemma KeysAgreeAfter(h: seq<Op>, c: Cache, op: Op)
    requires KeysAgree(h, c) && ImagesAgree(h, c)
    ensures KeysAgree(h + [op], Apply(c, op))
  {
    forall key
      ensures key in Apply(c, op).digestMap <==> Binding(h + [op], key).Some?
      ensures key in Apply(c, op).digestMap ==> Binding(h + [op], key) == Some(Apply(c, op).digestMap[key])
    {
      BindingExtended(h, op, key);
    }
  }

  lemma ImagesAgreeAfterPut(h: seq<Op>, c: Cache, op: Op)
    requires ImagesAgree(h, c) && op.PutOp?
    ensures ImagesAgree(h + [op], Apply(c, op))
  {
    var h', e := h + [op], LastEvict(h);
    assert h'[..|h|] == h;
    assert LastEvict(h') == e && h'[..e + 1] == h[..e + 1];
    forall digest
      ensures Held(h', digest) <==> Held(h, digest) || digest == op.image.digest
    {
      if digest != op.image.digest {
        assert LastPutOfDigest(h', digest) == LastPutOfDigest(h, digest);
      }
    }
  }

  /** Right after an eviction the cached digests are those some key stands for. */
  lemma EvictedImagesNamed(h: seq<Op>, c: Cache, active: set<string>, olderThan: int, digest: string)
    requires KeysAgree(h, Evicted(c, active, olderThan))
    requires forall key :: key in c.digestMap ==> c.digestMap[key] in c.imageMap
    ensures digest in Evicted(c, active, olderThan).imageMap <==> NamedBySome(h, digest)
  {
    var after := Evicted(c, active, olderThan);
    if digest in after.imageMap {
      var key :| key in after.digestMap && after.digestMap[key] == digest;
      assert Named(h, key, digest);
    }
    if key :| Named(h, key, digest) {
      assert key in after.digestMap && digest in after.digestMap.Values;
    }
  }

  lemma ImagesAgreeAfterEvict(h: seq<Op>, c: Cache, op: Op)
    requires ImagesAgree(h, c) && op.EvictOp? && KeysAgree(h + [op], Apply(c, op))
    ensures ImagesAgree(h + [op], Apply(c, op))
  {
    var h', c' := h + [op], Apply(c, op);
    assert h'[..|h|] == h;
    assert LastEvict(h') == |h| && h'[..|h| + 1] == h';
    forall key | key in c'.digestMap
      ensures c'.digestMap[key] in c'.imageMap
    {
      assert c'.digestMap[key] in c'.digestMap.Values;
    }
    forall digest
      ensures digest in c'.imageMap <==> Held(h', digest)
      ensures digest in c'.imageMap ==> LastPutOfDigest(h', digest) >= 0 && c'.imageMap[digest] == Latest(h', digest)
    {
      EvictedImagesNamed(h', c, op.active, op.olderThan, digest);
      assert LastPutOfDigest(h', digest) == LastPutOfDigest(h, digest);
    }
  }

  lemma {:induction false} ReplayAgrees(h: seq<Op>)
    ensures KeysAgree(h, Replay(h)) && ImagesAgree(h, Replay(h))
  {
    if h == [] {
      assert forall key :: Binding(h, key).None?;
      assert forall digest :: !NamedBySome(h[..0], digest);
    } else {
      var before, op := h[..|h| - 1], h[|h| - 1];
      assert h == before + [op];
      ReplayAgrees(before);
      KeysAgreeAfter(before, Replay(before), op);
      if op.PutOp? {
        ImagesAgreeAfterPut(before, Replay(before), op);
      } else {
        ImagesAgreeAfterEvict(before, Replay(before), op);
      }
    }
  }

  /** After any history, every lookup answers what the history says. */
  lemma LookupRefinesLog(h: seq<Op>, ref: Ref)
    ensures Lookup(Replay(h), ref) == Answer(h, ref)
  {
    ReplayAgrees(h);
  }
}
