/** The container image cache: a two-level index from reference to digest and
    from digest to image (internal/clusterexporter/cache.go). The value type
    Cache and its three functions are the specification; the class below works
    on two map fields and is proved to compute those functions. */
module ImageCache {
  import opened Options
  import opened References

  datatype Image = Image(
    digest: string,
    annotations: map<string, string>,
    labels: map<string, string>,
    size: int,
    created: int)

  datatype CachedImage = CachedImage(image: Image, time: int)

  datatype Cache = Cache(
    digestMap: map<string, string>,
    imageMap: map<string, CachedImage>)

  const EMPTY := Cache(map[], map[])

  /** The digest under which a reference is looked up. A digest reference
      carries its own; a tag must have been cached; "" stands for neither. */
  function DigestFor(c: Cache, ref: Ref): string {
    match ref
    case Digest(_, digest) => digest
    case Tag(_) => if ref.String() in c.digestMap then c.digestMap[ref.String()] else ""
  }

  function Lookup(c: Cache, ref: Ref): Option<CachedImage> {
    var digest := DigestFor(c, ref);
    if digest != "" && digest in c.imageMap then Some(c.imageMap[digest]) else None
  }

  function Stored(c: Cache, ref: Ref, image: Image, now: int): Cache {
    Cache(c.digestMap[ref.String() := image.digest],
          c.imageMap[image.digest := CachedImage(image, now)])
  }

  /** Whether eviction keeps a cached key: it is active, or its image was cached at or after olderThan. */
  predicate Kept(c: Cache, active: set<string>, olderThan: int, key: string)
    requires key in c.digestMap
  {
    var digest := c.digestMap[key];
    key in active || (digest in c.imageMap && c.imageMap[digest].time >= olderThan)
  }

  function KeptKeys(c: Cache, active: set<string>, olderThan: int): map<string, string> {
    map key | key in c.digestMap && Kept(c, active, olderThan, key) :: c.digestMap[key]
  }

  /** Eviction: a key stays iff it is kept, a digest stays iff some kept key points to it. */
  function Evicted(c: Cache, active: set<string>, olderThan: int): Cache {
    var kept := KeptKeys(c, active, olderThan);
    Cache(kept, map digest | digest in c.imageMap && digest in kept.Values :: c.imageMap[digest])
  }

  class ContainerImageCache {
    var digestMap: map<string, string>
    var imageMap: map<string, CachedImage>

    function Value(): Cache
      reads this
    {
      Cache(digestMap, imageMap)
    }

    constructor ()
      ensures Value() == EMPTY
    {
      digestMap := map[];
      imageMap := map[];
    }

    method Get(ref: Ref) returns (found: Option<CachedImage>)
      ensures found == Lookup(Value(), ref)
    {
      var digest := "";
      if ref.Digest? {
        digest := ref.digest;
      } else if ref.String() in digestMap {
        digest := digestMap[ref.String()];
      }
      if digest == "" {
        return None;
      }
      if digest !in imageMap {
        return None;
      }
      return Some(imageMap[digest]);
    }

    /** A nil image leaves the cache alone; any other is stored under both keys with the current time. */
    method Put(ref: Ref, image: Option<Image>, now: int)
      modifies this
      ensures image.None? ==> Value() == old(Value())
      ensures image.Some? ==> Value() == Stored(old(Value()), ref, image.value, now)
    {
      if image.None? {
        return;
      }
      digestMap := digestMap[ref.String() := image.value.digest];
      imageMap := imageMap[image.value.digest := CachedImage(image.value, now)];
    }

    /** The two deletion loops visit their keys in an order the method does not choose. */
    method Evict(refs: seq<Ref>, olderThan: int)
      modifies this
      ensures Value() == Evicted(old(Value()), Keys(refs), olderThan)
    {
      var activeRefs: set<string> := {};
      for i := 0 to |refs|
        invariant activeRefs == Keys(refs[..i])
      {
        assert Keys(refs[..i + 1]) == Keys(refs[..i]) + {refs[i].String()};
        activeRefs := activeRefs + {refs[i].String()};
      }
      assert refs[..|refs|] == refs;

      ghost var before := Value();
      var activeDigests: set<string> := {};
      var todo := digestMap.Keys;
      while todo != {}
        invariant todo <= digestMap.Keys && todo <= before.digestMap.Keys
        invariant imageMap == before.imageMap
        invariant forall key :: key in digestMap <==>
            key in before.digestMap && (key in todo || Kept(before, activeRefs, olderThan, key))
        invariant forall key :: key in digestMap ==> digestMap[key] == before.digestMap[key]
        invariant forall digest :: digest in activeDigests <==>
            exists key :: key in digestMap && key !in todo && digestMap[key] == digest
        decreases todo
      {
        var refStr :| refStr in todo;
        var digestStr := digestMap[refStr];
        todo := todo - {refStr};
        if refStr in activeRefs {
          activeDigests := activeDigests + {digestStr};
        } else if digestStr in imageMap && !(imageMap[digestStr].time < olderThan) {
          activeDigests := activeDigests + {digestStr};
        } else {
          digestMap := digestMap - {refStr};
        }
      }
      assert digestMap == KeptKeys(before, activeRefs, olderThan);

      var images := imageMap.Keys;
      while images != {}
        invariant images <= imageMap.Keys
        invariant digestMap == KeptKeys(before, activeRefs, olderThan)
        invariant forall digest :: digest in imageMap <==>
            digest in before.imageMap && (digest in images || digest in activeDigests)
        invariant forall digest :: digest in imageMap ==> imageMap[digest] == before.imageMap[digest]
        decreases images
      {
        var digestStr :| digestStr in images;
        images := images - {digestStr};
        if digestStr !in activeDigests {
          imageMap := imageMap - {digestStr};
        }
      }
    }
  }
}
