/** Image references as the exporter sees them once parsed. The grammar of
    references belongs to a library; what the exporter relies on is that a
    reference is either a tag or a digest, and that its string names it. */
module References {

  datatype RawRef =
    | Tag(name: string)
    | Digest(repository: string, digest: string)
  {
    /** The text the reference was parsed from; the key of every map. */
    function String(): string {
      match this
      case Tag(name) => name
      case Digest(repository, digest) => repository + "@" + digest
    }

    /** An '@' separates repository and digest and occurs nowhere else, and a digest is never empty. */
    predicate Valid() {
      match this
      case Tag(name) => '@' !in name
      case Digest(repository, digest) => '@' !in repository && '@' !in digest && digest != ""
    }
  }

  type Ref = r: RawRef | r.Valid() witness Tag("scratch")

  /** The set of strings under which a list of references is cached. */
  function Keys(refs: seq<Ref>): set<string> {
    set r | r in refs :: r.String()
  }

  /** The '@' of a digest reference sits right after its repository and nowhere else. */
  lemma AtSign(r: Ref)
    ensures r.Digest? <==> '@' in r.String()
    ensures r.Digest? ==> forall i :: 0 <= i < |r.String()| && r.String()[i] == '@' ==> i == |r.repository|
  {
    if r.Digest? {
      assert r.String()[|r.repository|] == '@';
      forall i | |r.repository| < i < |r.String()|
        ensures r.String()[i] != '@'
      {
        assert r.String()[i] == r.digest[i - |r.repository| - 1];
      }
    }
  }

  /** Two references with the same text are the same reference. */
  lemma StringInjective(a: Ref, b: Ref)
    requires a.String() == b.String()
    ensures a == b
  {
    AtSign(a);
    AtSign(b);
    if a.Digest? {
      var n := |a.repository|;
      assert a.String()[n] == '@';
      assert a.repository == a.String()[..n] == b.String()[..n] == b.repository;
      assert a.digest == a.String()[n + 1..] == b.String()[n + 1..] == b.digest;
    }
  }
}
