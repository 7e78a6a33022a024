/** The printed JSONPath of a container leads back to it, and no two
    containers of one object print the same JSONPath. */
module ExtractionLaws {
  import opened Options
  import opened Json
  import opened JsonPath
  import opened Extraction

  predicate SafePath(path: seq<string>) {
    forall k :: 0 <= k < |path| ==> Safe(path[k])
  }

  predicate NoEmptyNames(path: seq<string>) {
    forall k :: 0 <= k < |path| ==> path[k] != ""
  }

  /** A path whose first wildcard is its last segment, after at least one name. */
  predicate EndsInWildcard(path: seq<string>) {
    Wildcard(path) > 0 && Wildcard(path) == |path| - 1
  }

  /** The names of a path before its first index, that is, up to the list it iterates. */
  function Head(path: seq<string>): seq<string> {
    if Wildcard(path) < 0 then path else Prefix(path)
  }

  /** The names printed after the first index; after a final wildcard, one empty name. */
  function Tail(path: seq<string>): seq<string> {
    if Wildcard(path) < 0 then [] else if Suffix(path) == [] then [""] else Suffix(path)
  }

  function TailSteps(tail: seq<string>, j: Option<nat>): seq<Segment> {
    if tail == [] then [] else if j.Some? then Indexed(tail, j.value) else Plain(tail)
  }

  /** The segments the printed text spells. */
  function PrintedSteps(path: seq<string>, pos: Position): seq<Segment>
    requires WellPlaced(path, pos)
  {
    Indexed(Head(path), pos.i) + TailSteps(Tail(path), pos.j)
  }

  /** They are the steps to the container, except that a final wildcard adds an empty name. */
  lemma PrintedStepsAre(path: seq<string>, pos: Position)
    requires WellPlaced(path, pos)
    ensures PrintedSteps(path, pos) == Steps(path, pos) + if EndsInWildcard(path) then [Segment("", None)] else []
  {
    if EndsInWildcard(path) {
      assert Suffix(path) == [];
      assert Plain([""]) == [Segment("", None)];
    }
  }

  lemma {:induction false} PrintConcat(a: seq<Segment>, b: seq<Segment>)
    ensures PrintSegments(a + b) == PrintSegments(a) + PrintSegments(b)
  {
    if a == [] {
      assert a + b == b;
    } else {
      assert (a + b)[0] == a[0] && (a + b)[1..] == a[1..] + b;
      PrintConcat(a[1..], b);
    }
  }

  lemma {:induction false} PrintPlain(path: seq<string>)
    requires path != []
    ensures PrintSegments(Plain(path)) == "." + Join(path)
  {
    assert Plain(path)[1..] == Plain(path[1..]);
    if |path| > 1 {
      PrintPlain(path[1..]);
    }
  }

  lemma {:induction false} PrintIndexed(path: seq<string>, i: nat)
    requires path != []
    ensures PrintSegments(Indexed(path, i)) == "." + Join(path) + ("[" + Decimal(i) + "]")
  {
    if |path| == 1 {
      assert Indexed(path, i) == [Segment(path[0], Some(i))];
    } else {
      IndexedFirst(path, i);
      PrintIndexed(path[1..], i);
      PrefixDot(path[0], Join(path[1..]), "[" + Decimal(i) + "]");
    }
  }

  lemma IndexedFirst(path: seq<string>, i: nat)
    requires |path| > 1
    ensures Indexed(path, i)[0] == Segment(path[0], None) && Indexed(path, i)[1..] == Indexed(path[1..], i)
  {
  }

  lemma PrefixDot(name: string, rest: string, index: string)
    ensures "." + name + ("." + rest + index) == "." + (name + "." + rest) + index
  {
  }

  lemma BracesAround(j: string, d: string, k: string)
    ensures "{." + j + "[" + d + "]." + k + "}" == "{" + (("." + j + ("[" + d + "]")) + ("." + k)) + "}"
  {
    assert "{." + j + "[" + d + "]." + k + "}" == "{." + (j + "[" + d + "]." + k + "}");
  }

  lemma PrintTail(tail: seq<string>, j: Option<nat>)
    requires tail != []
    ensures PrintSegments(TailSteps(tail, j)) ==
              "." + (Join(tail) + if j.Some? then "[" + Decimal(j.value) + "]" else "")
  {
    if j.Some? {
      PrintIndexed(tail, j.value);
    } else {
      PrintPlain(tail);
    }
  }

  lemma TailText(path: seq<string>, pos: Position)
    requires WellPlaced(path, pos) && Wildcard(path) >= 0
    ensures Join(Tail(path)) == Join(Suffix(path))
    ensures PathText(path, pos) ==
              "{." + Join(Prefix(path)) + "[" + Decimal(pos.i) + "]." +
              (Join(Tail(path)) + if pos.j.Some? then "[" + Decimal(pos.j.value) + "]" else "") + "}"
  {
  }

  /** The formatted text is the printing of the segments. */
  lemma PathTextPrints(path: seq<string>, pos: Position)
    requires WellPlaced(path, pos)
    ensures PathText(path, pos) == Print(PrintedSteps(path, pos))
  {
    PrintIndexed(Head(path), pos.i);
    PrintConcat(Indexed(Head(path), pos.i), TailSteps(Tail(path), pos.j));
    if Wildcard(path) >= 0 {
      PrintTail(Tail(path), pos.j);
      TailText(path, pos);
      BracesAround(Join(Prefix(path)), Decimal(pos.i),
                   Join(Tail(path)) + if pos.j.Some? then "[" + Decimal(pos.j.value) + "]" else "");
    }
  }

  lemma PrintedStepsSafe(path: seq<string>, pos: Position)
    requires WellPlaced(path, pos) && SafePath(path)
    ensures SafeSegments(PrintedSteps(path, pos))
  {
    PrintedStepsAre(path, pos);
  }

  lemma PathTextParses(path: seq<string>, pos: Position)
    requires WellPlaced(path, pos) && SafePath(path)
    ensures Parse(PathText(path, pos)) == Some(PrintedSteps(path, pos))
  {
    PathTextPrints(path, pos);
    PrintedStepsSafe(path, pos);
    PrintRoundTrip(PrintedSteps(path, pos));
  }

  /** What the printed texts look like, for paths of two names before the index and one after it. */
  lemma PlainForm(a: string, b: string, i: nat)
    requires a != "*" && b != "*"
    ensures PathText([a, b], Position(i, None)) == "{." + a + "." + b + "[" + Decimal(i) + "]}"
  {
    var path := [a, b];
    assert Wildcard(path) == -1;
    assert path[1..] == [b];
    assert Join(path) == a + "." + b;
    assert "{." + (a + "." + b) + "[" + Decimal(i) + "]}" == "{." + a + "." + b + "[" + Decimal(i) + "]}";
  }

  lemma WildcardForm(a: string, b: string, c: string, i: nat, j: Option<nat>)
    requires a != "*" && b != "*"
    ensures PathText([a, b, "*", c], Position(i, j)) ==
              "{." + a + "." + b + "[" + Decimal(i) + "]." + c +
              (if j.Some? then "[" + Decimal(j.value) + "]" else "") + "}"
  {
    var path, before := [a, b, "*", c], [a, b];
    assert path == before + ["*"] + [c];
    FirstWildcard(path, before, [c]);
    assert before[1..] == [b];
    assert Join(before) == a + "." + b;
    assert "{." + (a + "." + b) == "{." + a + "." + b;
  }

  // ---- Round trip ------------------------------------------------------------

  /** A spec's JSONPath, parsed and evaluated on the object, reaches the container it describes. */
  ghost predicate LeadsBack(obj: Json, spec: ContainerSpec) {
    var segs := Parse(spec.jsonPath);
    && segs.Some?
    && var v := Evaluate(obj, segs.value);
    && v.Some?
    && IsContainer(v.value, spec.image, spec.name)
  }

  /** Every container of every object found through this path can be found again by its JSONPath. */
  ghost predicate RoundTrips(path: seq<string>) {
    forall obj, pos :: Selected(obj, path, pos) ==> LeadsBack(obj, SpecAt(obj, path, pos))
  }

  lemma SelectedLeadsBack(obj: Json, path: seq<string>, pos: Position)
    requires SafePath(path) && !EndsInWildcard(path) && Selected(obj, path, pos)
    ensures LeadsBack(obj, SpecAt(obj, path, pos))
  {
    PathTextParses(path, pos);
    PrintedStepsAre(path, pos);
    assert PrintedSteps(path, pos) == Steps(path, pos);
    var spec := SpecAt(obj, path, pos);
    assert Parse(spec.jsonPath) == Some(Steps(path, pos));
    ContainerIff(At(obj, path, pos).value, spec.image, spec.name, spec.jsonPath);
  }

  /** An object with v at the end of a path of names. */
  function Nest(path: seq<string>, v: Json): Json {
    if path == [] then v else Object(map[path[0] := Nest(path[1..], v)])
  }

  lemma {:induction false} NestField(path: seq<string>, v: Json)
    ensures Field(Nest(path, v), path) == Some(v)
    decreases |path|
  {
    if path != [] {
      NestField(path[1..], v);
    }
  }

  /** A final wildcard prints a path ending in an empty name, which the container does not have. */
  lemma FinalWildcardLost(path: seq<string>)
    requires SafePath(path) && EndsInWildcard(path)
    ensures !RoundTrips(path)
  {
    var container := Object(map["image" := Json.String("x")]);
    var obj := Nest(Prefix(path), Array([container]));
    var pos := Position(0, None);
    NestField(Prefix(path), Array([container]));
    AtWildcard(obj, path, pos);
    assert Selected(obj, path, pos);
    PathTextParses(path, pos);
    PrintedStepsAre(path, pos);
    EvaluateConcat(obj, Steps(path, pos), [Segment("", None)]);
    assert Evaluate(container, [Segment("", None)]).None?;
    assert !LeadsBack(obj, SpecAt(obj, path, pos));
  }

  /** The round trip holds for every object exactly when the path does not end in its wildcard. */
  lemma RoundTripIff(path: seq<string>)
    requires SafePath(path)
    ensures RoundTrips(path) <==> !EndsInWildcard(path)
  {
    if EndsInWildcard(path) {
      FinalWildcardLost(path);
    } else {
      forall obj, pos | Selected(obj, path, pos)
        ensures LeadsBack(obj, SpecAt(obj, path, pos))
      {
        SelectedLeadsBack(obj, path, pos);
      }
    }
  }

  // ---- Uniqueness ---------------------------------------------------------------

  /** Segments that spell head with an index on its last name, then tail with an index, if any, on its last name. */
  ghost predicate Spells(s: seq<Segment>, head: seq<string>, i: nat, tail: seq<string>, j: Option<nat>) {
    && |head| > 0 && |s| == |head| + |tail|
    && (forall k :: 0 <= k < |head| ==> s[k] == Segment(head[k], if k == |head| - 1 then Some(i) else None))
    && (forall k :: |head| <= k < |s| ==> s[k] == Segment(tail[k - |head|], if k == |s| - 1 then j else None))
    && (tail == [] ==> j.None?)
  }

  lemma PrintedStepsSpell(path: seq<string>, pos: Position)
    requires WellPlaced(path, pos)
    ensures Spells(PrintedSteps(path, pos), Head(path), pos.i, Tail(path), pos.j)
  {
    TailStepsSpell(Tail(path), pos.j);
    SpellsConcat(Head(path), pos.i, Tail(path), pos.j, TailSteps(Tail(path), pos.j));
  }

  lemma SpellsConcat(head: seq<string>, i: nat, tail: seq<string>, j: Option<nat>, t: seq<Segment>)
    requires head != [] && |t| == |tail| && (tail == [] ==> j.None?)
    requires forall k :: 0 <= k < |t| ==> t[k] == Segment(tail[k], if k == |t| - 1 then j else None)
    ensures Spells(Indexed(head, i) + t, head, i, tail, j)
  {
  }

  lemma TailStepsSpell(tail: seq<string>, j: Option<nat>)
    ensures var s := TailSteps(tail, j);
            |s| == |tail| && forall k :: 0 <= k < |s| ==> s[k] == Segment(tail[k], if k == |s| - 1 then j else None)
  {
  }

  lemma OnlyIndexInHead(s: seq<Segment>, h: seq<string>, i: nat, t: seq<string>, j: Option<nat>, n: nat)
    requires Spells(s, h, i, t, j) && n < |s| && s[n].index.Some?
    ensures n >= |h| - 1
  {
  }

  /** The first index ends the head, so the spelling is unique. */
  lemma SpellingUnique(
      s: seq<Segment>, h: seq<string>, i: nat, t: seq<string>, j: Option<nat>,
      h': seq<string>, i': nat, t': seq<string>, j': Option<nat>)
    requires Spells(s, h, i, t, j) && Spells(s, h', i', t', j')
    ensures h == h' && i == i' && t == t' && j == j'
  {
    OnlyIndexInHead(s, h, i, t, j, |h'| - 1);
    OnlyIndexInHead(s, h', i', t', j', |h| - 1);
    assert forall k :: 0 <= k < |h| ==> s[k].name == h[k] && s[k].name == h'[k];
    assert h == h' && s[|h| - 1].index == Some(i) && s[|h| - 1].index == Some(i');
    forall k | 0 <= k < |t| ensures t[k] == t'[k] {
      assert s[|h| + k].name == t[k] && s[|h| + k].name == t'[k];
    }
    assert t == t';
    assert t != [] ==> s[|s| - 1].index == j && s[|s| - 1].index == j';
  }

  lemma PathFromParts(p: seq<string>, q: seq<string>)
    requires Head(p) == Head(q) && Tail(p) == Tail(q) && NoEmptyNames(p) && NoEmptyNames(q)
    ensures p == q
  {
    if Wildcard(p) >= 0 && Wildcard(q) >= 0 {
      assert Suffix(p) != [] ==> Suffix(p)[0] == p[Wildcard(p) + 1];
      assert Suffix(q) != [] ==> Suffix(q)[0] == q[Wildcard(q) + 1];
      assert Suffix(p) == Suffix(q);
      assert p == Prefix(p) + ["*"] + Suffix(p);
      assert q == Prefix(q) + ["*"] + Suffix(q);
    }
  }

  /** Printing determines the path and the position. */
  lemma PathTextInjective(p: seq<string>, a: Position, q: seq<string>, b: Position)
    requires WellPlaced(p, a) && WellPlaced(q, b)
    requires SafePath(p) && SafePath(q) && NoEmptyNames(p) && NoEmptyNames(q)
    requires PathText(p, a) == PathText(q, b)
    ensures p == q && a == b
  {
    PathTextParses(p, a);
    PathTextParses(q, b);
    PrintedStepsSpell(p, a);
    PrintedStepsSpell(q, b);
    SpellingUnique(PrintedSteps(p, a), Head(p), a.i, Tail(p), a.j, Head(q), b.i, Tail(q), b.j);
    PathFromParts(p, q);
  }

  /** A table of paths without repetitions or structural characters. */
  predicate SafeTable(paths: seq<seq<string>>) {
    && (forall p :: 0 <= p < |paths| ==> SafePath(paths[p]) && NoEmptyNames(paths[p]))
    && (forall p, q :: 0 <= p < q < |paths| ==> paths[p] != paths[q])
  }

  /** No two containers extracted from one object share a JSONPath. */
  lemma JsonPathsDistinct(
      obj: Json, paths: seq<seq<string>>, specs: seq<ContainerSpec>, k: nat, l: nat)
    requires SafeTable(paths) && TableExtracted(obj, paths, specs) && k < l < |specs|
    ensures specs[k].jsonPath != specs[l].jsonPath
  {
    var at: seq<Place> :| TableExact(obj, paths, specs, at);
    assert PlaceDescribed(obj, paths, specs[k], at[k]) && PlaceDescribed(obj, paths, specs[l], at[l]);
    assert PlaceBefore(at[k], at[l]);
    if specs[k].jsonPath == specs[l].jsonPath {
      PathTextInjective(paths[at[k].p], at[k].pos, paths[at[l].p], at[l].pos);
    }
  }

  /** Every container extracted from an object through safe paths can be found again by its JSONPath. */
  lemma ExtractedLeadBack(obj: Json, paths: seq<seq<string>>, specs: seq<ContainerSpec>, k: nat)
    requires SafeTable(paths) && TableExtracted(obj, paths, specs) && k < |specs|
    requires forall p :: 0 <= p < |paths| ==> !EndsInWildcard(paths[p])
    ensures LeadsBack(obj, specs[k])
  {
    var at: seq<Place> :| TableExact(obj, paths, specs, at);
    assert PlaceDescribed(obj, paths, specs[k], at[k]);
    SelectedLeadsBack(obj, paths[at[k].p], at[k].pos);
  }
}
