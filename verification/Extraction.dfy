/** Finding the containers of an object (containerSpecs and specsForPath in
    internal/clusterexporter/reconciler.go). Which positions a path selects is
    stated by evaluating a path on the object; the loops are proved to return
    exactly those positions, each once and in order. */
module Extraction {
  import opened Options
  import opened Json
  import opened JsonPath

  datatype ContainerSpec = ContainerSpec(jsonPath: string, name: string, image: string)

  /** Where a container sits along a path: the index in the list the path
      leads to (or, with a wildcard, iterates), and the index in an inner list. */
  datatype Position = Position(i: nat, j: Option<nat>)

  /** The position of the first "*", or -1. */
  function Wildcard(path: seq<string>): (w: int)
    ensures -1 <= w < |path|
    ensures w >= 0 ==> path[w] == "*"
    ensures forall k :: 0 <= k < (if w >= 0 then w else |path|) ==> path[k] != "*"
  {
    if path == [] then -1
    else if path[0] == "*" then 0
    else
      var w := Wildcard(path[1..]);
      if w < 0 then -1 else w + 1
  }

  function Prefix(path: seq<string>): seq<string>
    requires Wildcard(path) >= 0
  {
    path[..Wildcard(path)]
  }

  function Suffix(path: seq<string>): seq<string>
    requires Wildcard(path) >= 0
  {
    path[Wildcard(path) + 1..]
  }

  function Plain(path: seq<string>): (segs: seq<Segment>)
    ensures |segs| == |path|
    ensures forall k :: 0 <= k < |path| ==> segs[k] == Segment(path[k], None)
  {
    if path == [] then [] else [Segment(path[0], None)] + Plain(path[1..])
  }

  function Indexed(path: seq<string>, i: nat): (segs: seq<Segment>)
    requires path != []
    ensures |segs| == |path|
    ensures forall k :: 0 <= k < |path| ==>
              segs[k] == Segment(path[k], if k == |path| - 1 then Some(i) else None)
  {
    Plain(path[..|path| - 1]) + [Segment(path[|path| - 1], Some(i))]
  }

  /** The positions a path can describe at all. Without a wildcard there is one
      index; with one, the list it iterates must have a name, and an inner list too. */
  predicate WellPlaced(path: seq<string>, pos: Position) {
    if Wildcard(path) < 0 then path != [] && pos.j.None?
    else Prefix(path) != [] && (Suffix(path) == [] ==> pos.j.None?)
  }

  /** The steps from the object to the container at a position. */
  function Steps(path: seq<string>, pos: Position): seq<Segment>
    requires WellPlaced(path, pos)
  {
    if Wildcard(path) < 0 then Indexed(path, pos.i)
    else Indexed(Prefix(path), pos.i) +
         (if pos.j.Some? then Indexed(Suffix(path), pos.j.value) else Plain(Suffix(path)))
  }

  function At(obj: Json, path: seq<string>, pos: Position): Option<Json> {
    if WellPlaced(path, pos) then Evaluate(obj, Steps(path, pos)) else None
  }

  /** A position is selected when the path leads there to an object with a string image. */
  predicate Selected(obj: Json, path: seq<string>, pos: Position) {
    var v := At(obj, path, pos);
    v.Some? && StringAt(v.value, "image").Some?
  }

  function Join(names: seq<string>): string {
    if names == [] then ""
    else if |names| == 1 then names[0]
    else names[0] + "." + Join(names[1..])
  }

  /** The text printed for a position. */
  function PathText(path: seq<string>, pos: Position): string {
    if Wildcard(path) < 0 then
      "{." + Join(path) + "[" + Decimal(pos.i) + "]}"
    else if pos.j.None? then
      "{." + Join(Prefix(path)) + "[" + Decimal(pos.i) + "]." + Join(Suffix(path)) + "}"
    else
      "{." + Join(Prefix(path)) + "[" + Decimal(pos.i) + "]." + Join(Suffix(path)) + "[" + Decimal(pos.j.value) + "]}"
  }

  /** The spec of a container value; its name is optional. */
  function SpecOf(v: Json, jsonPath: string): ContainerSpec
    requires StringAt(v, "image").Some?
  {
    var name := StringAt(v, "name");
    ContainerSpec(jsonPath, if name.Some? then name.value else "", StringAt(v, "image").value)
  }

  function SpecAt(obj: Json, path: seq<string>, pos: Position): ContainerSpec
    requires Selected(obj, path, pos)
  {
    SpecOf(At(obj, path, pos).value, PathText(path, pos))
  }

  predicate Before(a: Position, b: Position) {
    a.i < b.i || (a.i == b.i && a.j.Some? && b.j.Some? && a.j.value < b.j.value)
  }

  ghost function Selection(obj: Json, path: seq<string>): iset<Position> {
    iset pos | Selected(obj, path, pos)
  }

  /** at lists the elements of sel, each once and in order. */
  ghost predicate Lists(sel: iset<Position>, at: seq<Position>) {
    && (forall k :: 0 <= k < |at| ==> at[k] in sel)
    && (forall k, l :: 0 <= k < l < |at| ==> Before(at[k], at[l]))
    && (forall pos :: pos in sel ==> pos in at)
  }

  /** One spec is that of its selected position. */
  ghost predicate SpecMatches(obj: Json, path: seq<string>, spec: ContainerSpec, pos: Position) {
    Selected(obj, path, pos) && spec == SpecAt(obj, path, pos)
  }

  ghost predicate Described(obj: Json, path: seq<string>, specs: seq<ContainerSpec>, at: seq<Position>) {
    && |specs| == |at|
    && forall k :: 0 <= k < |at| ==> SpecMatches(obj, path, specs[k], at[k])
  }

  /** The specs are those of exactly the selected positions, in order. */
  ghost predicate Exact(obj: Json, path: seq<string>, specs: seq<ContainerSpec>, at: seq<Position>) {
    Described(obj, path, specs, at) && Lists(Selection(obj, path), at)
  }

  ghost predicate Extracted(obj: Json, path: seq<string>, specs: seq<ContainerSpec>) {
    exists at :: Exact(obj, path, specs, at)
  }

  // ---- What the lookups of the loops see ------------------------------------

  lemma {:induction false} EvaluatePlain(v: Json, path: seq<string>)
    ensures Evaluate(v, Plain(path)) == Field(v, path)
    decreases |path|
  {
    if path != [] {
      assert Plain(path)[1..] == Plain(path[1..]);
      if v.Object? && path[0] in v.fields {
        EvaluatePlain(v.fields[path[0]], path[1..]);
      }
    }
  }

  function Element(v: Option<Json>, i: nat): Option<Json> {
    if v.Some? && v.value.Array? && i < |v.value.items| then Some(v.value.items[i]) else None
  }

  lemma EvaluateIndexed(v: Json, path: seq<string>, i: nat)
    requires path != []
    ensures Evaluate(v, Indexed(path, i)) == Element(Field(v, path), i)
  {
    var front, last := path[..|path| - 1], path[|path| - 1];
    assert path == front + [last];
    FieldConcat(v, front, [last]);
    EvaluateConcat(v, Plain(front), [Segment(last, Some(i))]);
    EvaluatePlain(v, front);
    match Field(v, front)
    case Some(w) =>
      assert Field(w, [last]) == (if w.Object? && last in w.fields then Some(w.fields[last]) else None);
      assert Evaluate(w, [Segment(last, Some(i))]) ==
             (match Step(w, Segment(last, Some(i))) case Some(x) => Some(x) case None => None);
    case None =>
  }

  /** With a wildcard, a position is reached through the iterated item and the suffix. */
  lemma AtWildcard(obj: Json, path: seq<string>, pos: Position)
    requires Wildcard(path) >= 0 && WellPlaced(path, pos)
    ensures var item := Element(Field(obj, Prefix(path)), pos.i);
            At(obj, path, pos) ==
              if item.None? then None
              else if pos.j.None? then Field(item.value, Suffix(path))
              else Element(Field(item.value, Suffix(path)), pos.j.value)
  {
    var tail := if pos.j.Some? then Indexed(Suffix(path), pos.j.value) else Plain(Suffix(path));
    EvaluateConcat(obj, Indexed(Prefix(path), pos.i), tail);
    EvaluateIndexed(obj, Prefix(path), pos.i);
    var item := Element(Field(obj, Prefix(path)), pos.i);
    if item.Some? {
      if pos.j.Some? {
        EvaluateIndexed(item.value, Suffix(path), pos.j.value);
      } else {
        EvaluatePlain(item.value, Suffix(path));
      }
    }
  }

  // ---- The selection in terms of the object's own fields --------------------------

  /** v is an object whose "image" is this string, and whose "name" is this string or no string at all. */
  ghost predicate IsContainer(v: Json, image: string, name: string) {
    && v.Object?
    && "image" in v.fields && v.fields["image"] == Json.String(image)
    && if "name" in v.fields && v.fields["name"].String? then v.fields["name"] == Json.String(name) else name == ""
  }

  /** v is the element at pos of the list the path leads to, or, with a
      wildcard, is found under the rest of the path in one item of the list before it. */
  ghost predicate Reaches(obj: Json, path: seq<string>, pos: Position, v: Json) {
    if "*" !in path then
      pos.j.None? && InListAt(obj, path, pos.i, v)
    else
      exists before, rest, item ::
        path == before + ["*"] + rest && "*" !in before && ReachesThrough(obj, before, rest, pos, item, v)
  }

  ghost predicate ReachesThrough(
    obj: Json, before: seq<string>, rest: seq<string>, pos: Position, item: Json, v: Json)
  {
    && InListAt(obj, before, pos.i, item) && item.Object?
    && if pos.j.None? then Leads(item, rest, v) else InListAt(item, rest, pos.j.value, v)
  }

  /** v is the i-th element of the list that the names lead to. */
  ghost predicate InListAt(obj: Json, names: seq<string>, i: nat, v: Json) {
    exists items :: Leads(obj, names, Array(items)) && i < |items| && v == items[i]
  }

  lemma InListAtIff(obj: Json, names: seq<string>, i: nat, v: Json)
    ensures Element(Field(obj, names), i) == Some(v) <==> InListAt(obj, names, i, v)
  {
    var found := Field(obj, names);
    if found.Some? {
      FieldIff(obj, names, found.value);
      if found.value.Array? {
        assert found.value == Array(found.value.items);
      }
    }
    if items :| Leads(obj, names, Array(items)) && i < |items| && v == items[i] {
      FieldIff(obj, names, Array(items));
    }
  }

  lemma FirstWildcard(path: seq<string>, before: seq<string>, rest: seq<string>)
    requires path == before + ["*"] + rest && "*" !in before
    ensures Wildcard(path) == |before| && Prefix(path) == before && Suffix(path) == rest
  {
    assert path[|before|] == "*";
    forall k | 0 <= k < |before| ensures path[k] != "*" {
      assert path[k] in before;
    }
  }

  lemma WithinItem(obj: Json, before: seq<string>, rest: seq<string>, pos: Position, item: Json, v: Json)
    requires v.Object?
    ensures ReachesThrough(obj, before, rest, pos, item, v) <==>
              && Element(Field(obj, before), pos.i) == Some(item) && item.Object?
              && (if pos.j.None? then Field(item, rest) else Element(Field(item, rest), pos.j.value)) == Some(v)
    ensures ReachesThrough(obj, before, rest, pos, item, v) && pos.j.Some? ==> rest != []
  {
    InListAtIff(obj, before, pos.i, item);
    if pos.j.None? {
      FieldIff(item, rest, v);
    } else {
      InListAtIff(item, rest, pos.j.value, v);
    }
  }

  /** The wildcard that is expanded is the first. */
  lemma ReachesFirst(obj: Json, path: seq<string>, pos: Position, v: Json)
    requires Wildcard(path) >= 0
    ensures Reaches(obj, path, pos, v) <==>
              exists item :: ReachesThrough(obj, Prefix(path), Suffix(path), pos, item, v)
  {
    assert path[Wildcard(path)] == "*";
    assert path == Prefix(path) + ["*"] + Suffix(path) && "*" !in Prefix(path);
    if before, rest, item :|
      path == before + ["*"] + rest && "*" !in before && ReachesThrough(obj, before, rest, pos, item, v)
    {
      FirstWildcard(path, before, rest);
    }
  }

  lemma AtThrough(obj: Json, path: seq<string>, pos: Position, item: Json, v: Json)
    requires obj.Object? && Wildcard(path) >= 0 && v.Object?
    requires ReachesThrough(obj, Prefix(path), Suffix(path), pos, item, v)
    ensures At(obj, path, pos) == Some(v)
  {
    WithinItem(obj, Prefix(path), Suffix(path), pos, item, v);
    assert Prefix(path) != [];
    assert WellPlaced(path, pos);
    AtWildcard(obj, path, pos);
  }

  lemma ThroughAt(obj: Json, path: seq<string>, pos: Position, v: Json) returns (item: Json)
    requires obj.Object? && Wildcard(path) >= 0 && v.Object? && At(obj, path, pos) == Some(v)
    ensures ReachesThrough(obj, Prefix(path), Suffix(path), pos, item, v)
  {
    assert WellPlaced(path, pos);
    AtWildcard(obj, path, pos);
    item := Element(Field(obj, Prefix(path)), pos.i).value;
    WithinItem(obj, Prefix(path), Suffix(path), pos, item, v);
  }

  lemma AtIff(obj: Json, path: seq<string>, pos: Position, v: Json)
    requires obj.Object? && v.Object?
    ensures At(obj, path, pos) == Some(v) <==> Reaches(obj, path, pos, v)
  {
    if Wildcard(path) >= 0 {
      ReachesFirst(obj, path, pos, v);
      if At(obj, path, pos) == Some(v) {
        var item := ThroughAt(obj, path, pos, v);
      }
      if item :| ReachesThrough(obj, Prefix(path), Suffix(path), pos, item, v) {
        AtThrough(obj, path, pos, item, v);
      }
    } else {
      assert "*" !in path;
      InListAtIff(obj, path, pos.i, v);
      if path != [] {
        EvaluateIndexed(obj, path, pos.i);
      }
    }
  }

  lemma ContainerIff(v: Json, image: string, name: string, jsonPath: string)
    ensures (StringAt(v, "image").Some? && SpecOf(v, jsonPath) == ContainerSpec(jsonPath, name, image)) <==>
              IsContainer(v, image, name)
  {
    StringAtIff(v, "image", image);
    StringAtIff(v, "name", name);
  }

  /** One spec is of a container at a position the path reaches. */
  ghost predicate ContainedAt(obj: Json, path: seq<string>, pos: Position, v: Json, spec: ContainerSpec) {
    Reaches(obj, path, pos, v) && IsContainer(v, spec.image, spec.name) && spec.jsonPath == PathText(path, pos)
  }

  /** A position is selected, with this spec, exactly when the path reaches an
      object there whose own "image" is the spec's, and whose own "name" is the
      spec's if it is a string. Nothing without a string image is selected. */
  lemma SpecMatchesIff(obj: Json, path: seq<string>, spec: ContainerSpec, pos: Position)
    requires obj.Object?
    ensures SpecMatches(obj, path, spec, pos) <==> exists v :: ContainedAt(obj, path, pos, v, spec)
  {
    if SpecMatches(obj, path, spec, pos) {
      var v := At(obj, path, pos).value;
      AtIff(obj, path, pos, v);
      ContainerIff(v, spec.image, spec.name, spec.jsonPath);
      assert ContainedAt(obj, path, pos, v, spec);
    }
    if v :| ContainedAt(obj, path, pos, v, spec) {
      AtIff(obj, path, pos, v);
      ContainerIff(v, spec.image, spec.name, spec.jsonPath);
    }
  }

  // ---- The loops ---------------------------------------------------------------

  /** Positions the loops have passed when they stand at index i, inner index j. */
  predicate Passed(pos: Position, i: nat, j: nat) {
    pos.i < i || (pos.i == i && pos.j.Some? && pos.j.value < j)
  }

  /** at lists the elements of sel that have been passed. */
  ghost predicate ListsPassed(sel: iset<Position>, at: seq<Position>, i: nat, j: nat) {
    && (forall k :: 0 <= k < |at| ==> at[k] in sel && Passed(at[k], i, j))
    && (forall k, l :: 0 <= k < l < |at| ==> Before(at[k], at[l]))
    && (forall pos :: pos in sel && Passed(pos, i, j) ==> pos in at)
  }

  ghost predicate Partial(
    obj: Json, path: seq<string>, specs: seq<ContainerSpec>, at: seq<Position>, i: nat, j: nat)
  {
    Described(obj, path, specs, at) && ListsPassed(Selection(obj, path), at, i, j)
  }

  /** The specs are those of exactly the selected positions passed so far, in order. */
  ghost predicate Reached(obj: Json, path: seq<string>, specs: seq<ContainerSpec>, i: nat, j: nat) {
    exists at :: Partial(obj, path, specs, at, i, j)
  }

  /** Moving on without a new container. */
  lemma ReachedSkipping(obj: Json, path: seq<string>, specs: seq<ContainerSpec>, i: nat, j: nat, i': nat, j': nat)
    requires Reached(obj, path, specs, i, j)
    requires (i' == i && j' == j + 1) || (i' == i + 1 && j' == 0)
    requires forall pos :: Selected(obj, path, pos) && Passed(pos, i', j') ==> Passed(pos, i, j)
    ensures Reached(obj, path, specs, i', j')
  {
    var at: seq<Position> :| Partial(obj, path, specs, at, i, j);
    Skip(Selection(obj, path), at, i, j, i', j');
    assert Partial(obj, path, specs, at, i', j');
  }

  /** Moving on past the one new container. */
  lemma ReachedTaking(
      obj: Json, path: seq<string>, specs: seq<ContainerSpec>, i: nat, j: nat,
      spec: ContainerSpec, pos: Position, i': nat, j': nat)
    requires Reached(obj, path, specs, i, j) && SpecMatches(obj, path, spec, pos)
    requires || (pos == Position(i, Some(j)) && i' == i && j' == j + 1)
             || (pos == Position(i, None) && j == 0 && i' == i + 1 && j' == 0)
    requires forall p :: Selected(obj, path, p) && Passed(p, i', j') ==> Passed(p, i, j) || p == pos
    ensures Reached(obj, path, specs + [spec], i', j')
  {
    var at: seq<Position> :| Partial(obj, path, specs, at, i, j);
    Take(Selection(obj, path), at, i, j, pos, i', j');
    DescribedAppended(obj, path, specs, at, spec, pos);
    assert Partial(obj, path, specs + [spec], at + [pos], i', j');
  }

  lemma NothingReached(obj: Json, path: seq<string>)
    ensures Reached(obj, path, [], 0, 0)
  {
    assert Partial(obj, path, [], [], 0, 0);
  }

  /** Once every selected position has been passed, the specs are complete. */
  lemma ReachedAll(obj: Json, path: seq<string>, specs: seq<ContainerSpec>, i: nat)
    requires Reached(obj, path, specs, i, 0)
    requires forall pos :: Selected(obj, path, pos) ==> Passed(pos, i, 0)
    ensures Extracted(obj, path, specs)
  {
    var at: seq<Position> :| Partial(obj, path, specs, at, i, 0);
    AllPassed(Selection(obj, path), at, i);
    assert Exact(obj, path, specs, at);
  }

  lemma Skip(sel: iset<Position>, at: seq<Position>, i: nat, j: nat, i': nat, j': nat)
    requires ListsPassed(sel, at, i, j)
    requires (i' == i && j' == j + 1) || (i' == i + 1 && j' == 0)
    requires forall pos :: pos in sel && Passed(pos, i', j') ==> Passed(pos, i, j)
    ensures ListsPassed(sel, at, i', j')
  {
  }

  lemma Take(sel: iset<Position>, at: seq<Position>, i: nat, j: nat, pos: Position, i': nat, j': nat)
    requires ListsPassed(sel, at, i, j) && pos in sel
    requires || (pos == Position(i, Some(j)) && i' == i && j' == j + 1)
             || (pos == Position(i, None) && j == 0 && i' == i + 1 && j' == 0)
    requires forall p :: p in sel && Passed(p, i', j') ==> Passed(p, i, j) || p == pos
    ensures ListsPassed(sel, at + [pos], i', j')
  {
    assert forall k :: 0 <= k < |at| ==> Before(at[k], pos);
    assert forall p :: p in at + [pos] <==> p in at || p == pos;
  }

  lemma AllPassed(sel: iset<Position>, at: seq<Position>, i: nat)
    requires ListsPassed(sel, at, i, 0) && forall pos :: pos in sel ==> Passed(pos, i, 0)
    ensures Lists(sel, at)
  {
  }

  lemma DescribedAppended(
      obj: Json, path: seq<string>, specs: seq<ContainerSpec>, at: seq<Position>, spec: ContainerSpec, pos: Position)
    requires Described(obj, path, specs, at) && SpecMatches(obj, path, spec, pos)
    ensures Described(obj, path, specs + [spec], at + [pos])
  {
  }

  /** The search for the first wildcard. */
  method FindWildcard(path: seq<string>) returns (w: int)
    ensures w == Wildcard(path)
  {
    w := -1;
    for i := 0 to |path|
      invariant w == -1
      invariant Wildcard(path) == -1 || Wildcard(path) >= i
    {
      if path[i] == "*" {
        return i;
      }
    }
  }

  /** The list at a path, or nothing. */
  method NestedSlice(obj: Json, path: seq<string>) returns (items: seq<Json>)
    ensures forall i: nat :: Element(Field(obj, path), i) == if i < |items| then Some(items[i]) else None
  {
    var found := Field(obj, path);
    if found.Some? && found.value.Array? {
      items := found.value.items;
    } else {
      items := [];
    }
  }

  /** A path without a wildcard: the list it leads to. */
  method SpecsInList(obj: Json, path: seq<string>) returns (specs: seq<ContainerSpec>)
    requires obj.Object? && Wildcard(path) < 0
    ensures Extracted(obj, path, specs)
  {
    var items := NestedSlice(obj, path);
    assert items == [] || path != [] by {
      assert Element(Field(obj, path), 0).None? || path != [];
    }
    specs := [];
    NothingReached(obj, path);
    for i := 0 to |items|
      invariant Reached(obj, path, specs, i, 0)
    {
      ghost var pos := Position(i, None);
      assert At(obj, path, pos) == Some(items[i]) by { EvaluateIndexed(obj, path, i); }
      var image := StringAt(items[i], "image");
      if image.None? {
        ReachedSkipping(obj, path, specs, i, 0, i + 1, 0);
        continue;
      }
      var name := StringAt(items[i], "name");
      var spec := ContainerSpec(
        "{." + Join(path) + "[" + Decimal(i) + "]}",
        if name.Some? then name.value else "",
        image.value);
      ReachedTaking(obj, path, specs, i, 0, spec, pos, i + 1, 0);
      specs := specs + [spec];
    }
    forall pos | Selected(obj, path, pos)
      ensures Passed(pos, |items|, 0)
    {
      EvaluateIndexed(obj, path, pos.i);
    }
    ReachedAll(obj, path, specs, |items|);
  }

  lemma InnerListPassed(obj: Json, path: seq<string>, specs: seq<ContainerSpec>, i: nat, list: seq<Json>)
    requires Wildcard(path) > 0
    requires var item := Element(Field(obj, Prefix(path)), i);
             item.Some? && Field(item.value, Suffix(path)) == Some(Array(list))
    requires Reached(obj, path, specs, i, |list|)
    ensures Reached(obj, path, specs, i + 1, 0)
  {
    forall pos | Selected(obj, path, pos) && Passed(pos, i + 1, 0)
      ensures Passed(pos, i, |list|)
    {
      AtWildcard(obj, path, pos);
    }
    ReachedSkipping(obj, path, specs, i, |list|, i + 1, 0);
  }

  lemma InnerElement(obj: Json, path: seq<string>, i: nat, list: seq<Json>, j: nat)
    requires Wildcard(path) > 0 && Suffix(path) != [] && j < |list|
    requires var item := Element(Field(obj, Prefix(path)), i);
             item.Some? && Field(item.value, Suffix(path)) == Some(Array(list))
    ensures At(obj, path, Position(i, Some(j))) == Some(list[j])
  {
    AtWildcard(obj, path, Position(i, Some(j)));
  }

  /** An inner element that is not selected. */
  lemma NoInnerSpec(obj: Json, path: seq<string>, specs: seq<ContainerSpec>, i: nat, j: nat)
    requires Reached(obj, path, specs, i, j) && !Selected(obj, path, Position(i, Some(j)))
    ensures Reached(obj, path, specs, i, j + 1)
  {
    ReachedSkipping(obj, path, specs, i, j, i, j + 1);
  }

  /** An inner element with its spec. */
  lemma InnerSpec(obj: Json, path: seq<string>, specs: seq<ContainerSpec>, i: nat, j: nat, spec: ContainerSpec)
    requires Reached(obj, path, specs, i, j) && SpecMatches(obj, path, spec, Position(i, Some(j)))
    ensures Reached(obj, path, specs + [spec], i, j + 1)
  {
    ReachedTaking(obj, path, specs, i, j, spec, Position(i, Some(j)), i, j + 1);
  }

  /** The containers of one inner list. */
  method SpecsInInnerList(
      obj: Json, path: seq<string>, i: nat, list: seq<Json>, specs0: seq<ContainerSpec>)
    returns (specs: seq<ContainerSpec>)
    requires Wildcard(path) > 0 && Suffix(path) != []
    requires var item := Element(Field(obj, Prefix(path)), i);
             item.Some? && Field(item.value, Suffix(path)) == Some(Array(list))
    requires Reached(obj, path, specs0, i, 0)
    ensures Reached(obj, path, specs, i + 1, 0)
  {
    specs := specs0;
    for j := 0 to |list|
      invariant Reached(obj, path, specs, i, j)
    {
      InnerElement(obj, path, i, list, j);
      var image := StringAt(list[j], "image");
      if image.None? {
        NoInnerSpec(obj, path, specs, i, j);
        continue;
      }
      var name := StringAt(list[j], "name");
      var spec := ContainerSpec(
        "{." + Join(Prefix(path)) + "[" + Decimal(i) + "]." + Join(Suffix(path)) + "[" + Decimal(j) + "]}",
        if name.Some? then name.value else "",
        image.value);
      InnerSpec(obj, path, specs, i, j, spec);
      specs := specs + [spec];
    }
    InnerListPassed(obj, path, specs, i, list);
  }

  /** The positions selected within one item: the value the suffix leads to, or elements of it if it is a list. */
  lemma SelectedInItem(obj: Json, path: seq<string>, i: nat, item: Json)
    requires Wildcard(path) > 0 && Element(Field(obj, Prefix(path)), i) == Some(item)
    ensures At(obj, path, Position(i, None)) == Field(item, Suffix(path))
    ensures forall p :: Selected(obj, path, p) && p.i == i ==>
              && item.Object?
              && Field(item, Suffix(path)).Some?
              && (p.j.Some? ==> Field(item, Suffix(path)).value.Array?)
              && (p.j.None? ==> StringAt(Field(item, Suffix(path)).value, "image").Some?)
  {
    AtWildcard(obj, path, Position(i, None));
    forall p | Selected(obj, path, p) && p.i == i
      ensures item.Object? && Field(item, Suffix(path)).Some?
      ensures p.j.Some? ==> Field(item, Suffix(path)).value.Array?
      ensures p.j.None? ==> StringAt(Field(item, Suffix(path)).value, "image").Some?
    {
      AtWildcard(obj, path, p);
    }
  }

  /** An item whose suffix leads to an object: that object is the only container it can hold. */
  method SpecsInSingleton(
      obj: Json, path: seq<string>, i: nat, item: Json, val: Json, specs0: seq<ContainerSpec>)
    returns (specs: seq<ContainerSpec>)
    requires Wildcard(path) > 0 && Element(Field(obj, Prefix(path)), i) == Some(item)
    requires item.Object? && val.Object? && Field(item, Suffix(path)) == Some(val)
    requires Reached(obj, path, specs0, i, 0)
    ensures Reached(obj, path, specs, i + 1, 0)
  {
    specs := specs0;
    ghost var pos := Position(i, None);
    SelectedInItem(obj, path, i, item);
    var image := StringAt(val, "image");
    if image.None? {
      ReachedSkipping(obj, path, specs, i, 0, i + 1, 0);
      return;
    }
    var name := StringAt(val, "name");
    var spec := ContainerSpec(
      "{." + Join(Prefix(path)) + "[" + Decimal(i) + "]." + Join(Suffix(path)) + "}",
      if name.Some? then name.value else "",
      image.value);
    ReachedTaking(obj, path, specs, i, 0, spec, pos, i + 1, 0);
    specs := specs + [spec];
  }

  /** What the wildcard loop does with one item. */
  method SpecsInItem(
      obj: Json, path: seq<string>, i: nat, item: Json, specs0: seq<ContainerSpec>)
    returns (specs: seq<ContainerSpec>)
    requires Wildcard(path) > 0 && Element(Field(obj, Prefix(path)), i) == Some(item)
    requires Reached(obj, path, specs0, i, 0)
    ensures Reached(obj, path, specs, i + 1, 0)
  {
    specs := specs0;
    var val := Field(item, Suffix(path));
    if item.Object? && val.Some? && val.value.Object? {
      specs := SpecsInSingleton(obj, path, i, item, val.value, specs);
    } else if item.Object? && val.Some? && val.value.Array? {
      specs := SpecsInInnerList(obj, path, i, val.value.items, specs);
    } else {
      SelectedInItem(obj, path, i, item);
      ReachedSkipping(obj, path, specs, i, 0, i + 1, 0);
    }
  }

  /** A path with a wildcard: each item of the list before it, with the rest of the path applied. */
  method SpecsThroughWildcard(obj: Json, path: seq<string>) returns (specs: seq<ContainerSpec>)
    requires obj.Object? && Wildcard(path) >= 0
    ensures Extracted(obj, path, specs)
  {
    var items := NestedSlice(obj, Prefix(path));
    assert items == [] || Wildcard(path) > 0 by {
      assert Element(Field(obj, Prefix(path)), 0).None? || Wildcard(path) > 0;
    }
    specs := [];
    NothingReached(obj, path);
    for i := 0 to |items|
      invariant Reached(obj, path, specs, i, 0)
    {
      specs := SpecsInItem(obj, path, i, items[i], specs);
    }
    forall pos | Selected(obj, path, pos)
      ensures Passed(pos, |items|, 0)
    {
      AtWildcard(obj, path, pos);
    }
    ReachedAll(obj, path, specs, |items|);
  }

  method SpecsForPath(obj: Json, path: seq<string>) returns (specs: seq<ContainerSpec>)
    requires obj.Object?
    ensures Extracted(obj, path, specs)
  {
    var w := FindWildcard(path);
    if w == -1 {
      specs := SpecsInList(obj, path);
    } else {
      specs := SpecsThroughWildcard(obj, path);
    }
  }

  /** A container's place in a table of paths. */
  datatype Place = Place(p: nat, pos: Position)

  predicate PlaceBefore(a: Place, b: Place) {
    a.p < b.p || (a.p == b.p && Before(a.pos, b.pos))
  }

  predicate SelectedBy(obj: Json, paths: seq<seq<string>>, place: Place) {
    place.p < |paths| && Selected(obj, paths[place.p], place.pos)
  }

  ghost function TableSelection(obj: Json, paths: seq<seq<string>>): iset<Place> {
    iset place | SelectedBy(obj, paths, place)
  }

  ghost predicate ListsPlaces(sel: iset<Place>, at: seq<Place>) {
    && (forall k :: 0 <= k < |at| ==> at[k] in sel)
    && (forall k, l :: 0 <= k < l < |at| ==> PlaceBefore(at[k], at[l]))
    && (forall place :: place in sel ==> place in at)
  }

  /** One spec matches its place in the table. */
  ghost predicate PlaceDescribed(obj: Json, paths: seq<seq<string>>, spec: ContainerSpec, place: Place) {
    place.p < |paths| && SpecMatches(obj, paths[place.p], spec, place.pos)
  }

  ghost predicate TableDescribed(obj: Json, paths: seq<seq<string>>, specs: seq<ContainerSpec>, at: seq<Place>) {
    && |specs| == |at|
    && forall k :: 0 <= k < |at| ==> PlaceDescribed(obj, paths, specs[k], at[k])
  }

  /** The specs are those of exactly the selected places, in table order. */
  ghost predicate TableExact(obj: Json, paths: seq<seq<string>>, specs: seq<ContainerSpec>, at: seq<Place>) {
    TableDescribed(obj, paths, specs, at) && ListsPlaces(TableSelection(obj, paths), at)
  }

  ghost predicate TableExtracted(obj: Json, paths: seq<seq<string>>, specs: seq<ContainerSpec>) {
    exists at :: TableExact(obj, paths, specs, at)
  }

  /** Some path of the table reaches a container with this spec. */
  ghost predicate Contained(obj: Json, paths: seq<seq<string>>, spec: ContainerSpec) {
    exists p, pos, v :: 0 <= p < |paths| && ContainedAt(obj, paths[p], pos, v, spec)
  }

  lemma ExtractedIsContained(obj: Json, paths: seq<seq<string>>, spec: ContainerSpec, place: Place)
    requires obj.Object? && PlaceDescribed(obj, paths, spec, place)
    ensures Contained(obj, paths, spec)
  {
    SpecMatchesIff(obj, paths[place.p], spec, place.pos);
    var v :| ContainedAt(obj, paths[place.p], place.pos, v, spec);
  }

  lemma PlaceIsExtracted(
      obj: Json, paths: seq<seq<string>>, specs: seq<ContainerSpec>, at: seq<Place>, spec: ContainerSpec, place: Place)
    requires TableExact(obj, paths, specs, at) && PlaceDescribed(obj, paths, spec, place)
    ensures spec in specs
  {
    assert place in TableSelection(obj, paths);
    var k :| 0 <= k < |at| && at[k] == place;
    assert PlaceDescribed(obj, paths, specs[k], at[k]);
  }

  lemma ContainedIsExtracted(
      obj: Json, paths: seq<seq<string>>, specs: seq<ContainerSpec>, at: seq<Place>, spec: ContainerSpec)
    requires obj.Object? && TableExact(obj, paths, specs, at) && Contained(obj, paths, spec)
    ensures spec in specs
  {
    var p, pos, v :| 0 <= p < |paths| && ContainedAt(obj, paths[p], pos, v, spec);
    SpecMatchesIff(obj, paths[p], spec, pos);
    PlaceIsExtracted(obj, paths, specs, at, spec, Place(p, pos));
  }

  /** The extracted specs are those of the containers the paths reach, read off the object's own fields. */
  lemma ExtractedIff(obj: Json, paths: seq<seq<string>>, specs: seq<ContainerSpec>, spec: ContainerSpec)
    requires obj.Object? && TableExtracted(obj, paths, specs)
    ensures spec in specs <==> Contained(obj, paths, spec)
  {
    var at: seq<Place> :| TableExact(obj, paths, specs, at);
    if spec in specs {
      var k :| 0 <= k < |specs| && specs[k] == spec;
      assert PlaceDescribed(obj, paths, specs[k], at[k]);
      ExtractedIsContained(obj, paths, spec, at[k]);
    }
    if Contained(obj, paths, spec) {
      ContainedIsExtracted(obj, paths, specs, at, spec);
    }
  }

  function Places(p: nat, at: seq<Position>): (r: seq<Place>)
    ensures |r| == |at| && forall k :: 0 <= k < |at| ==> r[k] == Place(p, at[k])
  {
    seq(|at|, k requires 0 <= k < |at| => Place(p, at[k]))
  }

  lemma PlacesAppended(
      sel: iset<Place>, at: seq<Place>, p: nat, more: iset<Position>, positions: seq<Position>, sel': iset<Place>)
    requires ListsPlaces(sel, at) && Lists(more, positions)
    requires forall place :: place in sel ==> place.p < p
    requires forall place :: place in sel' <==> place in sel || (place.p == p && place.pos in more)
    ensures ListsPlaces(sel', at + Places(p, positions))
  {
    var at' := at + Places(p, positions);
    forall place | place in sel'
      ensures place in at'
    {
      if place !in sel {
        var k :| 0 <= k < |positions| && positions[k] == place.pos;
        assert at'[|at| + k] == place;
      }
    }
  }

  lemma TableSelectionExtended(obj: Json, paths: seq<seq<string>>, path: seq<string>)
    ensures forall place :: place in TableSelection(obj, paths + [path]) <==>
              || place in TableSelection(obj, paths)
              || (place.p == |paths| && place.pos in Selection(obj, path))
  {
    forall place: Place
      ensures SelectedBy(obj, paths + [path], place) <==>
        SelectedBy(obj, paths, place) || (place.p == |paths| && Selected(obj, path, place.pos))
    {
    }
  }

  lemma PlaceDescribedExtended(
      obj: Json, paths: seq<seq<string>>, path: seq<string>, spec: ContainerSpec, place: Place)
    requires PlaceDescribed(obj, paths, spec, place)
    ensures PlaceDescribed(obj, paths + [path], spec, place)
  {
    assert (paths + [path])[place.p] == paths[place.p];
  }

  lemma PlaceDescribedNew(
      obj: Json, paths: seq<seq<string>>, path: seq<string>, spec: ContainerSpec, pos: Position)
    requires SpecMatches(obj, path, spec, pos)
    ensures PlaceDescribed(obj, paths + [path], spec, Place(|paths|, pos))
  {
    assert (paths + [path])[|paths|] == path;
  }

  lemma TableDescriptionExtended(
      obj: Json, paths: seq<seq<string>>, specs: seq<ContainerSpec>, at: seq<Place>,
      path: seq<string>, more: seq<ContainerSpec>, positions: seq<Position>)
    requires TableDescribed(obj, paths, specs, at) && Described(obj, path, more, positions)
    ensures TableDescribed(obj, paths + [path], specs + more, at + Places(|paths|, positions))
  {
    forall k | 0 <= k < |at|
      ensures PlaceDescribed(obj, paths + [path], specs[k], at[k])
    {
      PlaceDescribedExtended(obj, paths, path, specs[k], at[k]);
    }
    NewPlacesDescribed(obj, paths, path, more, positions);
    TableDescribedConcat(obj, paths + [path], specs, at, more, Places(|paths|, positions));
  }

  lemma NewPlacesDescribed(
      obj: Json, paths: seq<seq<string>>, path: seq<string>, more: seq<ContainerSpec>, positions: seq<Position>)
    requires Described(obj, path, more, positions)
    ensures TableDescribed(obj, paths + [path], more, Places(|paths|, positions))
  {
    forall k | 0 <= k < |positions|
      ensures PlaceDescribed(obj, paths + [path], more[k], Places(|paths|, positions)[k])
    {
      assert SpecMatches(obj, path, more[k], positions[k]);
      PlaceDescribedNew(obj, paths, path, more[k], positions[k]);
    }
  }

  lemma TableDescribedConcat(
      obj: Json, paths: seq<seq<string>>, a: seq<ContainerSpec>, p: seq<Place>, b: seq<ContainerSpec>, q: seq<Place>)
    requires TableDescribed(obj, paths, a, p) && TableDescribed(obj, paths, b, q)
    ensures TableDescribed(obj, paths, a + b, p + q)
  {
    RelatedConcat((spec, place) => PlaceDescribed(obj, paths, spec, place), a, p, b, q);
  }

  lemma RelatedConcat<A, B>(related: (A, B) -> bool, a: seq<A>, p: seq<B>, b: seq<A>, q: seq<B>)
    requires |a| == |p| && forall k :: 0 <= k < |a| ==> related(a[k], p[k])
    requires |b| == |q| && forall k :: 0 <= k < |b| ==> related(b[k], q[k])
    ensures forall k :: 0 <= k < |a + b| ==> related((a + b)[k], (p + q)[k])
  {
  }

  lemma TableExtended(
      obj: Json, paths: seq<seq<string>>, specs: seq<ContainerSpec>, at: seq<Place>,
      path: seq<string>, more: seq<ContainerSpec>, positions: seq<Position>)
    requires TableExact(obj, paths, specs, at) && Exact(obj, path, more, positions)
    ensures TableExact(obj, paths + [path], specs + more, at + Places(|paths|, positions))
  {
    TableDescriptionExtended(obj, paths, specs, at, path, more, positions);
    TableSelectionExtended(obj, paths, path);
    PlacesAppended(TableSelection(obj, paths), at, |paths|, Selection(obj, path), positions,
                   TableSelection(obj, paths + [path]));
  }

  lemma TableExtractedExtended(
      obj: Json, paths: seq<seq<string>>, specs: seq<ContainerSpec>, path: seq<string>, more: seq<ContainerSpec>)
    requires TableExtracted(obj, paths, specs) && Extracted(obj, path, more)
    ensures TableExtracted(obj, paths + [path], specs + more)
  {
    var at: seq<Place> :| TableExact(obj, paths, specs, at);
    var positions: seq<Position> :| Exact(obj, path, more, positions);
    TableExtended(obj, paths, specs, at, path, more, positions);
  }

  method ContainerSpecs(obj: Json, paths: seq<seq<string>>) returns (specs: seq<ContainerSpec>)
    requires obj.Object?
    ensures TableExtracted(obj, paths, specs)
    ensures forall spec :: spec in specs <==> Contained(obj, paths, spec)
  {
    specs := [];
    assert TableExact(obj, paths[..0], [], []);
    for p := 0 to |paths|
      invariant TableExtracted(obj, paths[..p], specs)
    {
      var more := SpecsForPath(obj, paths[p]);
      TableExtractedExtended(obj, paths[..p], specs, paths[p], more);
      assert paths[..p + 1] == paths[..p] + [paths[p]];
      specs := specs + more;
    }
    assert paths[..|paths|] == paths;
    forall spec ensures spec in specs <==> Contained(obj, paths, spec) {
      ExtractedIff(obj, paths, specs, spec);
    }
  }

  // ---- The selection determines the result -------------------------------------

  lemma {:induction false} SortedUnique(at: seq<Place>, at': seq<Place>)
    requires forall k, l :: 0 <= k < l < |at| ==> PlaceBefore(at[k], at[l])
    requires forall k, l :: 0 <= k < l < |at'| ==> PlaceBefore(at'[k], at'[l])
    requires forall place :: place in at <==> place in at'
    ensures at == at'
  {
    assert at != [] ==> at[0] in at';
    assert at' != [] ==> at'[0] in at;
    if at != [] {
      var k :| 0 <= k < |at'| && at'[k] == at[0];
      var l :| 0 <= l < |at| && at[l] == at'[0];
      assert k == 0 || l == 0;
      SameTail(at, at');
      SortedUnique(at[1..], at'[1..]);
    }
  }

  lemma SameTail(at: seq<Place>, at': seq<Place>)
    requires forall k, l :: 0 <= k < l < |at| ==> PlaceBefore(at[k], at[l])
    requires forall k, l :: 0 <= k < l < |at'| ==> PlaceBefore(at'[k], at'[l])
    requires forall place :: place in at <==> place in at'
    requires at != [] && at' != [] && at[0] == at'[0]
    ensures forall place :: place in at[1..] <==> place in at'[1..]
  {
    forall place
      ensures place in at[1..] <==> place in at'[1..]
    {
      assert place in at[1..] <==> place in at && place != at[0];
      assert place in at'[1..] <==> place in at' && place != at'[0];
    }
  }

  /** No two lists of specs are the containers of one object. */
  lemma ExtractionUnique(obj: Json, paths: seq<seq<string>>, a: seq<ContainerSpec>, b: seq<ContainerSpec>)
    requires TableExtracted(obj, paths, a) && TableExtracted(obj, paths, b)
    ensures a == b
  {
    var at: seq<Place> :| TableExact(obj, paths, a, at);
    var at': seq<Place> :| TableExact(obj, paths, b, at');
    SortedUnique(at, at');
    forall k | 0 <= k < |a|
      ensures a[k] == b[k]
    {
      assert PlaceDescribed(obj, paths, a[k], at[k]) && PlaceDescribed(obj, paths, b[k], at[k]);
    }
  }
}
