/** Unstructured objects and the field lookup the exporter applies to them. */
module Json {
  import opened Options

  datatype Json =
    | Null
    | Bool(b: bool)
    | Number(n: int)
    | String(s: string)
    | Array(items: seq<Json>)
    | Object(fields: map<string, Json>)

  /** Descends through named fields; fails at a missing field or a value that is not an object. */
  function Field(v: Json, path: seq<string>): Option<Json>
    decreases |path|
  {
    if path == [] then Some(v)
    else if v.Object? && path[0] in v.fields then Field(v.fields[path[0]], path[1..])
    else None
  }

  /** The string under a key of an object, if there is one. */
  function StringAt(v: Json, key: string): Option<string> {
    if v.Object? && key in v.fields && v.fields[key].String? then Some(v.fields[key].s) else None
  }

  /** w is at the end of a path of names: each name is a field of the object before it. */
  ghost predicate Leads(v: Json, names: seq<string>, w: Json) {
    exists vs :: Descends(v, names, vs) && vs[|names|] == w
  }

  ghost predicate Descends(v: Json, names: seq<string>, vs: seq<Json>) {
    && |vs| == |names| + 1 && vs[0] == v
    && forall k {:trigger names[k]} :: 0 <= k < |names| ==> Holds(vs[k], names[k], vs[k + 1])
  }

  predicate Holds(v: Json, name: string, w: Json) {
    v.Object? && name in v.fields && w == v.fields[name]
  }

  lemma {:induction false} FieldDescends(v: Json, names: seq<string>) returns (vs: seq<Json>)
    requires Field(v, names).Some?
    ensures Descends(v, names, vs) && vs[|names|] == Field(v, names).value
    decreases |names|
  {
    if names == [] {
      vs := [v];
    } else {
      var rest := FieldDescends(v.fields[names[0]], names[1..]);
      vs := [v] + rest;
      forall k | 0 <= k < |names|
        ensures Holds(vs[k], names[k], vs[k + 1])
      {
        assert k > 0 ==> names[k] == names[1..][k - 1];
      }
    }
  }

  lemma {:induction false} DescentIsField(v: Json, names: seq<string>, vs: seq<Json>)
    requires Descends(v, names, vs)
    ensures Field(v, names) == Some(vs[|names|])
    decreases |names|
  {
    if names != [] {
      assert Holds(vs[0], names[0], vs[1]);
      forall k | 0 <= k < |names| - 1
        ensures Holds(vs[1..][k], names[1..][k], vs[1..][k + 1])
      {
        assert names[1..][k] == names[k + 1];
      }
      DescentIsField(v.fields[names[0]], names[1..], vs[1..]);
    }
  }

  /** Field follows the names, and finds what is there. */
  lemma FieldIff(v: Json, names: seq<string>, w: Json)
    ensures Field(v, names) == Some(w) <==> Leads(v, names, w)
  {
    if Field(v, names) == Some(w) {
      var vs := FieldDescends(v, names);
    }
    if vs :| Descends(v, names, vs) && vs[|names|] == w {
      DescentIsField(v, names, vs);
    }
  }

  /** An object's own string under a key; nothing for a missing key or a value of another kind. */
  lemma StringAtIff(v: Json, key: string, s: string)
    ensures StringAt(v, key) == Some(s) <==> v.Object? && key in v.fields && v.fields[key] == Json.String(s)
  {
  }

  lemma {:induction false} FieldConcat(v: Json, p: seq<string>, q: seq<string>)
    ensures Field(v, p + q) == (match Field(v, p) case Some(w) => Field(w, q) case None => None)
    decreases |p|
  {
    if p == [] {
      assert p + q == q;
    } else {
      assert (p + q)[0] == p[0] && (p + q)[1..] == p[1..] + q;
      if v.Object? && p[0] in v.fields {
        FieldConcat(v.fields[p[0]], p[1..], q);
      }
    }
  }
}
