/** The JSONPath text the exporter prints for a container, a parser for it,
    and an evaluator. Printing is proved to be parsed back exactly. */
module JsonPath {
  import opened Options
  import opened Json

  /** One step of a path: a field, then possibly an element of its list. */
  datatype Segment = Segment(name: string, index: Option<nat>)

  predicate IsDigit(c: char) {
    '0' <= c <= '9'
  }

  /** The characters that give a printed path its structure. */
  predicate IsSpecial(c: char) {
    c == '.' || c == '[' || c == ']' || c == '{' || c == '}'
  }

  /** A segment name that cannot be mistaken for structure. */
  predicate Safe(name: string) {
    forall c :: c in name ==> !IsSpecial(c)
  }

  predicate SafeSegments(segs: seq<Segment>) {
    forall i :: 0 <= i < |segs| ==> Safe(segs[i].name)
  }

  function Digit(d: nat): char
    requires d < 10
  {
    (d as char + '0')
  }

  /** Decimal, as %d prints a non-negative integer. */
  function Decimal(n: nat): (s: string)
    ensures |s| > 0
    ensures forall c :: c in s ==> IsDigit(c)
  {
    if n < 10 then [Digit(n)] else Decimal(n / 10) + [Digit(n % 10)]
  }

  function DigitValue(c: char): nat
    requires IsDigit(c)
  {
    c as int - '0' as int
  }

  function ParseDecimal(s: string): nat
    requires forall c :: c in s ==> IsDigit(c)
  {
    if s == [] then 0 else ParseDecimal(s[..|s| - 1]) * 10 + DigitValue(s[|s| - 1])
  }

  lemma {:induction false} DecimalRoundTrip(n: nat)
    ensures ParseDecimal(Decimal(n)) == n
  {
    if n >= 10 {
      DecimalRoundTrip(n / 10);
      assert Decimal(n)[..|Decimal(n)| - 1] == Decimal(n / 10);
    }
  }

  /** Decimal notation, digit by digit, without leading zeros. */
  lemma DecimalDigits(n: nat, d: nat)
    requires d < 10
    ensures Decimal(d) == ["0123456789"[d]]
    ensures n > 0 ==> Decimal(10 * n + d) == Decimal(n) + ["0123456789"[d]]
  {
  }

  function PrintIndex(index: Option<nat>): string {
    if index.Some? then "[" + Decimal(index.value) + "]" else ""
  }

  function PrintSegment(seg: Segment): string {
    "." + seg.name + PrintIndex(seg.index)
  }

  function PrintSegments(segs: seq<Segment>): string {
    if segs == [] then "" else PrintSegment(segs[0]) + PrintSegments(segs[1..])
  }

  /** A whole path, in braces. */
  function Print(segs: seq<Segment>): string {
    "{" + PrintSegments(segs) + "}"
  }

  /** The length of the longest prefix without structure. */
  function NameLength(s: string): (n: nat)
    ensures n <= |s|
    ensures forall i :: 0 <= i < n ==> !IsSpecial(s[i])
    ensures n < |s| ==> IsSpecial(s[n])
  {
    if s == [] || IsSpecial(s[0]) then 0 else 1 + NameLength(s[1..])
  }

  /** The length of the longest prefix of digits. */
  function DigitsLength(s: string): (n: nat)
    ensures n <= |s|
    ensures forall i :: 0 <= i < n ==> IsDigit(s[i])
    ensures n < |s| ==> !IsDigit(s[n])
  {
    if s == [] || !IsDigit(s[0]) then 0 else 1 + DigitsLength(s[1..])
  }

  /** An optional bracketed index, and the text after it. */
  function ParseIndex(s: string): (r: Option<(Option<nat>, string)>)
    ensures r.Some? ==> |r.value.1| <= |s|
  {
    if s == [] || s[0] != '[' then Some((None, s))
    else
      var d := DigitsLength(s[1..]);
      var after := s[1 + d..];
      if d == 0 || after == [] || after[0] != ']' then None
      else Some((Some(ParseDecimal(s[1..1 + d])), after[1..]))
  }

  function Prepend(seg: Segment, rest: Option<seq<Segment>>): Option<seq<Segment>> {
    match rest
    case Some(segs) => Some([seg] + segs)
    case None => None
  }

  /** Segments up to and including the closing brace. */
  function ParseSegments(s: string): Option<seq<Segment>>
    decreases |s|
  {
    if s == "}" then Some([])
    else if s == [] || s[0] != '.' then None
    else
      var n := NameLength(s[1..]);
      var index := ParseIndex(s[1 + n..]);
      if index.None? then None
      else Prepend(Segment(s[1..1 + n], index.value.0), ParseSegments(index.value.1))
  }

  function Parse(s: string): Option<seq<Segment>> {
    if s != [] && s[0] == '{' then ParseSegments(s[1..]) else None
  }

  function Step(v: Json, seg: Segment): Option<Json> {
    if v.Object? && seg.name in v.fields then
      var w := v.fields[seg.name];
      match seg.index
      case None => Some(w)
      case Some(i) => if w.Array? && i < |w.items| then Some(w.items[i]) else None
    else
      None
  }

  function Evaluate(v: Json, segs: seq<Segment>): Option<Json>
    decreases |segs|
  {
    if segs == [] then Some(v)
    else
      match Step(v, segs[0])
      case Some(w) => Evaluate(w, segs[1..])
      case None => None
  }

  /** vs are the values met on the way along the segments: each name a field of
      the object before it, and each index an element of that field's list. */
  ghost predicate Walks(v: Json, segs: seq<Segment>, vs: seq<Json>) {
    && |vs| == |segs| + 1 && vs[0] == v
    && forall k {:trigger segs[k]} :: 0 <= k < |segs| ==> Walk(vs[k], segs[k], vs[k + 1])
  }

  ghost predicate Walk(v: Json, seg: Segment, next: Json) {
    && v.Object? && seg.name in v.fields
    && var w := v.fields[seg.name];
       if seg.index.None? then next == w
       else w.Array? && seg.index.value < |w.items| && next == w.items[seg.index.value]
  }

  lemma {:induction false} EvaluateWalks(v: Json, segs: seq<Segment>) returns (vs: seq<Json>)
    requires Evaluate(v, segs).Some?
    ensures Walks(v, segs, vs) && vs[|segs|] == Evaluate(v, segs).value
    decreases |segs|
  {
    if segs == [] {
      vs := [v];
    } else {
      var next := Step(v, segs[0]).value;
      var rest := EvaluateWalks(next, segs[1..]);
      vs := [v] + rest;
      assert forall k :: 0 < k < |segs| ==> segs[k] == segs[1..][k - 1];
    }
  }

  lemma {:induction false} WalkIsEvaluate(v: Json, segs: seq<Segment>, vs: seq<Json>)
    requires Walks(v, segs, vs)
    ensures Evaluate(v, segs) == Some(vs[|segs|])
    decreases |segs|
  {
    if segs != [] {
      assert Step(v, segs[0]) == Some(vs[1]);
      forall k | 0 <= k < |segs| - 1
        ensures Walk(vs[1..][k], segs[1..][k], vs[1..][k + 1])
      {
        assert segs[1..][k] == segs[k + 1];
      }
      WalkIsEvaluate(vs[1], segs[1..], vs[1..]);
    }
  }

  /** Evaluation follows the segments, and finds what is there. */
  lemma EvaluateIff(v: Json, segs: seq<Segment>, w: Json)
    ensures Evaluate(v, segs) == Some(w) <==> exists vs :: Walks(v, segs, vs) && vs[|segs|] == w
  {
    if Evaluate(v, segs) == Some(w) {
      var vs := EvaluateWalks(v, segs);
    }
    if vs :| Walks(v, segs, vs) && vs[|segs|] == w {
      WalkIsEvaluate(v, segs, vs);
    }
  }

  lemma NameLengthExact(name: string, rest: string)
    requires Safe(name) && rest != [] && IsSpecial(rest[0])
    ensures NameLength(name + rest) == |name|
  {
    assert forall i :: 0 <= i < |name| ==> (name + rest)[i] == name[i] && name[i] in name;
    assert (name + rest)[|name|] == rest[0];
  }

  lemma DigitsLengthExact(digits: string, rest: string)
    requires (forall c :: c in digits ==> IsDigit(c)) && rest != [] && !IsDigit(rest[0])
    ensures DigitsLength(digits + rest) == |digits|
  {
    assert forall i :: 0 <= i < |digits| ==> (digits + rest)[i] == digits[i] && digits[i] in digits;
    assert (digits + rest)[|digits|] == rest[0];
  }

  lemma ParseIndexExact(index: Option<nat>, tail: string)
    requires tail != [] && tail[0] != '['
    ensures ParseIndex(PrintIndex(index) + tail) == Some((index, tail))
  {
    var s := PrintIndex(index) + tail;
    if index.Some? {
      var digits := Decimal(index.value);
      assert s[1..] == digits + ("]" + tail);
      DigitsLengthExact(digits, "]" + tail);
      assert s[1..1 + |digits|] == digits && s[1 + |digits|..] == "]" + tail;
      assert ("]" + tail)[1..] == tail;
      DecimalRoundTrip(index.value);
    } else {
      assert s == tail;
    }
  }

  /** What follows a printed segment starts with structure, but never with an index. */
  lemma TailStarts(segs: seq<Segment>)
    ensures var tail := PrintSegments(segs) + "}"; tail != [] && (tail[0] == '.' || tail[0] == '}')
  {
  }

  /** Parsing a dot and a name leaves the rest to the index and the following segments. */
  lemma ParseNamed(name: string, rest: string, index: Option<nat>, after: string)
    requires Safe(name) && rest != [] && IsSpecial(rest[0]) && ParseIndex(rest) == Some((index, after))
    ensures ParseSegments("." + (name + rest)) == Prepend(Segment(name, index), ParseSegments(after))
  {
    var s := "." + (name + rest);
    assert s[1..] == name + rest && s != "}";
    NameLengthExact(name, rest);
    assert s[1..1 + |name|] == name && s[1 + |name|..] == rest;
  }

  lemma ParseSegmentExact(seg: Segment, tail: string)
    requires Safe(seg.name) && tail != [] && (tail[0] == '.' || tail[0] == '}')
    ensures ParseSegments(PrintSegment(seg) + tail) == Prepend(seg, ParseSegments(tail))
  {
    var rest := PrintIndex(seg.index) + tail;
    assert PrintSegment(seg) + tail == "." + (seg.name + rest);
    ParseIndexExact(seg.index, tail);
    ParseNamed(seg.name, rest, seg.index, tail);
  }

  lemma {:induction false} ParseSegmentsRoundTrip(segs: seq<Segment>)
    requires SafeSegments(segs)
    ensures ParseSegments(PrintSegments(segs) + "}") == Some(segs)
  {
    if segs == [] {
      assert PrintSegments(segs) + "}" == "}";
    } else {
      var seg, rest := segs[0], segs[1..];
      ParseSegmentsRoundTrip(rest);
      TailStarts(rest);
      var tail := PrintSegments(rest) + "}";
      assert PrintSegments(segs) + "}" == PrintSegment(seg) + tail;
      assert segs == [seg] + rest;
      ParseSegmentExact(seg, tail);
    }
  }

  /** Printing loses nothing. */
  lemma PrintRoundTrip(segs: seq<Segment>)
    requires SafeSegments(segs)
    ensures Parse(Print(segs)) == Some(segs)
  {
    var text := PrintSegments(segs) + "}";
    ParseSegmentsRoundTrip(segs);
    assert Print(segs) == "{" + text;
    assert Print(segs)[0] == '{' && Print(segs)[1..] == text;
  }

  lemma PrintInjective(a: seq<Segment>, b: seq<Segment>)
    requires SafeSegments(a) && SafeSegments(b) && Print(a) == Print(b)
    ensures a == b
  {
    PrintRoundTrip(a);
    PrintRoundTrip(b);
  }

  lemma {:induction false} EvaluateConcat(v: Json, a: seq<Segment>, b: seq<Segment>)
    ensures Evaluate(v, a + b) == (match Evaluate(v, a) case Some(w) => Evaluate(w, b) case None => None)
    decreases |a|
  {
    if a == [] {
      assert a + b == b;
    } else {
      assert (a + b)[0] == a[0] && (a + b)[1..] == a[1..] + b;
      match Step(v, a[0]) {
        case Some(w) => EvaluateConcat(w, a[1..], b);
        case None =>
      }
    }
  }
}
