/** Parsing os-release files (internal/nodeexporter/osrelease.go). Text is a
    sequence of characters; the map type is the parser's result. */
module OsRelease {

  /** Unicode white space, as strings.TrimSpace strips it. */
  predicate IsSpace(c: char) {
    || '\t' <= c <= '\r' || c == ' '
    || c == '\U{0085}' || c == '\U{00A0}' || c == '\U{1680}'
    || '\U{2000}' <= c <= '\U{200A}'
    || c == '\U{2028}' || c == '\U{2029}' || c == '\U{202F}' || c == '\U{205F}' || c == '\U{3000}'
  }

  function TrimLeft(s: string): string {
    if s != [] && IsSpace(s[0]) then TrimLeft(s[1..]) else s
  }

  function TrimRight(s: string): string {
    if s != [] && IsSpace(s[|s| - 1]) then TrimRight(s[..|s| - 1]) else s
  }

  function TrimSpace(s: string): string {
    TrimRight(TrimLeft(s))
  }

  /** The position of the first c, or the length. */
  function IndexOf(s: string, c: char): (i: nat)
    ensures i <= |s|
    ensures c !in s[..i]
    ensures i < |s| ==> s[i] == c
  {
    if s == [] || s[0] == c then 0 else 1 + IndexOf(s[1..], c)
  }

  /** The lines of a text. A final newline does not start another line. */
  function Lines(text: string): seq<string>
    decreases |text|
  {
    if text == [] then []
    else
      var i := IndexOf(text, '\n');
      if i < |text| then [text[..i]] + Lines(text[i + 1..]) else [text]
  }

  /** A matching pair of quotes around a value is dropped. */
  function Unquote(val: string): string {
    if |val| >= 2 && (val[0] == '"' || val[0] == '\'') && val[0] == val[|val| - 1]
    then val[1..|val| - 1] else val
  }

  /** What one line contributes: nothing, or one entry. */
  function ParseLine(raw: string): map<string, string> {
    ParseTrimmed(TrimSpace(raw))
  }

  function ParseTrimmed(line: string): map<string, string> {
    if line == "" || line[0] == '#' then map[]
    else
      var i := IndexOf(line, '=');
      if i < |line| then map[line[..i] := Unquote(line[i + 1..])] else map[]
  }

  /** Later lines override earlier ones. */
  function ParseLines(lines: seq<string>): map<string, string> {
    if lines == [] then map[]
    else ParseLines(lines[..|lines| - 1]) + ParseLine(lines[|lines| - 1])
  }

  function Parsed(text: string): map<string, string> {
    ParseLines(Lines(text))
  }

  lemma ParseLinesNext(lines: seq<string>, n: nat)
    requires n < |lines|
    ensures ParseLines(lines[..n + 1]) == ParseLines(lines[..n]) + ParseLine(lines[n])
  {
    assert lines[..n + 1][..n] == lines[..n];
  }

  /** The body of the scanning loop, on a trimmed line. */
  method ReadLine(line: string, result: map<string, string>) returns (result': map<string, string>)
    ensures result' == result + ParseTrimmed(line)
  {
    result' := result;
    if line == "" || line[0] == '#' {
      return;
    }
    var i := IndexOf(line, '=');
    if i == |line| {
      return;
    }
    var key, val := line[..i], line[i + 1..];
    if |val| >= 2 && (val[0] == '"' || val[0] == '\'') && val[0] == val[|val| - 1] {
      val := val[1..|val| - 1];
    }
    assert ParseTrimmed(line) == map[key := val];
    result' := result[key := val];
  }

  method ParseOSRelease(text: string) returns (result: map<string, string>)
    ensures result == Parsed(text)
  {
    result := map[];
    var lines := Lines(text);
    for n := 0 to |lines|
      invariant result == ParseLines(lines[..n])
    {
      ParseLinesNext(lines, n);
      result := ReadLine(TrimSpace(lines[n]), result);
    }
    assert lines[..|lines|] == lines;
  }

  // ---- Concatenation -------------------------------------------------------------

  lemma OverrideAssociative(a: map<string, string>, b: map<string, string>, c: map<string, string>)
    ensures (a + b) + c == a + (b + c)
  {
  }

  lemma {:induction false} ParseLinesConcat(a: seq<string>, b: seq<string>)
    ensures ParseLines(a + b) == ParseLines(a) + ParseLines(b)
  {
    if b == [] {
      assert a + b == a;
    } else {
      var front, last := b[..|b| - 1], b[|b| - 1];
      assert (a + b)[..|a + b| - 1] == a + front && (a + b)[|a + b| - 1] == last;
      ParseLinesConcat(a, front);
      OverrideAssociative(ParseLines(a), ParseLines(front), ParseLine(last));
    }
  }

  lemma IndexOfFirst(s: string, rest: string, c: char)
    requires c !in s
    ensures IndexOf(s + [c] + rest, c) == |s|
  {
    var t := s + [c] + rest;
    assert t[..|s|] == s && t[|s|] == c;
    IndexOfIs(t, c, |s|);
  }

  /** The first occurrence is the one nothing precedes. */
  lemma {:induction false} IndexOfIs(t: string, c: char, i: nat)
    requires i < |t| && t[i] == c && c !in t[..i]
    ensures IndexOf(t, c) == i
  {
    if i > 0 {
      assert t[0] == t[..i][0];
      assert t[1..][..i - 1] == t[..i][1..];
      IndexOfIs(t[1..], c, i - 1);
    }
  }

  /** The lines of a text that starts with one line and a newline. */
  lemma LinesOfFirst(head: string, rest: string)
    requires '\n' !in head
    ensures Lines(head + "\n" + rest) == [head] + Lines(rest)
  {
    var t := head + "\n" + rest;
    IndexOfFirst(head, rest, '\n');
    assert t[..|head|] == head && t[|head| + 1..] == rest;
  }

  /** The lines of a newline-terminated text: its own, or one empty line more
      when it is empty or already ends in a newline. */
  function Terminated(a: string): seq<string> {
    Lines(a) + if a == [] || a[|a| - 1] == '\n' then [""] else []
  }

  lemma TerminatedStep(head: string, rest: string)
    requires '\n' !in head
    ensures Terminated(head + "\n" + rest) == [head] + Terminated(rest)
  {
    var a := head + "\n" + rest;
    LinesOfFirst(head, rest);
    assert rest != [] ==> a[|a| - 1] == rest[|rest| - 1];
    assert rest == [] ==> a[|a| - 1] == '\n';
  }

  lemma Regroup<T>(a: seq<T>, b: seq<T>, c: seq<T>)
    ensures a + (b + c) == a + b + c
  {
  }

  lemma LinesConcatStep(head: string, rest: string, b: string)
    requires '\n' !in head && Lines(rest + "\n" + b) == Terminated(rest) + Lines(b)
    ensures Lines(head + "\n" + rest + "\n" + b) == Terminated(head + "\n" + rest) + Lines(b)
  {
    TerminatedStep(head, rest);
    LinesOfFirst(head, rest + "\n" + b);
    Regroup(head + "\n", rest, "\n" + b);
    Regroup(rest, "\n", b);
    Regroup(head + "\n" + rest, "\n", b);
    Regroup([head], Terminated(rest), Lines(b));
  }

  lemma TerminatedLine(a: string)
    requires '\n' !in a
    ensures Terminated(a) == [a]
  {
    assert a != [] ==> a[|a| - 1] in a;
    assert IndexOf(a, '\n') == |a|;
  }

  lemma {:induction false} LinesConcat(a: string, b: string)
    ensures Lines(a + "\n" + b) == Terminated(a) + Lines(b)
    decreases |a|
  {
    var i := IndexOf(a, '\n');
    if i < |a| {
      assert a == a[..i] + "\n" + a[i + 1..];
      LinesConcat(a[i + 1..], b);
      LinesConcatStep(a[..i], a[i + 1..], b);
    } else {
      assert a[..i] == a;
      LinesOfFirst(a, b);
      TerminatedLine(a);
    }
  }

  /** Two texts joined by a newline parse to the first overridden by the second. */
  lemma ParsedConcat(a: string, b: string)
    ensures Parsed(a + "\n" + b) == Parsed(a) + Parsed(b)
  {
    LinesConcat(a, b);
    ParseLinesConcat(Terminated(a), Lines(b));
    EmptyLineAddsNothing(Lines(a));
    assert Lines(a) + [] == Lines(a);
  }

  lemma EmptyLineAddsNothing(lines: seq<string>)
    ensures ParseLines(lines + [""]) == ParseLines(lines)
  {
    assert (lines + [""])[..|lines|] == lines;
    assert ParseLine("") == map[];
  }

  // ---- What one line means -----------------------------------------------------------

  predicate AllSpace(s: string) {
    forall c :: c in s ==> IsSpace(c)
  }

  /** No white space at either end. */
  predicate Tight(s: string) {
    s != [] ==> !IsSpace(s[0]) && !IsSpace(s[|s| - 1])
  }

  /** body is what is left of a line without the white space around it. */
  ghost predicate Surrounded(raw: string, body: string) {
    exists lead, trail :: AllSpace(lead) && AllSpace(trail) && Tight(body) && raw == lead + body + trail
  }

  lemma {:induction false} TrimLeftSplits(s: string) returns (lead: string)
    ensures AllSpace(lead) && s == lead + TrimLeft(s) && (TrimLeft(s) != [] ==> !IsSpace(TrimLeft(s)[0]))
  {
    lead := [];
    if s != [] && IsSpace(s[0]) {
      var more := TrimLeftSplits(s[1..]);
      lead := [s[0]] + more;
    }
  }

  lemma {:induction false} TrimRightSplits(s: string) returns (trail: string)
    ensures AllSpace(trail) && s == TrimRight(s) + trail
    ensures TrimRight(s) != [] ==> !IsSpace(TrimRight(s)[|TrimRight(s)| - 1])
  {
    trail := [];
    if s != [] && IsSpace(s[|s| - 1]) {
      var more := TrimRightSplits(s[..|s| - 1]);
      trail := more + [s[|s| - 1]];
    }
  }

  lemma {:induction false} TrimLeftDrops(lead: string, s: string)
    requires AllSpace(lead)
    ensures TrimLeft(lead + s) == TrimLeft(s)
  {
    if lead != [] {
      assert (lead + s)[1..] == lead[1..] + s;
      TrimLeftDrops(lead[1..], s);
    } else {
      assert lead + s == s;
    }
  }

  lemma {:induction false} TrimRightDrops(s: string, trail: string)
    requires AllSpace(trail)
    ensures TrimRight(s + trail) == TrimRight(s)
  {
    if trail != [] {
      assert (s + trail)[..|s + trail| - 1] == s + trail[..|trail| - 1];
      TrimRightDrops(s, trail[..|trail| - 1]);
    } else {
      assert s + trail == s;
    }
  }

  lemma TrimmedIsSurrounded(raw: string)
    ensures Surrounded(raw, TrimSpace(raw))
  {
    var left := TrimLeft(raw);
    var lead := TrimLeftSplits(raw);
    var trail := TrimRightSplits(left);
    assert TrimRight(left) != [] ==> TrimRight(left)[0] == left[0];
    assert raw == lead + TrimSpace(raw) + trail;
  }

  lemma SurroundedIsTrimmed(lead: string, body: string, trail: string)
    requires AllSpace(lead) && AllSpace(trail) && Tight(body)
    ensures TrimSpace(lead + body + trail) == body
  {
    assert lead + body + trail == lead + (body + trail);
    TrimLeftDrops(lead, body + trail);
    if body == [] {
      assert body + trail == trail && trail + "" == trail;
      TrimLeftDrops(trail, "");
    } else {
      TrimRightDrops(body, trail);
    }
  }

  /** Trimming removes the surrounding white space, all of it and nothing else. */
  lemma TrimSpaceIff(raw: string, body: string)
    ensures TrimSpace(raw) == body <==> Surrounded(raw, body)
  {
    TrimmedIsSurrounded(raw);
    if lead, trail :| AllSpace(lead) && AllSpace(trail) && Tight(body) && raw == lead + body + trail {
      SurroundedIsTrimmed(lead, body, trail);
    }
  }

  /** A value between two equal quotes. */
  predicate Quoted(val: string) {
    |val| >= 2 && val[0] == val[|val| - 1] && val[0] in {'"', '\''}
  }

  /** rest, as written after the '=', stands for val: what is between its
      quotes if it has a matching pair around it, and otherwise itself. */
  predicate StandsFor(rest: string, val: string) {
    if Quoted(rest) then rest == [rest[0]] + val + [rest[0]] else rest == val
  }

  lemma UnquoteIff(rest: string, val: string)
    ensures Unquote(rest) == val <==> StandsFor(rest, val)
  {
    if Quoted(rest) {
      assert rest == [rest[0]] + rest[1..|rest| - 1] + [rest[0]];
      if rest == [rest[0]] + val + [rest[0]] {
        assert rest[1..|rest| - 1] == val;
      }
    }
  }

  /** A key as a trimmed line can have it. */
  predicate IsKey(key: string) {
    '=' !in key && (key != [] ==> key[0] != '#')
  }

  /** A line that is an entry: neither blank nor a comment, and cut at its first '='. */
  ghost predicate LineMeans(raw: string, key: string, val: string) {
    exists rest :: Surrounded(raw, key + "=" + rest) && IsKey(key) && StandsFor(rest, val)
  }

  /** A line that is blank, a comment, or without '='. */
  ghost predicate LineSkipped(raw: string) {
    exists body :: Surrounded(raw, body) && (body == [] || body[0] == '#' || '=' !in body)
  }

  lemma EntryIsParsed(line: string, key: string, rest: string)
    requires line == key + "=" + rest && IsKey(key)
    ensures ParseTrimmed(line) == map[key := Unquote(rest)]
  {
    IndexOfFirst(key, rest, '=');
    assert line[..|key|] == key && line[|key| + 1..] == rest;
    assert line[0] == if key == [] then '=' else key[0];
  }

  lemma ParsedIsEntry(line: string, key: string) returns (rest: string)
    requires key in ParseTrimmed(line)
    ensures line == key + "=" + rest && IsKey(key)
  {
    var i := IndexOf(line, '=');
    rest := line[i + 1..];
    assert line == line[..i] + "=" + rest;
  }

  lemma ParseTrimmedIff(line: string, key: string, val: string)
    ensures ParseTrimmed(line) == map[key := val] <==>
              exists rest :: line == key + "=" + rest && IsKey(key) && StandsFor(rest, val)
  {
    assert key in map[key := val] && map[key := val][key] == val;
    if ParseTrimmed(line) == map[key := val] {
      var rest := ParsedIsEntry(line, key);
      EntryIsParsed(line, key, rest);
      assert ParseTrimmed(line)[key] == Unquote(rest);
      UnquoteIff(rest, val);
    }
    if rest :| line == key + "=" + rest && IsKey(key) && StandsFor(rest, val) {
      EntryIsParsed(line, key, rest);
      UnquoteIff(rest, val);
    }
  }

  /** What a line contributes, in terms of its text alone. */
  lemma ParseLineIff(raw: string, key: string, val: string)
    ensures ParseLine(raw) == map[key := val] <==> LineMeans(raw, key, val)
  {
    var line := TrimSpace(raw);
    TrimSpaceIff(raw, line);
    ParseTrimmedIff(line, key, val);
    if rest :| Surrounded(raw, key + "=" + rest) && IsKey(key) && StandsFor(rest, val) {
      TrimSpaceIff(raw, key + "=" + rest);
    }
  }

  /** Exactly the blank lines, the comments and the lines without '=' contribute nothing. */
  lemma ParseLineSkipsIff(raw: string)
    ensures ParseLine(raw) == map[] <==> LineSkipped(raw)
  {
    var line := TrimSpace(raw);
    TrimSpaceIff(raw, line);
    if body :| Surrounded(raw, body) && (body == [] || body[0] == '#' || '=' !in body) {
      TrimSpaceIff(raw, body);
    }
    var i := IndexOf(line, '=');
    if line != [] && line[0] != '#' && i < |line| {
      assert line[..i] in ParseLine(raw);
      assert line[i] == '=';
    } else {
      assert i == |line| ==> line[..i] == line;
    }
  }

  /** Such a line adds nothing to the text before it. */
  lemma SkippedAddsNothing(text: string, raw: string)
    requires LineSkipped(raw) && '\n' !in raw
    ensures Parsed(text + "\n" + raw) == Parsed(text)
  {
    ParsedConcat(text, raw);
    ParseLineSkipsIff(raw);
    if raw != [] {
      SingleLine(raw);
      assert ParseLines([raw]) == ParseLine(raw);
    }
  }

  // ---- Round trip -----------------------------------------------------------------

  /** The keys a parse can produce. */
  predicate GoodKey(key: string) {
    && '=' !in key && '\n' !in key
    && (key != [] ==> key[0] != '#' && !IsSpace(key[0]))
  }

  /** The three ways to write a value. */
  datatype Style = DoubleQuoted | SingleQuoted | Bare

  function PrintValue(val: string, style: Style): string {
    match style
    case DoubleQuoted => "\"" + val + "\""
    case SingleQuoted => "'" + val + "'"
    case Bare => val
  }

  function PrintLine(key: string, val: string, style: Style): string {
    key + "=" + PrintValue(val, style)
  }

  /** The values that may be written bare: any without white space at the end
      or a matching pair of quotes around it. A lone quote, or two different ones, are part of the value. */
  predicate Plain(val: string) {
    !Quoted(val) && (val != [] ==> !IsSpace(val[|val| - 1]))
  }

  predicate Writable(val: string, style: Style) {
    style.Bare? ==> Plain(val)
  }

  datatype Entry = Entry(key: string, val: string, style: Style)

  /** A file of entries, one to a line. */
  function PrintEntries(entries: seq<Entry>): string {
    if entries == [] then ""
    else
      PrintEntries(entries[..|entries| - 1]) + "\n" +
      PrintLine(entries[|entries| - 1].key, entries[|entries| - 1].val, entries[|entries| - 1].style)
  }

  /** The map the entries describe, later ones winning. */
  function AsMap(entries: seq<Entry>): map<string, string> {
    if entries == [] then map[]
    else AsMap(entries[..|entries| - 1])[entries[|entries| - 1].key := entries[|entries| - 1].val]
  }

  lemma {:induction false} TrimRightKeeps(front: string, val: string)
    requires front != [] && !IsSpace(front[|front| - 1])
    ensures TrimRight(front + val) == front + TrimRight(val)
  {
    if val != [] && IsSpace(val[|val| - 1]) {
      assert (front + val)[..|front + val| - 1] == front + val[..|val| - 1];
      TrimRightKeeps(front, val[..|val| - 1]);
    } else if val == [] {
      assert front + val == front;
    }
  }

  /** What a line with a good key parses to, whatever follows the '='. */
  lemma GoodKeyLine(key: string, text: string)
    requires GoodKey(key)
    ensures ParseLine(key + "=" + text) == map[key := Unquote(TrimRight(text))]
  {
    var front := key + "=";
    assert (front + text)[0] == if key == [] then '=' else key[0];
    assert TrimLeft(front + text) == front + text;
    TrimRightKeeps(front, text);
    var line := front + TrimRight(text);
    assert line[0] == (front + text)[0];
    IndexOfFirst(key, TrimRight(text), '=');
    assert line[..|key|] == key && line[|key| + 1..] == TrimRight(text);
  }

  lemma ValueComesBackIff(val: string, style: Style)
    ensures Unquote(TrimRight(PrintValue(val, style))) == val <==> Writable(val, style)
  {
    var text := PrintValue(val, style);
    if style.Bare? {
      TrimRightIsPrefix(val);
      if val != [] && IsSpace(val[|val| - 1]) {
        TrimRightIsPrefix(val[..|val| - 1]);
        assert |TrimRight(val)| < |val|;
      } else {
        assert TrimRight(val) == val;
      }
    } else {
      assert TrimRight(text) == text;
      UnquoteIff(text, val);
    }
  }

  lemma PrintedLineParses(key: string, val: string, style: Style)
    requires GoodKey(key)
    ensures ParseLine(PrintLine(key, val, style)) == map[key := val] <==> Writable(val, style)
  {
    GoodKeyLine(key, PrintValue(val, style));
    ValueComesBackIff(val, style);
    var got := Unquote(TrimRight(PrintValue(val, style)));
    assert map[key := got][key] == got && map[key := val][key] == val;
  }

  lemma SingleLine(s: string)
    requires s != [] && '\n' !in s
    ensures Lines(s) == [s]
  {
    assert IndexOf(s, '\n') == |s|;
  }

  lemma PrintedLineIsOneLine(key: string, val: string, style: Style)
    requires GoodKey(key) && '\n' !in val
    ensures Parsed(PrintLine(key, val, style)) == map[key := val] <==> Writable(val, style)
  {
    SingleLine(PrintLine(key, val, style));
    PrintedLineParses(key, val, style);
    assert ParseLines([PrintLine(key, val, style)]) == ParseLine(PrintLine(key, val, style));
  }

  lemma OverrideOne(m: map<string, string>, key: string, val: string)
    ensures m + map[key := val] == m[key := val]
  {
  }

  /** Printing any entries, each in its own style, and parsing them gives their
      map back, quotes inside values included. */
  lemma {:induction false} RoundTrip(entries: seq<Entry>)
    requires forall n :: 0 <= n < |entries| ==> GoodKey(entries[n].key) && '\n' !in entries[n].val
    requires forall n :: 0 <= n < |entries| ==> Writable(entries[n].val, entries[n].style)
    ensures Parsed(PrintEntries(entries)) == AsMap(entries)
  {
    if entries != [] {
      var front, last := entries[..|entries| - 1], entries[|entries| - 1];
      RoundTrip(front);
      PrintedLineIsOneLine(last.key, last.val, last.style);
      ParsedConcat(PrintEntries(front), PrintLine(last.key, last.val, last.style));
      OverrideOne(AsMap(front), last.key, last.val);
    }
  }

  lemma {:induction false} TrimLeftStarts(s: string)
    ensures TrimLeft(s) != [] ==> !IsSpace(TrimLeft(s)[0])
    ensures forall c :: c in TrimLeft(s) ==> c in s
  {
    if s != [] && IsSpace(s[0]) {
      TrimLeftStarts(s[1..]);
    }
  }

  lemma {:induction false} TrimRightIsPrefix(s: string)
    ensures TrimRight(s) <= s
  {
    if s != [] && IsSpace(s[|s| - 1]) {
      TrimRightIsPrefix(s[..|s| - 1]);
    }
  }

  lemma LineKeyIsGood(raw: string, key: string)
    requires '\n' !in raw && key in ParseLine(raw)
    ensures GoodKey(key)
  {
    var left := TrimLeft(raw);
    TrimLeftStarts(raw);
    TrimRightIsPrefix(left);
    var line := TrimSpace(raw);
    assert forall c :: c in key ==> c in line;
    assert forall c :: c in line ==> c in left;
  }

  lemma {:induction false} LinesHaveNoNewline(text: string)
    ensures forall n :: 0 <= n < |Lines(text)| ==> '\n' !in Lines(text)[n]
    decreases |text|
  {
    if text != [] {
      var i := IndexOf(text, '\n');
      if i < |text| {
        LinesHaveNoNewline(text[i + 1..]);
      } else {
        assert text[..i] == text;
      }
    }
  }

  lemma {:induction false} ParsedKeysAreGood(lines: seq<string>, key: string)
    requires (forall n :: 0 <= n < |lines| ==> '\n' !in lines[n]) && key in ParseLines(lines)
    ensures GoodKey(key)
  {
    var n := |lines| - 1;
    if key in ParseLine(lines[n]) {
      LineKeyIsGood(lines[n], key);
    } else {
      ParsedKeysAreGood(lines[..n], key);
    }
  }

  /** A printed entry parses back exactly when its key is good and, if it is
      written bare, its value can be. No other key comes out of any text. */
  lemma EntryRoundTripsIff(key: string, val: string, style: Style)
    requires '\n' !in val
    ensures Parsed(PrintLine(key, val, style)) == map[key := val] <==> GoodKey(key) && Writable(val, style)
  {
    var text := PrintLine(key, val, style);
    if GoodKey(key) {
      PrintedLineIsOneLine(key, val, style);
    } else {
      assert key in map[key := val];
      if key in Parsed(text) {
        LinesHaveNoNewline(text);
        ParsedKeysAreGood(Lines(text), key);
      }
    }
  }

  /** entries lists the entries of m, in any order. */
  ghost predicate Lists(entries: seq<Entry>, m: map<string, string>) {
    && (forall n :: 0 <= n < |entries| ==> entries[n].key in m && m[entries[n].key] == entries[n].val)
    && (forall key :: key in m ==> exists n :: 0 <= n < |entries| && entries[n].key == key)
  }

  lemma {:induction false} AsMapKeys(entries: seq<Entry>, m: map<string, string>)
    requires forall n :: 0 <= n < |entries| ==> entries[n].key in m && m[entries[n].key] == entries[n].val
    ensures forall key :: key in AsMap(entries) <==> exists n :: 0 <= n < |entries| && entries[n].key == key
    ensures forall key :: key in AsMap(entries) ==> key in m && AsMap(entries)[key] == m[key]
  {
    if entries != [] {
      var front := entries[..|entries| - 1];
      AsMapKeys(front, m);
      assert forall n :: 0 <= n < |front| ==> front[n] == entries[n];
    }
  }

  /** A map with newline-free values comes back from its printing, in whatever
      order and styles it is printed, exactly when all its keys are good. */
  lemma MapRoundTripIff(m: map<string, string>, entries: seq<Entry>)
    requires Lists(entries, m) && forall key :: key in m ==> '\n' !in m[key]
    requires forall n :: 0 <= n < |entries| ==> Writable(entries[n].val, entries[n].style)
    ensures Parsed(PrintEntries(entries)) == m <==> forall key :: key in m ==> GoodKey(key)
  {
    AsMapKeys(entries, m);
    assert AsMap(entries) == m;
    if forall key :: key in m ==> GoodKey(key) {
      RoundTrip(entries);
    } else {
      var key :| key in m && !GoodKey(key);
      LinesHaveNoNewline(PrintEntries(entries));
      if key in Parsed(PrintEntries(entries)) {
        ParsedKeysAreGood(Lines(PrintEntries(entries)), key);
      }
    }
  }
}
