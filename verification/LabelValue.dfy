/** Capping label values without cutting a character in two
    (truncateLabelValue in internal/nodeexporter/exporter.go). Strings are byte
    sequences; well-formed UTF-8 is that of section 4 of RFC 3629. */
module LabelValue {

  type Byte = b: int | 0 <= b < 0x100

  const MAX_LABEL_VALUE_BYTES := 1024

  /** The one-character truncation marker, U+2026, in UTF-8. */
  const MARKER: seq<Byte> := [0xE2, 0x80, 0xA6]

  predicate IsTail(b: Byte) {
    0x80 <= b <= 0xBF
  }

  /** A byte that can start a character: any but a continuation byte. */
  predicate RuneStart(b: Byte) {
    !IsTail(b)
  }

  /** The length of the well-formed character at the front, or 0 if there is none. */
  function CharLength(s: seq<Byte>): (n: nat)
    ensures n <= |s|
  {
    if s == [] then 0
    else if s[0] <= 0x7F then 1
    else if |s| >= 2 && 0xC2 <= s[0] <= 0xDF && IsTail(s[1]) then 2
    else if |s| >= 3 && IsTail(s[1]) && IsTail(s[2]) &&
            ((s[0] == 0xE0 && s[1] >= 0xA0) || 0xE1 <= s[0] <= 0xEC ||
             (s[0] == 0xED && s[1] <= 0x9F) || 0xEE <= s[0] <= 0xEF) then 3
    else if |s| >= 4 && IsTail(s[1]) && IsTail(s[2]) && IsTail(s[3]) &&
            ((s[0] == 0xF0 && s[1] >= 0x90) || 0xF1 <= s[0] <= 0xF3 ||
             (s[0] == 0xF4 && s[1] <= 0x8F)) then 4
    else 0
  }

  /** A sequence of well-formed characters. */
  predicate ValidUtf8(s: seq<Byte>)
    decreases |s|
  {
    s == [] || (CharLength(s) > 0 && ValidUtf8(s[CharLength(s)..]))
  }

  /** The Unicode scalar values, which are what UTF-8 encodes. */
  predicate Scalar(cp: int) {
    0 <= cp < 0xD800 || 0xE000 <= cp <= 0x10FFFF
  }

  /** What a byte holds above the bits that mark its place. */
  function Above(b: Byte, mark: int): int {
    b as int - mark
  }

  /** s is the shortest encoding of a character: six bits in every continuation
      byte, the rest in the first byte, whose high bits tell the length. */
  predicate Encodes(s: seq<Byte>, cp: int) {
    && (forall i :: 0 < i < |s| ==> 0x80 <= s[i] < 0xC0)
    && match |s|
       case 1 => cp < 0x80 && s[0] == cp
       case 2 => 0x80 <= cp < 0x800 && 0xC0 <= s[0] < 0xE0 && cp == Above(s[0], 0xC0) * 0x40 + Above(s[1], 0x80)
       case 3 => 0x800 <= cp < 0x1_0000 && 0xE0 <= s[0] < 0xF0 &&
         cp == Above(s[0], 0xE0) * 0x1000 + Above(s[1], 0x80) * 0x40 + Above(s[2], 0x80)
       case 4 => 0x1_0000 <= cp && 0xF0 <= s[0] < 0xF8 &&
         cp == Above(s[0], 0xF0) * 0x4_0000 + Above(s[1], 0x80) * 0x1000 + Above(s[2], 0x80) * 0x40 + Above(s[3], 0x80)
       case _ => false
  }

  /** The character that n well-formed bytes stand for. */
  function Decoded(s: seq<Byte>): int
    requires CharLength(s) == |s| > 0
  {
    match |s|
    case 1 => s[0]
    case 2 => Above(s[0], 0xC0) * 0x40 + Above(s[1], 0x80)
    case 3 => Above(s[0], 0xE0) * 0x1000 + Above(s[1], 0x80) * 0x40 + Above(s[2], 0x80)
    case _ => Above(s[0], 0xF0) * 0x4_0000 + Above(s[1], 0x80) * 0x1000 + Above(s[2], 0x80) * 0x40 + Above(s[3], 0x80)
  }

  lemma CharacterIff(s: seq<Byte>)
    requires s != []
    ensures CharLength(s) == |s| <==> exists cp :: Scalar(cp) && Encodes(s, cp)
  {
    if CharLength(s) == |s| {
      assert Scalar(Decoded(s)) && Encodes(s, Decoded(s));
    }
  }

  /** The front of s is a well-formed character of n bytes exactly when those are the encoding of some character. */
  lemma CharLengthIff(s: seq<Byte>, n: nat)
    requires 0 < n <= |s|
    ensures CharLength(s) == n <==> exists cp :: Scalar(cp) && Encodes(s[..n], cp)
  {
    CharacterIff(s[..n]);
    if CharLength(s) == n || CharLength(s[..n]) == n {
      assert CharLength(s) == CharLength(s[..n]);
    }
  }

  /** The last position at or before end that starts a character, or 0. */
  function Cut(v: seq<Byte>, end: nat): (cut: nat)
    requires end < |v|
    ensures cut <= end
  {
    if end == 0 || RuneStart(v[end]) then end else Cut(v, end - 1)
  }

  function Truncated(v: seq<Byte>): seq<Byte> {
    if |v| <= MAX_LABEL_VALUE_BYTES then v
    else v[..Cut(v, MAX_LABEL_VALUE_BYTES - |MARKER|)] + MARKER
  }

  /** r is v cut at the last of its first 1021 bytes at which a character can
      start, if there is one, with the marker appended. */
  ghost predicate CutAndMarked(v: seq<Byte>, r: seq<Byte>) {
    exists cut :: 0 <= cut <= 1021 <= |v| && CutAt(v, r, cut)
  }

  ghost predicate CutAt(v: seq<Byte>, r: seq<Byte>, cut: nat)
    requires cut <= 1021 <= |v|
  {
    && r == v[..cut] + [0xE2, 0x80, 0xA6]
    && (forall k :: cut < k <= 1021 && k < |v| ==> 0x80 <= v[k] < 0xC0)
    && (cut < |v| && 0x80 <= v[cut] < 0xC0 ==> cut == 0)
  }

  /** What capping does to any bytes at all: a value within the cap is left as
      it is, and a longer one is cut and marked, and so changed. */
  lemma TruncatedIs(v: seq<Byte>)
    ensures |v| <= 1024 ==> Truncated(v) == v
    ensures |v| > 1024 ==> CutAndMarked(v, Truncated(v))
    ensures Truncated(v) != v <==> |v| > 1024
  {
    if |v| > MAX_LABEL_VALUE_BYTES {
      CutProperties(v, MAX_LABEL_VALUE_BYTES - |MARKER|);
      assert CutAt(v, Truncated(v), Cut(v, 1021));
    }
  }

  method TruncateLabelValue(v: seq<Byte>) returns (r: seq<Byte>)
    ensures r == Truncated(v)
    ensures |v| <= 1024 ==> r == v
    ensures |v| > 1024 ==> CutAndMarked(v, r)
  {
    TruncatedIs(v);
    if |v| <= MAX_LABEL_VALUE_BYTES {
      return v;
    }
    var end := MAX_LABEL_VALUE_BYTES - |MARKER|;
    while end > 0 && !RuneStart(v[end])
      invariant 0 <= end <= MAX_LABEL_VALUE_BYTES - |MARKER|
      invariant Cut(v, end) == Cut(v, MAX_LABEL_VALUE_BYTES - |MARKER|)
    {
      end := end - 1;
    }
    return v[..end] + MARKER;
  }

  /** A character's length is decided by its own bytes. */
  lemma CharLengthLocal(s: seq<Byte>, k: nat)
    requires k <= |s| && CharLength(s) > 0
    ensures CharLength(s[..k]) == if k >= CharLength(s) then CharLength(s) else 0
    ensures forall i :: 0 < i < CharLength(s) ==> IsTail(s[i])
    ensures RuneStart(s[0])
  {
  }

  /** In well-formed text, a prefix is well-formed exactly when it ends where a character starts. */
  lemma {:induction false} PrefixValidIff(s: seq<Byte>, k: nat)
    requires ValidUtf8(s) && k <= |s|
    ensures ValidUtf8(s[..k]) <==> k == |s| || RuneStart(s[k])
    decreases |s|
  {
    if s != [] {
      var n := CharLength(s);
      CharLengthLocal(s, k);
      if k >= n {
        assert s[..k][n..] == s[n..][..k - n];
        PrefixValidIff(s[n..], k - n);
      }
    }
  }

  lemma {:induction false} ValidConcat(a: seq<Byte>, b: seq<Byte>)
    requires ValidUtf8(a) && ValidUtf8(b)
    ensures ValidUtf8(a + b)
    decreases |a|
  {
    if a == [] {
      assert a + b == b;
    } else {
      var n := CharLength(a);
      CharLengthLocal(a + b, |a|);
      assert (a + b)[..|a|] == a;
      assert CharLength(a + b) == n;
      assert (a + b)[n..] == a[n..] + b;
      ValidConcat(a[n..], b);
    }
  }

  /** Among any four consecutive bytes of well-formed text one starts a character. */
  lemma {:induction false} StartWithinFour(s: seq<Byte>, k: nat)
    requires ValidUtf8(s) && 3 <= k < |s|
    ensures RuneStart(s[k]) || RuneStart(s[k - 1]) || RuneStart(s[k - 2]) || RuneStart(s[k - 3])
    decreases |s|
  {
    var n := CharLength(s);
    CharLengthLocal(s, n);
    if k - 3 >= n {
      StartWithinFour(s[n..], k - n);
    } else if n <= k {
      assert s[n] == s[n..][0];
      CharLengthLocal(s[n..], 0);
    }
  }

  lemma {:induction false} CutProperties(v: seq<Byte>, end: nat)
    requires end < |v|
    ensures Cut(v, end) == 0 || RuneStart(v[Cut(v, end)])
    ensures forall k :: Cut(v, end) < k <= end ==> !RuneStart(v[k])
  {
    if end != 0 && !RuneStart(v[end]) {
      CutProperties(v, end - 1);
    }
  }

  /** Whatever the input, the result fits the cap, and truncating again changes nothing. */
  lemma TruncatedFits(v: seq<Byte>)
    ensures |Truncated(v)| <= MAX_LABEL_VALUE_BYTES
    ensures Truncated(Truncated(v)) == Truncated(v)
  {
    if |v| > MAX_LABEL_VALUE_BYTES {
      CutProperties(v, MAX_LABEL_VALUE_BYTES - |MARKER|);
    }
  }

  lemma MarkerValid()
    ensures ValidUtf8(MARKER)
  {
    assert CharLength(MARKER) == 3 && MARKER[3..] == [];
  }

  /** Well-formed text stays well-formed. */
  lemma TruncatedValid(v: seq<Byte>)
    requires ValidUtf8(v)
    ensures ValidUtf8(Truncated(v))
  {
    if |v| > MAX_LABEL_VALUE_BYTES {
      var end := MAX_LABEL_VALUE_BYTES - |MARKER|;
      CutProperties(v, end);
      var cut := Cut(v, end);
      PrefixValidIff(v, cut);
      assert cut == 0 ==> v[..cut] == [];
      MarkerValid();
      ValidConcat(v[..cut], MARKER);
    }
  }

  /** An over-long well-formed value keeps its longest well-formed prefix of at
      most 1021 bytes, followed by the marker; no more than three bytes are lost to alignment. */
  lemma TruncatedKeepsLongestPrefix(v: seq<Byte>, k: nat)
    requires ValidUtf8(v) && |v| > MAX_LABEL_VALUE_BYTES
    ensures var kept := |Truncated(v)| - |MARKER|;
            && 1018 <= kept <= 1021
            && Truncated(v) == v[..kept] + MARKER
            && ValidUtf8(v[..kept])
            && (kept < k <= 1021 ==> !ValidUtf8(v[..k]))
  {
    var end := MAX_LABEL_VALUE_BYTES - |MARKER|;
    CutProperties(v, end);
    StartWithinFour(v, end);
    PrefixValidIff(v, Cut(v, end));
    if k <= end {
      PrefixValidIff(v, k);
    }
  }
}
