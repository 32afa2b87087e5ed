/** The functions of Go's bytes package that the armor decoder calls. */
module Bytes {
  import opened Wrappers
  import opened Crc24

  type Text = seq<byte>

  const NL: byte := 10
  const CR: byte := 13
  const COLON: byte := 58

  predicate HasPrefix(s: Text, p: Text) {
    p <= s
  }

  predicate HasSuffix(s: Text, p: Text) {
    |p| <= |s| && s[|s| - |p|..] == p
  }

  /** pat occurs in s at position i. */
  predicate At(s: Text, pat: Text, i: nat) {
    i + |pat| <= |s| && s[i..i + |pat|] == pat
  }

  /** The first occurrence of pat. */
  function Index(s: Text, pat: Text): (r: Option<nat>)
    ensures r.Some? ==> At(s, pat, r.value) && forall j | 0 <= j < r.value :: !At(s, pat, j)
    ensures r.None? ==> forall j: nat :: !At(s, pat, j)
  {
    IndexFrom(s, pat, 0)
  }

  function IndexFrom(s: Text, pat: Text, i: nat): (r: Option<nat>)
    requires i <= |s|
    ensures r.Some? ==> i <= r.value && At(s, pat, r.value)
                        && forall j | i <= j < r.value :: !At(s, pat, j)
    ensures r.None? ==> forall j | i <= j :: !At(s, pat, j)
    decreases |s| - i
  {
    if At(s, pat, i) then Some(i)
    else if i == |s| then None
    else IndexFrom(s, pat, i + 1)
  }

  /** The first occurrence of c, or the length of s. */
  function Find(s: Text, c: byte): (i: nat)
    ensures i <= |s| && (i < |s| ==> s[i] == c) && forall j | 0 <= j < i :: s[j] != c
  {
    if s == [] || s[0] == c then 0 else 1 + Find(s[1..], c)
  }

  predicate IsBlank(c: byte) {
    c == 32 || c == 9
  }

  /** TrimRight(s, " \t") */
  function TrimRight(s: Text): (t: Text)
    ensures t <= s && (t != [] ==> !IsBlank(t[|t| - 1]))
    ensures forall k | |t| <= k < |s| :: IsBlank(s[k])
  {
    if s != [] && IsBlank(s[|s| - 1]) then TrimRight(s[..|s| - 1]) else s
  }

  /** The length of the UTF-8 encoded white space (unicode.IsSpace) at the start of s, or 0. */
  function SpaceAtStart(s: Text): (n: nat)
    ensures n <= |s|
  {
    if |s| >= 1 && (9 <= s[0] <= 13 || s[0] == 32) then 1
    else if |s| >= 2 && s[0] == 0xC2 && (s[1] == 0x85 || s[1] == 0xA0) then 2
    else if |s| >= 3 && IsWideSpace(s[0], s[1], s[2]) then 3
    else 0
  }

  /** The same for the end of s. */
  function SpaceAtEnd(s: Text): (n: nat)
    ensures n <= |s|
  {
    var k := |s|;
    if k >= 1 && (9 <= s[k - 1] <= 13 || s[k - 1] == 32) then 1
    else if k >= 2 && s[k - 2] == 0xC2 && (s[k - 1] == 0x85 || s[k - 1] == 0xA0) then 2
    else if k >= 3 && IsWideSpace(s[k - 3], s[k - 2], s[k - 1]) then 3
    else 0
  }

  /** U+1680, U+2000 to U+200A, U+2028, U+2029, U+202F, U+205F and U+3000. */
  predicate IsWideSpace(a: byte, b: byte, c: byte) {
    || (a == 0xE1 && b == 0x9A && c == 0x80)
    || (a == 0xE2 && b == 0x80 && (0x80 <= c <= 0x8A || c == 0xA8 || c == 0xA9 || c == 0xAF))
    || (a == 0xE2 && b == 0x81 && c == 0x9F)
    || (a == 0xE3 && b == 0x80 && c == 0x80)
  }

  function TrimSpaceLeft(s: Text): Text
    decreases |s|
  {
    var n := SpaceAtStart(s);
    if n == 0 then s else TrimSpaceLeft(s[n..])
  }

  function TrimSpaceRight(s: Text): Text
    decreases |s|
  {
    var n := SpaceAtEnd(s);
    if n == 0 then s else TrimSpaceRight(s[..|s| - n])
  }

  /** TrimSpace(s) */
  function TrimSpace(s: Text): Text {
    TrimSpaceRight(TrimSpaceLeft(s))
  }

  /** The bytes of an ASCII text. */
  function Ascii(s: string): (t: Text)
    requires forall i | 0 <= i < |s| :: s[i] < 128 as char
    ensures |t| == |s| && forall i | 0 <= i < |s| :: t[i] == s[i] as int
  {
    seq(|s|, i requires 0 <= i < |s| => s[i] as int)
  }
}
