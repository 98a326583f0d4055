/** Byte strings and the handful of Go `strings`/`unicode` helpers the doc-comment parser
    applies to them. Go strings are byte sequences; lengths and slices count bytes. */
module Bytes {

  newtype byte = x: int | 0 <= x < 256

  type Bytes = seq<byte>

  const TAB: byte := 9
  const NL: byte := 10
  const SPACE: byte := 32
  const HASH: byte := 35
  const RPAREN: byte := 41
  const STAR: byte := 42
  const PLUS: byte := 43
  const DASH: byte := 45
  const DOT: byte := 46

  /** The UTF-8 encoding of U+2022 BULLET: three bytes. */
  const BULLET: Bytes := [0xE2, 0x80, 0xA2]

  /** The cut set `" \t"` that `strings.TrimLeft` is given by the list code. */
  const Indent: set<byte> := {SPACE, TAB}

  /** The ASCII part of the white space `strings.TrimSpace` removes. */
  const Space: set<byte> := {TAB, NL, 11, 12, 13, SPACE}

  /** The index of the first byte at or after `i` that is not in `cut`, or `|s|`. */
  function SkipIn(s: Bytes, cut: set<byte>, i: nat): (j: nat)
    requires i <= |s|
    ensures i <= j <= |s|
    ensures forall k :: i <= k < j ==> s[k] in cut
    ensures j < |s| ==> s[j] !in cut
    decreases |s| - i
  {
    if i < |s| && s[i] in cut then SkipIn(s, cut, i + 1) else i
  }

  /** The index just past the last byte before `j` that is not in `cut`, or 0. */
  function KeepTo(s: Bytes, cut: set<byte>, j: nat): (i: nat)
    requires j <= |s|
    ensures i <= j
    ensures forall k :: i <= k < j ==> s[k] in cut
    ensures i > 0 ==> s[i - 1] !in cut
    decreases j
  {
    if j > 0 && s[j - 1] in cut then KeepTo(s, cut, j - 1) else j
  }

  /** `strings.TrimLeft(s, cut)`: drops the longest prefix made only of bytes in `cut`. */
  function TrimLeft(s: Bytes, cut: set<byte>): (r: Bytes)
    ensures |r| <= |s| && r == s[|s| - |r|..]
    ensures forall i :: 0 <= i < |s| - |r| ==> s[i] in cut
    ensures |r| > 0 ==> r[0] !in cut
  {
    s[SkipIn(s, cut, 0)..]
  }

  /** `strings.TrimRight(s, cut)`: drops the longest suffix made only of bytes in `cut`. */
  function TrimRight(s: Bytes, cut: set<byte>): (r: Bytes)
    ensures |r| <= |s| && r == s[..|r|]
    ensures forall i :: |r| <= i < |s| ==> s[i] in cut
    ensures |r| > 0 ==> r[|r| - 1] !in cut
  {
    s[..KeepTo(s, cut, |s|)]
  }

  /** Trimming a prefix made of `cut` bytes off a string whose next byte is not in `cut`
      leaves that string. */
  lemma TrimLeftAfter(a: Bytes, b: Bytes, cut: set<byte>)
    requires forall i :: 0 <= i < |a| ==> a[i] in cut
    requires |b| > 0 ==> b[0] !in cut
    ensures TrimLeft(a + b, cut) == b
  {
    var s := a + b;
    assert s[|a|..] == b;
  }

  /** Trimming a suffix made of `cut` bytes off a string whose last byte is not in `cut`
      leaves that string. */
  lemma TrimRightBefore(a: Bytes, b: Bytes, cut: set<byte>)
    requires forall i :: 0 <= i < |b| ==> b[i] in cut
    requires |a| > 0 ==> a[|a| - 1] !in cut
    ensures TrimRight(a + b, cut) == a
  {
    var s := a + b;
    assert s[..|a|] == a;
  }

  /** Trimming a string whose first byte is not in the cut set keeps it whole. */
  lemma TrimLeftNone(s: Bytes, cut: set<byte>)
    requires |s| >= 1 && s[0] !in cut
    ensures TrimLeft(s, cut) == s
  {
  }

  /** `strings.TrimSpace`. */
  function TrimSpace(s: Bytes): Bytes
  {
    TrimRight(TrimLeft(s, Space), Space)
  }

  /** Every byte of `s` is in `cut`. */
  predicate AllIn(s: Bytes, cut: set<byte>)
    decreases |s|
  {
    |s| == 0 || (s[0] in cut && AllIn(s[1..], cut))
  }

  lemma {:induction false} AllInIff(s: Bytes, cut: set<byte>)
    ensures AllIn(s, cut) <==> forall i :: 0 <= i < |s| ==> s[i] in cut
    decreases |s|
  {
    if |s| > 0 {
      AllInIff(s[1..], cut);
      assert forall i :: 1 <= i < |s| ==> s[i] == s[1..][i - 1];
    }
  }

  /** A blank line: nothing but white space. */
  predicate IsBlank(line: Bytes)
  {
    AllIn(line, Space)
  }

  /** The source's test for a blank line, `strings.TrimSpace(line) == ""`, holds exactly
      for blank lines. */
  lemma TrimSpaceEmptyIff(line: Bytes)
    ensures TrimSpace(line) == [] <==> IsBlank(line)
  {
    AllInIff(line, Space);
  }

  /** The number of leading spaces and tabs: `len(s) - len(strings.TrimLeft(s, " \t"))`. */
  function LeadingIndent(s: Bytes): (n: nat)
    ensures n <= |s|
    ensures forall i :: 0 <= i < n ==> s[i] in Indent
    ensures n < |s| ==> s[n] !in Indent
  {
    |s| - |TrimLeft(s, Indent)|
  }

  /** `unicode.IsLetter(rune(b)) || unicode.IsDigit(rune(b))` for one byte: a byte read as
      a rune is a Latin-1 code point, and the Latin-1 letters and digits are these. */
  predicate IsLetterOrDigit(b: byte)
  {
    || 0x30 <= b <= 0x39
    || 0x41 <= b <= 0x5A
    || 0x61 <= b <= 0x7A
    || b == 0xAA || b == 0xB5 || b == 0xBA
    || 0xC0 <= b <= 0xD6
    || 0xD8 <= b <= 0xF6
    || 0xF8 <= b
  }
}
