/** The Python string operations the modelled code relies on:
    `str.isspace`, `str.strip`, ASCII case mapping, prefix/suffix/substring
    tests, `str.split` on one character and `str.join`. */
module Text {

  /** `str.isspace()` for one character: the ASCII white space, the
      information separators 0x1c-0x1f and the Unicode space characters. */
  predicate IsSpace(c: char) {
    || c == ' ' || c == '\t' || c == '\n' || c == '\r'
    || c == '\U{b}' || c == '\U{c}'
    || ('\U{1c}' <= c <= '\U{1f}')
    || c == '\U{85}' || c == '\U{a0}' || c == '\U{1680}'
    || ('\U{2000}' <= c <= '\U{200a}')
    || c == '\U{2028}' || c == '\U{2029}' || c == '\U{202f}' || c == '\U{205f}' || c == '\U{3000}'
  }

  predicate AllSpace(s: string) {
    forall i :: 0 <= i < |s| ==> IsSpace(s[i])
  }

  predicate IsDigit(c: char) {
    '0' <= c <= '9'
  }

  /** The first code point of each run of ten decimal digits beyond ASCII
      (general category Nd of Unicode 15.0, which Python 3.12 uses), in
      three stretches: before the general punctuation block U+2000, the
      rest of the Basic Multilingual Plane, and the supplementary planes.
      Each run holds the digits zero to nine in order. */
  const DigitRunsBefore2000: seq<int> := [
      0x660, 0x6f0, 0x7c0, 0x966, 0x9e6, 0xa66, 0xae6, 0xb66, 0xbe6, 0xc66, 0xce6, 0xd66, 0xde6, 0xe50,
      0xed0, 0xf20, 0x1040, 0x1090, 0x17e0, 0x1810, 0x1946, 0x19d0, 0x1a80, 0x1a90, 0x1b50, 0x1bb0,
      0x1c40, 0x1c50
    ]

  const DigitRunsAfter3000: seq<int> := [
      0xa620, 0xa8d0, 0xa900, 0xa9d0, 0xa9f0, 0xaa50, 0xabf0, 0xff10
    ]

  const DigitRunsSupplementary: seq<int> := [
      0x104a0, 0x10d30, 0x11066, 0x110f0, 0x11136, 0x111d0, 0x112f0, 0x11450, 0x114d0, 0x11650,
      0x116c0, 0x11730, 0x118e0, 0x11950, 0x11c50, 0x11d50, 0x11da0, 0x11f50, 0x16a60, 0x16ac0,
      0x16b50, 0x1d7ce, 0x1d7d8, 0x1d7e2, 0x1d7ec, 0x1d7f6, 0x1e140, 0x1e2f0, 0x1e4f0, 0x1e950, 0x1fbf0
    ]

  const DigitRunStarts: seq<int> := DigitRunsBefore2000 + DigitRunsAfter3000 + DigitRunsSupplementary

  /** `c` lies in one of the runs from the `k`-th on. */
  predicate InDigitRuns(c: int, k: nat)
    decreases |DigitRunStarts| - k
  {
    k < |DigitRunStarts| && (DigitRunStarts[k] <= c < DigitRunStarts[k] + 10 || InDigitRuns(c, k + 1))
  }

  /** A Unicode decimal digit: what `\d` matches in a `str` pattern and
      what `float()` and `int()` read as a digit. */
  predicate IsDecimalDigit(c: char) {
    IsDigit(c) || InDigitRuns(c as int, 0)
  }

  /** A run that avoids the white space above ASCII: U+1680, U+2000 to
      U+205F and U+3000. */
  predicate RunAvoidsSpace(z: int) {
    (0x660 <= z && z + 9 < 0x1680) || (0x1680 < z && z + 9 < 0x2000) || 0x3000 < z
  }

  lemma RunsBefore2000AvoidSpace()
    ensures forall z :: z in DigitRunsBefore2000 ==> RunAvoidsSpace(z)
  {
  }

  lemma RunsAfter3000AvoidSpace()
    ensures forall z :: z in DigitRunsAfter3000 ==> 0x3000 < z
  {
  }

  lemma RunsSupplementaryAvoidSpace()
    ensures forall z :: z in DigitRunsSupplementary ==> 0x3000 < z
  {
  }

  lemma RunsAvoidSpace()
    ensures forall z :: z in DigitRunStarts ==> RunAvoidsSpace(z)
  {
    RunsBefore2000AvoidSpace();
    RunsAfter3000AvoidSpace();
    RunsSupplementaryAvoidSpace();
  }

  lemma {:induction false} InDigitRunsFinds(c: int, k: nat)
    requires InDigitRuns(c, k)
    ensures exists j :: k <= j < |DigitRunStarts| && DigitRunStarts[j] <= c < DigitRunStarts[j] + 10
    decreases |DigitRunStarts| - k
  {
    if !(DigitRunStarts[k] <= c < DigitRunStarts[k] + 10) {
      InDigitRunsFinds(c, k + 1);
    }
  }

  /** No decimal digit is white space, a comma, a point or a sign. */
  lemma DecimalDigitIsNotPunctuation(c: char)
    requires IsDecimalDigit(c)
    ensures !IsSpace(c) && c != ',' && c != '.' && c != '+' && c != '-'
  {
    if !IsDigit(c) {
      InDigitRunsFinds(c as int, 0);
      var j :| 0 <= j < |DigitRunStarts| && DigitRunStarts[j] <= c as int < DigitRunStarts[j] + 10;
      RunsAvoidSpace();
      assert DigitRunStarts[j] in DigitRunStarts;
    }
  }

  predicate IsHexDigit(c: char) {
    IsDigit(c) || 'a' <= c <= 'f' || 'A' <= c <= 'F'
  }

  /** Number of leading white-space characters. */
  function LeadingSpace(s: string): (n: nat)
    ensures n <= |s|
    ensures AllSpace(s[..n])
    ensures n < |s| ==> !IsSpace(s[n])
  {
    if s == [] || !IsSpace(s[0]) then 0
    else
      var n := 1 + LeadingSpace(s[1..]);
      assert s[..n] == [s[0]] + s[1..][..n - 1];
      n
  }

  /** `LeadingSpace` is the only offset with white space before it and
      none at it. */
  lemma {:induction false} LeadingSpaceUnique(s: string, n: nat)
    requires n <= |s| && AllSpace(s[..n])
    requires n < |s| ==> !IsSpace(s[n])
    ensures n == LeadingSpace(s)
    decreases |s|
  {
    assert n > 0 ==> s[..n][0] == s[0] && IsSpace(s[0]);
    if s != [] && IsSpace(s[0]) {
      assert s[1..][..n - 1] == s[..n][1..];
      LeadingSpaceUnique(s[1..], n - 1);
    }
  }

  /** Length of `s` without its trailing white space. */
  function TrailingStart(s: string): (n: nat)
    ensures n <= |s|
    ensures AllSpace(s[n..])
    ensures n > 0 ==> !IsSpace(s[n - 1])
  {
    if s == [] || !IsSpace(s[|s| - 1]) then |s|
    else
      var n := TrailingStart(s[..|s| - 1]);
      assert s[n..] == s[..|s| - 1][n..] + [s[|s| - 1]];
      n
  }

  function LStrip(s: string): (r: string)
    ensures r == s[LeadingSpace(s)..]
  {
    s[LeadingSpace(s)..]
  }

  /** `str.strip()`: `s` without leading and trailing white space. */
  function Strip(s: string): (r: string)
    ensures LeadingSpace(s) + |r| <= |s| && r == s[LeadingSpace(s)..LeadingSpace(s) + |r|]
    ensures AllSpace(s[LeadingSpace(s) + |r|..])
    ensures r != [] ==> !IsSpace(r[0]) && !IsSpace(r[|r| - 1])
    ensures r == [] <==> AllSpace(s)
  {
    var i := LeadingSpace(s);
    var t := s[i..];
    var j := TrailingStart(t);
    assert t[..j] == s[i..i + j];
    assert s[i + j..] == t[j..];
    t[..j]
  }

  /** Text with no white space at either end is its own strip; in
      particular `Strip` is idempotent. */
  lemma StripNoop(s: string)
    requires s != [] ==> !IsSpace(s[0]) && !IsSpace(s[|s| - 1])
    ensures Strip(s) == s
  {
    assert s[0..] == s;
    var j := TrailingStart(s);
    assert j > 0 ==> s[..j][j - 1] == s[j - 1];
  }

  lemma StripIdempotent(s: string)
    ensures Strip(Strip(s)) == Strip(s)
  {
    StripNoop(Strip(s));
  }

  /** `TrailingStart` is the only offset with white space after it and
      none just before it. */
  lemma {:induction false} TrailingStartUnique(s: string, n: nat)
    requires n <= |s| && AllSpace(s[n..])
    requires n > 0 ==> !IsSpace(s[n - 1])
    ensures n == TrailingStart(s)
    decreases |s|
  {
    assert n < |s| ==> s[n..][|s| - n - 1] == s[|s| - 1] && IsSpace(s[|s| - 1]);
    if s != [] && IsSpace(s[|s| - 1]) {
      var u := s[..|s| - 1];
      assert u[n..] == s[n..][..|s| - 1 - n];
      assert n > 0 ==> u[n - 1] == s[n - 1];
      TrailingStartUnique(u, n);
    }
  }

  /** Stripping text that is white space, then a core with no white space
      at either end, then white space again leaves the core. */
  lemma StripSurrounded(lead: string, core: string, trail: string)
    requires AllSpace(lead) && AllSpace(trail)
    requires core != [] && !IsSpace(core[0]) && !IsSpace(core[|core| - 1])
    ensures Strip(lead + core + trail) == core
  {
    var s := lead + core + trail;
    var n := |lead|;
    assert s[..n] == lead;
    assert s[n] == core[0];
    LeadingSpaceUnique(s, n);
    var t := s[n..];
    assert t == core + trail;
    assert t[|core|..] == trail;
    assert t[|core| - 1] == core[|core| - 1];
    TrailingStartUnique(t, |core|);
    assert t[..|core|] == core;
  }

  /** Every text is its strip with white space around it. */
  lemma StripSplits(s: string) returns (lead: string, trail: string)
    ensures s == lead + Strip(s) + trail && AllSpace(lead) && AllSpace(trail)
  {
    var core := Strip(s);
    var i := LeadingSpace(s);
    var j := i + |core|;
    lead := s[..i];
    trail := s[j..];
    assert s[..j] == lead + core;
    assert s == s[..j] + trail;
  }

  /** ASCII case mapping (the model's stand-in for `str.lower`/`str.upper`). */
  function LowerChar(c: char): char {
    if 'A' <= c <= 'Z' then (c as int + 32) as char else c
  }

  function UpperChar(c: char): char {
    if 'a' <= c <= 'z' then (c as int - 32) as char else c
  }

  function Lower(s: string): (r: string)
    ensures |r| == |s|
    ensures forall i :: 0 <= i < |s| ==> r[i] == LowerChar(s[i])
  {
    if s == [] then [] else [LowerChar(s[0])] + Lower(s[1..])
  }

  function Upper(s: string): (r: string)
    ensures |r| == |s|
    ensures forall i :: 0 <= i < |s| ==> r[i] == UpperChar(s[i])
  {
    if s == [] then [] else [UpperChar(s[0])] + Upper(s[1..])
  }

  /** Text that upper-casing leaves alone character by character is left
      alone as a whole. */
  lemma UpperFixed(s: string)
    requires forall i :: 0 <= i < |s| ==> UpperChar(s[i]) == s[i]
    ensures Upper(s) == s
  {
  }

  predicate StartsWith(s: string, p: string) {
    |p| <= |s| && s[..|p|] == p
  }

  predicate EndsWith(s: string, p: string) {
    |p| <= |s| && s[|s| - |p|..] == p
  }

  /** `p` occurs in `s` starting at offset `k`. */
  predicate OccursAt(s: string, p: string, k: int) {
    0 <= k <= |s| - |p| && s[k..k + |p|] == p
  }

  /** `p in s` for strings: `p` occurs in `s` at some offset. */
  predicate Contains(s: string, p: string) {
    exists k | 0 <= k <= |s| - |p| :: OccursAt(s, p, k)
  }

  /** `sep.join(parts)`. */
  function Join(sep: string, parts: seq<string>): string {
    if parts == [] then []
    else if |parts| == 1 then parts[0]
    else parts[0] + sep + Join(sep, parts[1..])
  }

  lemma {:induction false} JoinSnoc(sep: string, parts: seq<string>, x: string)
    ensures Join(sep, parts + [x]) == if parts == [] then x else Join(sep, parts) + sep + x
    decreases |parts|
  {
    if |parts| == 1 {
      assert (parts + [x])[1..] == [x];
    } else if |parts| > 1 {
      assert (parts + [x])[1..] == parts[1..] + [x];
      JoinSnoc(sep, parts[1..], x);
    } else {
      assert parts + [x] == [x];
    }
  }

  /** `s.split(sep)` for a one-character separator: the pieces between
      consecutive separators, so there is always one more piece than there
      are separators. */
  function Split(s: string, sep: char): (r: seq<string>)
    ensures |r| >= 1
    ensures forall k :: 0 <= k < |r| ==> sep !in r[k]
    ensures Join([sep], r) == s
  {
    if sep !in s then [s]
    else
      var i := FirstIndex(s, sep);
      var rest := Split(s[i + 1..], sep);
      assert s == s[..i] + [sep] + s[i + 1..];
      [s[..i]] + rest
  }

  function FirstIndex(s: string, c: char): (i: nat)
    requires c in s
    ensures i < |s| && s[i] == c && c !in s[..i]
  {
    if s[0] == c then 0
    else
      assert c in s[1..] by { var k :| 0 <= k < |s| && s[k] == c; assert s[1..][k - 1] == c; }
      var i := 1 + FirstIndex(s[1..], c);
      assert s[..i] == [s[0]] + s[1..][..i - 1];
      i
  }

  lemma FirstIndexUnique(s: string, c: char, i: nat)
    requires i < |s| && s[i] == c && c !in s[..i]
    ensures FirstIndex(s, c) == i
  {
    var f := FirstIndex(s, c);
    assert forall k :: 0 <= k < i ==> s[..i][k] == s[k];
    assert forall k :: 0 <= k < f ==> s[..f][k] == s[k];
  }

  /** Splitting undoes joining when no piece holds the separator. */
  lemma {:induction false} SplitJoin(parts: seq<string>, sep: char)
    requires |parts| >= 1
    requires forall k :: 0 <= k < |parts| ==> sep !in parts[k]
    ensures Split(Join([sep], parts), sep) == parts
    decreases |parts|
  {
    if |parts| > 1 {
      var s := Join([sep], parts);
      var p0 := parts[0];
      var rest := Join([sep], parts[1..]);
      assert s == p0 + [sep] + rest;
      assert s[|p0|] == sep;
      assert s[..|p0|] == p0;
      FirstIndexUnique(s, sep, |p0|);
      assert s[|p0| + 1..] == rest;
      SplitJoin(parts[1..], sep);
      assert [p0] + parts[1..] == parts;
    }
  }
}
