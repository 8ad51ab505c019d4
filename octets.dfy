/**
 * Byte strings as the Python `bytes` operations of the omshell wrapper see them:
 * `in` (substring test), `strip(chars)` and `splitlines()`, and from them the
 * "last line" test that omshell.py applies to the tool's output.
 */
module Octets {

  newtype byte = b: int | 0 <= b < 256

  type Bytes = seq<byte>

  const LF: byte := 10
  const CR: byte := 13
  const SPACE: byte := 32
  const GT: byte := 62

  /** Every byte is ASCII, as `bytes.decode("ascii")` demands. */
  predicate IsAscii(b: Bytes) {
    forall i :: 0 <= i < |b| ==> b[i] < 128
  }

  /** `bytes.decode("ascii")`: one character per byte, with the same code. */
  function Decode(b: Bytes): (s: string)
    requires IsAscii(b)
    ensures |s| == |b|
    ensures forall i :: 0 <= i < |b| ==> s[i] as int == b[i] as int
  {
    if b == [] then "" else [b[0] as int as char] + Decode(b[1..])
  }

  /** Python's `needle in hay` on bytes. */
  predicate Contains(hay: Bytes, needle: Bytes) {
    exists i | 0 <= i <= |hay| - |needle| :: OccursAt(hay, needle, i)
  }

  /** `needle` occurs in `hay` starting at index `i`. */
  predicate OccursAt(hay: Bytes, needle: Bytes, i: int) {
    0 <= i <= |hay| - |needle| && hay[i..i + |needle|] == needle
  }

  /** `part` is a contiguous piece of `whole`. */
  ghost predicate IsSlice(part: Bytes, whole: Bytes) {
    exists i, j :: 0 <= i <= j <= |whole| && part == whole[i..j]
  }

  lemma SliceOfSlice(a: Bytes, b: Bytes, c: Bytes)
    requires IsSlice(a, b) && IsSlice(b, c)
    ensures IsSlice(a, c)
  {
    var i, j :| 0 <= i <= j <= |b| && a == b[i..j];
    var k, l :| 0 <= k <= l <= |c| && b == c[k..l];
    forall t | 0 <= t < j - i ensures a[t] == c[k + i..k + j][t] {
      assert a[t] == b[i + t] == c[k + i + t];
    }
    assert a == c[k + i..k + j];
  }

  /** What is found in a piece is found in the whole. */
  lemma ContainsInSlice(part: Bytes, whole: Bytes, needle: Bytes)
    requires IsSlice(part, whole) && Contains(part, needle)
    ensures Contains(whole, needle)
  {
    var i, j :| 0 <= i <= j <= |whole| && part == whole[i..j];
    var k :| 0 <= k <= |part| - |needle| && OccursAt(part, needle, k);
    var w := whole[i + k..i + k + |needle|];
    forall t | 0 <= t < |needle| ensures w[t] == needle[t] {
      assert needle[t] == part[k..k + |needle|][t] == part[k + t];
    }
    assert w == needle;
    assert OccursAt(whole, needle, i + k);
  }

  /** How many bytes of `chars` `s` starts with. */
  function LeadingCount(s: Bytes, chars: set<byte>): (n: nat)
    ensures n <= |s|
    ensures forall i :: 0 <= i < n ==> s[i] in chars
    ensures n < |s| ==> s[n] !in chars
  {
    if s != [] && s[0] in chars then 1 + LeadingCount(s[1..], chars) else 0
  }

  /** Where the trailing run of `chars` of `s` starts, not looking before `lo`. */
  function TrailingStart(s: Bytes, chars: set<byte>, lo: nat): (m: nat)
    requires lo <= |s|
    ensures lo <= m <= |s|
    ensures forall i :: m <= i < |s| ==> s[i] in chars
    ensures m > lo ==> s[m - 1] !in chars
  {
    if |s| > lo && s[|s| - 1] in chars then TrailingStart(s[..|s| - 1], chars, lo) else |s|
  }

  /** `r` is `s` with bytes of `chars` cut from before index `a` and after `r`. */
  ghost predicate StrippedAt(s: Bytes, r: Bytes, chars: set<byte>, a: int) {
    && 0 <= a <= |s| - |r| && r == s[a..a + |r|]
    && (forall i :: 0 <= i < a ==> s[i] in chars)
    && (forall i :: a + |r| <= i < |s| ==> s[i] in chars)
  }

  /** `s.strip(chars)`: a piece of `s` that neither starts nor ends with one of `chars`,
      everything cut away on either side being one of `chars`. */
  function Strip(s: Bytes, chars: set<byte>): (r: Bytes)
    ensures exists a :: StrippedAt(s, r, chars, a)
    ensures r != [] ==> r[0] !in chars && r[|r| - 1] !in chars
  {
    var a := LeadingCount(s, chars);
    var m := TrailingStart(s, chars, a);
    assert StrippedAt(s, s[a..m], chars, a);
    s[a..m]
  }

  predicate IsBreak(b: byte) { b == LF || b == CR }

  predicate NoBreak(s: Bytes) { forall i :: 0 <= i < |s| ==> !IsBreak(s[i]) }

  /** Index of the first line break of `s`, or |s| when there is none. */
  function BreakAt(s: Bytes): (k: nat)
    ensures k <= |s|
    ensures forall i :: 0 <= i < k ==> !IsBreak(s[i])
    ensures k < |s| ==> IsBreak(s[k])
  {
    if s == [] || IsBreak(s[0]) then 0 else 1 + BreakAt(s[1..])
  }

  /** Where the line after the break at `k` starts: "\r\n" counts as one break. */
  function AfterBreak(s: Bytes, k: nat): (n: nat)
    requires k < |s| && IsBreak(s[k])
    ensures k < n <= |s|
  {
    if s[k] == CR && k + 1 < |s| && s[k + 1] == LF then k + 2 else k + 1
  }

  /** `s.splitlines()` on bytes: the lines between the breaks "\n", "\r" and "\r\n",
      without a final empty line after a trailing break. */
  function SplitLines(s: Bytes): (r: seq<Bytes>)
    ensures s != [] <==> r != []
    ensures forall l :: l in r ==> NoBreak(l)
    decreases |s|
  {
    if s == [] then []
    else
      var k := BreakAt(s);
      if k == |s| then [s] else [s[..k]] + SplitLines(s[AfterBreak(s, k)..])
  }

  lemma {:induction false} LinesAreSlices(s: Bytes)
    ensures forall l :: l in SplitLines(s) ==> IsSlice(l, s)
    decreases |s|
  {
    if s != [] {
      var k := BreakAt(s);
      if k == |s| {
        assert s == s[0..|s|];
      } else {
        var n := AfterBreak(s, k);
        var rest := s[n..];
        LinesAreSlices(rest);
        assert s[..k] == s[0..k];
        forall l | l in SplitLines(rest) ensures IsSlice(l, s) {
          assert IsSlice(rest, s) by { assert rest == s[n..|s|]; }
          SliceOfSlice(l, rest, s);
        }
      }
    }
  }

  /** The bytes omshell.py strips from both ends of the output: `b'\n >'`. */
  const PROMPT_CHARS: set<byte> := {LF, SPACE, GT}

  /** The last line of `output.strip(b'\n >').splitlines()`, or the empty byte
      string when there is no line; see `Omshell` for how the source treats that case. */
  function LastLine(output: Bytes): Bytes {
    var lines := SplitLines(Strip(output, PROMPT_CHARS));
    if lines == [] then [] else lines[|lines| - 1]
  }

  /** The last line is a piece of the output, so what it contains the output contains. */
  lemma LastLineInOutput(output: Bytes, needle: Bytes)
    requires Contains(LastLine(output), needle)
    ensures Contains(output, needle)
  {
    var stripped := Strip(output, PROMPT_CHARS);
    var lines := SplitLines(stripped);
    LinesAreSlices(stripped);
    if lines != [] {
      assert lines[|lines| - 1] in lines;
    }
    assert IsSlice(stripped, output) by {
      var a :| StrippedAt(output, stripped, PROMPT_CHARS, a);
      assert stripped == output[a..a + |stripped|];
    }
    SliceOfSlice(LastLine(output), stripped, output);
    ContainsInSlice(LastLine(output), output, needle);
  }

  /** Reference definition of the last line: the bytes after the last break. */
  function AfterLastBreak(s: Bytes): (r: Bytes)
    ensures NoBreak(r)
  {
    if s == [] || IsBreak(s[|s| - 1]) then [] else AfterLastBreak(s[..|s| - 1]) + [s[|s| - 1]]
  }

  /** `s` without one trailing "\r\n", "\n" or "\r". */
  function DropFinalBreak(s: Bytes): Bytes {
    if |s| >= 2 && s[|s| - 2] == CR && s[|s| - 1] == LF then s[..|s| - 2]
    else if s != [] && IsBreak(s[|s| - 1]) then s[..|s| - 1]
    else s
  }

  lemma {:induction false} AfterLastBreakOfLine(s: Bytes)
    requires NoBreak(s)
    ensures AfterLastBreak(s) == s
  {
    if s != [] {
      AfterLastBreakOfLine(s[..|s| - 1]);
    }
  }

  lemma {:induction false} AfterLastBreakSkips(p: Bytes, x: Bytes)
    requires p != [] && IsBreak(p[|p| - 1])
    ensures AfterLastBreak(p + x) == AfterLastBreak(x)
    decreases |x|
  {
    if x != [] {
      assert (p + x)[..|p + x| - 1] == p + x[..|x| - 1];
      AfterLastBreakSkips(p, x[..|x| - 1]);
    } else {
      assert p + x == p;
    }
  }

  lemma DropFinalBreakAppend(p: Bytes, x: Bytes)
    requires x != []
    requires !(x == [LF] && p != [] && p[|p| - 1] == CR)
    ensures DropFinalBreak(p + x) == p + DropFinalBreak(x)
  {
    var s := p + x;
    if |x| >= 2 {
      assert s[|s| - 2] == x[|x| - 2] && s[|s| - 1] == x[|x| - 1];
      assert s[..|s| - 2] == p + x[..|x| - 2];
      assert s[..|s| - 1] == p + x[..|x| - 1];
    } else {
      assert s[|s| - 1] == x[0];
      assert s[..|s| - 1] == p;
      assert x[..0] == [];
    }
  }

  /** A line break that ends `s` is the one `DropFinalBreak` removes. */
  lemma DropOnlyBreak(s: Bytes, k: nat)
    requires k == BreakAt(s) && k < |s| && AfterBreak(s, k) == |s|
    ensures DropFinalBreak(s) == s[..k]
  {
    if k > 0 {
      assert !IsBreak(s[k - 1]);
    }
  }

  /** What precedes the line after the first break ends with that break, and is not a
      lone "\r" that a following "\n" would join. */
  lemma BreakPrefix(s: Bytes, k: nat)
    requires k == BreakAt(s) && k < |s| && AfterBreak(s, k) < |s|
    ensures var n := AfterBreak(s, k);
            var p, rest := s[..n], s[n..];
            && s == p + rest && rest != [] && IsBreak(p[|p| - 1])
            && !(rest == [LF] && p[|p| - 1] == CR)
  {
    var n := AfterBreak(s, k);
    assert s == s[..n] + s[n..];
    assert s[n..][0] == s[n];
  }

  /** `splitlines()` ends with the bytes after the last break, once a trailing break is
      dropped: the source's "last line" is the text after the final line break. */
  lemma {:induction false} LastOfSplitLines(s: Bytes)
    requires s != []
    ensures var lines := SplitLines(s); lines[|lines| - 1] == AfterLastBreak(DropFinalBreak(s))
    decreases |s|
  {
    var k := BreakAt(s);
    if k == |s| {
      assert SplitLines(s) == [s];
      assert !IsBreak(s[|s| - 1]);
      AfterLastBreakOfLine(s);
    } else {
      var n := AfterBreak(s, k);
      var rest := s[n..];
      assert SplitLines(s) == [s[..k]] + SplitLines(rest);
      if rest == [] {
        DropOnlyBreak(s, k);
        AfterLastBreakOfLine(s[..k]);
      } else {
        var p, tail := s[..n], SplitLines(rest);
        LastOfSplitLines(rest);
        assert tail != [];
        assert SplitLines(s)[|SplitLines(s)| - 1] == tail[|tail| - 1];
        BreakPrefix(s, k);
        DropFinalBreakAppend(p, rest);
        assert DropFinalBreak(s) == p + DropFinalBreak(rest);
        AfterLastBreakSkips(p, DropFinalBreak(rest));
      }
    }
  }

  /** The classifier's last line, stated without `splitlines()`: the text after the final
      line break of the stripped output. */
  lemma LastLineIsAfterLastBreak(output: Bytes)
    ensures LastLine(output) == AfterLastBreak(DropFinalBreak(Strip(output, PROMPT_CHARS)))
  {
    var stripped := Strip(output, PROMPT_CHARS);
    if stripped != [] {
      LastOfSplitLines(stripped);
    }
  }
}
