/** The few operations on Python `str` values that the scripts rely on. */
module Strings {
  import opened Common

  /** Python's `str.isspace()`: the characters that `strip()` and the regular
      expression class `\s` treat as whitespace. */
  predicate IsSpace(c: char) {
    ('\t' <= c <= '\r') || ('\U{1c}' <= c <= '\U{1f}') || c == ' ' || c == '\U{85}' || c == '\U{a0}'
    || c == '\U{1680}' || ('\U{2000}' <= c <= '\U{200a}') || c == '\U{2028}' || c == '\U{2029}'
    || c == '\U{202f}' || c == '\U{205f}' || c == '\U{3000}'
  }

  predicate All(s: string, p: char -> bool) {
    forall i :: 0 <= i < |s| ==> p(s[i])
  }

  /** `s.lstrip(chars)`, with the removed characters given as a predicate. */
  function LStrip(s: string, p: char -> bool): (r: string)
    ensures |r| <= |s| && r == s[|s| - |r|..]
    ensures All(s[..|s| - |r|], p)
    ensures r == [] || !p(r[0])
    decreases |s|
  {
    if s != [] && p(s[0]) then
      var r := LStrip(s[1..], p);
      assert s[1..][|s| - 1 - |r|..] == s[|s| - |r|..];
      assert forall i :: 1 <= i < |s| - |r| ==> s[i] == s[1..][..|s| - 1 - |r|][i - 1];
      r
    else s
  }

  /** `s.rstrip(chars)`. */
  function RStrip(s: string, p: char -> bool): (r: string)
    ensures |r| <= |s| && r == s[..|r|]
    ensures All(s[|r|..], p)
    ensures r == [] || !p(r[|r| - 1])
    decreases |s|
  {
    if s != [] && p(s[|s| - 1]) then
      var r := RStrip(s[..|s| - 1], p);
      assert forall i :: |r| <= i < |s| - 1 ==> s[i] == s[..|s| - 1][|r|..][i - |r|];
      r
    else s
  }

  /** `s.strip(chars)`: no removable character is left at either end
      (`StripIsSlice` says what is cut off). */
  function Strip(s: string, p: char -> bool): (r: string)
    ensures r == [] || (!p(r[0]) && !p(r[|r| - 1]))
  {
    var l := LStrip(s, p);
    var r := RStrip(l, p);
    StripEnds(l, r, p);
    r
  }

  /** `r` is the part of `s` starting at `a`, and everything around it satisfies `p`. */
  predicate TrimmedAt(s: string, r: string, a: int, p: char -> bool) {
    0 <= a <= |s| - |r| && r == s[a..a + |r|] && All(s[..a], p) && All(s[a + |r|..], p)
  }

  /** What `strip` keeps is a contiguous part of `s`, and all it cuts off on
      either side is removable. */
  lemma StripIsSlice(s: string, p: char -> bool)
    ensures TrimmedAt(s, Strip(s, p), |s| - |LStrip(s, p)|, p)
  {
    var l := LStrip(s, p);
    var r := RStrip(l, p);
    StripIsRStripOfLStrip(s, p);
    StripSlice(s, l, r, p);
  }

  lemma StripIsRStripOfLStrip(s: string, p: char -> bool)
    ensures Strip(s, p) == RStrip(LStrip(s, p), p)
  {
  }

  /** `rstrip` after `lstrip` leaves no removable character at either end. */
  lemma StripEnds(l: string, r: string, p: char -> bool)
    requires (l == [] || !p(l[0])) && |r| <= |l| && r == l[..|r|] && (r == [] || !p(r[|r| - 1]))
    ensures r == [] || (!p(r[0]) && !p(r[|r| - 1]))
  {
    if r != [] {
      assert r[0] == l[0];
    }
  }

  /** What `lstrip` and then `rstrip` keep is a contiguous part of `s`, with
      only removable characters on either side. */
  lemma StripSlice(s: string, l: string, r: string, p: char -> bool)
    requires |l| <= |s| && l == s[|s| - |l|..] && All(s[..|s| - |l|], p)
    requires |r| <= |l| && r == l[..|r|] && All(l[|r|..], p)
    ensures TrimmedAt(s, r, |s| - |l|, p)
  {
    var a := |s| - |l|;
    assert s[a + |r|..] == l[|r|..];
  }

  /** Stripping what is already stripped changes nothing. */
  lemma StripIdempotent(s: string, p: char -> bool)
    ensures Strip(Strip(s, p), p) == Strip(s, p)
  {
  }

  /** A character that `p` does not remove survives `lstrip`. */
  lemma {:induction false} LStripKeeps(s: string, p: char -> bool, c: char)
    requires !p(c) && c in s
    ensures c in LStrip(s, p)
    decreases |s|
  {
    if s != [] && p(s[0]) {
      assert s == [s[0]] + s[1..];
      LStripKeeps(s[1..], p, c);
    }
  }

  /** A character that `p` does not remove survives `rstrip`. */
  lemma {:induction false} RStripKeeps(s: string, p: char -> bool, c: char)
    requires !p(c) && c in s
    ensures c in RStrip(s, p)
    decreases |s|
  {
    if s != [] && p(s[|s| - 1]) {
      assert s == s[..|s| - 1] + [s[|s| - 1]];
      RStripKeeps(s[..|s| - 1], p, c);
    }
  }

  /** A character that `p` does not remove survives stripping. */
  lemma StripKeeps(s: string, p: char -> bool, c: char)
    requires !p(c) && c in s
    ensures c in Strip(s, p)
  {
    LStripKeeps(s, p, c);
    RStripKeeps(LStrip(s, p), p, c);
  }

  /** Stripping adds no character. */
  lemma StripDrops(s: string, p: char -> bool, c: char)
    requires c !in s
    ensures c !in Strip(s, p)
  {
    var r := Strip(s, p);
    StripIsSlice(s, p);
    var a := |s| - |LStrip(s, p)|;
    assert forall k :: 0 <= k < |r| ==> r[k] == s[a + k];
  }

  /** A string with no removable character at either end is left as it is. */
  lemma StripUnchanged(s: string, p: char -> bool)
    requires s == [] || (!p(s[0]) && !p(s[|s| - 1]))
    ensures Strip(s, p) == s
  {
    assert LStrip(s, p) == s;
    assert RStrip(s, p) == s;
  }

  /** Characters satisfying `p` appended at the end are removed by `rstrip`. */
  lemma {:induction false} RStripAppend(s: string, u: string, p: char -> bool)
    requires All(u, p)
    ensures RStrip(s + u, p) == RStrip(s, p)
    decreases |u|
  {
    if u != [] {
      assert (s + u)[..|s + u| - 1] == s + u[..|u| - 1];
      RStripAppend(s, u[..|u| - 1], p);
    } else {
      assert s + u == s;
    }
  }

  /** The index of the first occurrence of `c` in `s` (Python's `str.find`,
      with `None` for -1). */
  function IndexOf(s: string, c: char): (r: Option<nat>)
    ensures r.None? <==> c !in s
    ensures r.Some? ==> r.value < |s| && s[r.value] == c && c !in s[..r.value]
    decreases |s|
  {
    if s == [] then None
    else if s[0] == c then Some(0)
    else match IndexOf(s[1..], c)
      case None => None
      case Some(i) =>
        assert s[..i + 1] == [s[0]] + s[1..][..i];
        Some(i + 1)
  }

  /** An occurrence with none before it is the one `IndexOf` finds. */
  lemma {:induction false} IndexOfFirst(s: string, c: char, i: nat)
    requires i < |s| && s[i] == c && c !in s[..i]
    ensures IndexOf(s, c) == Some(i)
    decreases i
  {
    if i > 0 {
      assert s[0] == s[..i][0];
      assert s[1..][..i - 1] == s[1..i];
      assert forall x :: x in s[1..i] ==> x in s[..i];
      IndexOfFirst(s[1..], c, i - 1);
    }
  }

  /** `s.replace(a, b)` for single characters: every `a` becomes `b`, every
      other character stays where it was. */
  function ReplaceChar(s: string, a: char, b: char): (r: string)
    ensures |r| == |s|
    ensures forall i :: 0 <= i < |s| && s[i] == a ==> r[i] == b
    ensures forall i :: 0 <= i < |s| && s[i] != a ==> r[i] == s[i]
    ensures a != b ==> a !in r
  {
    seq(|s|, i requires 0 <= i < |s| => if s[i] == a then b else s[i])
  }

  /** Total length of the parts. */
  function TotalLength(parts: seq<string>): nat {
    if |parts| == 0 then 0 else |parts[0]| + TotalLength(parts[1..])
  }

  /** `sep.join(parts)`: the parts in order, one `sep` between neighbours and
      none at either end. */
  function Join(parts: seq<string>, sep: string): (r: string)
    ensures |parts| == 0 ==> r == ""
    ensures |parts| > 0 ==> |r| == TotalLength(parts) + (|parts| - 1) * |sep|
    ensures |parts| > 0 ==> r[..|parts[0]|] == parts[0]
    decreases |parts|
  {
    if |parts| == 0 then ""
    else if |parts| == 1 then parts[0]
    else parts[0] + sep + Join(parts[1..], sep)
  }

  /** Joining one more part appends a separator and that part: read from the
      back, the result is again the parts in order with `sep` between them. */
  lemma {:induction false} JoinSnoc(parts: seq<string>, p: string, sep: string)
    requires |parts| > 0
    ensures Join(parts + [p], sep) == Join(parts, sep) + sep + p
    decreases |parts|
  {
    if |parts| > 1 {
      JoinSnoc(parts[1..], p, sep);
      assert (parts + [p])[1..] == parts[1..] + [p];
    }
  }

  /** `c * n` for a one-character string `c`. */
  function Repeat(c: char, n: nat): (r: string)
    ensures |r| == n && forall i :: 0 <= i < n ==> r[i] == c
  {
    if n == 0 then "" else Repeat(c, n - 1) + [c]
  }
}
