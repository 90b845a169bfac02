/**
 * The string operations of the Go and Python standard libraries that the
 * modelled code relies on, over `string` (a sequence of Unicode scalar values).
 * Sequence prefix `p <= s` stands for Go's strings.HasPrefix and Python's
 * str.startswith.
 */
module Strings {
  import opened Wrappers

  /** The text `s` holds `sep` starting at index `i`. */
  predicate OccursAt(s: string, sep: string, i: nat) {
    i + |sep| <= |s| && s[i..i + |sep|] == sep
  }

  /** Index of the leftmost occurrence of `sep` in `s`, if there is one. */
  function Find(s: string, sep: string): (r: Option<nat>)
    requires |sep| > 0
    ensures r.Some? ==> OccursAt(s, sep, r.value)
    ensures r.Some? ==> forall i: nat :: i < r.value ==> !OccursAt(s, sep, i)
    ensures r.None? ==> forall i: nat :: !OccursAt(s, sep, i)
    decreases |s|
  {
    if |s| < |sep| then None
    else if s[..|sep|] == sep then Some(0)
    else
      var rest := Find(s[1..], sep);
      assert forall i: nat :: 0 < i ==> (OccursAt(s, sep, i) <==> OccursAt(s[1..], sep, i - 1)) by {
        forall i: nat | 0 < i ensures OccursAt(s, sep, i) <==> OccursAt(s[1..], sep, i - 1) {
          if i + |sep| <= |s| {
            assert s[1..][i - 1..i - 1 + |sep|] == s[i..i + |sep|];
          }
        }
      }
      assert !OccursAt(s, sep, 0);
      match rest
      case None => None
      case Some(i) => Some(i + 1)
  }

  /** `s` contains `sep` somewhere (Go strings.Contains, Python `in`). */
  predicate Contains(s: string, sep: string)
    requires |sep| > 0
  {
    Find(s, sep).Some?
  }

  /** The text before the first occurrence of `sep` does not contain `sep`. */
  lemma PrefixBeforeFind(s: string, sep: string)
    requires |sep| > 0 && Find(s, sep).Some?
    ensures !Contains(s[..Find(s, sep).value], sep)
  {
    var i := Find(s, sep).value;
    forall j: nat | j + |sep| <= i ensures !OccursAt(s[..i], sep, j) {
      assert s[..i][j..j + |sep|] == s[j..j + |sep|];
      assert !OccursAt(s, sep, j);
    }
  }

  /** Joins `parts` with `sep` between consecutive parts (Go strings.Join, Python str.join). */
  function Join(parts: seq<string>, sep: string): string {
    if |parts| == 0 then ""
    else if |parts| == 1 then parts[0]
    else parts[0] + sep + Join(parts[1..], sep)
  }

  /**
   * Splits `s` at every leftmost, non-overlapping occurrence of `sep`
   * (Go strings.Split, Python str.split with an explicit separator).
   */
  function Split(s: string, sep: string): (parts: seq<string>)
    requires |sep| > 0
    ensures |parts| >= 1
    ensures Join(parts, sep) == s
    ensures forall k :: 0 <= k < |parts| ==> !Contains(parts[k], sep)
    decreases |s|
  {
    match Find(s, sep)
    case None => [s]
    case Some(i) =>
      var rest := Split(s[i + |sep|..], sep);
      PrefixBeforeFind(s, sep);
      assert s == s[..i] + sep + s[i + |sep|..];
      var parts := [s[..i]] + rest;
      assert parts[1..] == rest && |parts| > 1;
      assert forall k :: 1 <= k < |parts| ==> parts[k] == rest[k - 1];
      parts
  }

  /** Go strings.Replace(s, target, replacement, -1) for a non-empty `target`. */
  function Replace(s: string, target: string, replacement: string): string
    requires |target| > 0
  {
    Join(Split(s, target), replacement)
  }

  /** A text without `target` is left as it is. */
  lemma ReplaceAbsent(s: string, target: string, replacement: string)
    requires |target| > 0 && !Contains(s, target)
    ensures Replace(s, target, replacement) == s
  {
    assert Find(s, target).None?;
  }

  /** No character of `x` is `c`. */
  predicate Free(x: string, c: char) {
    forall i :: 0 <= i < |x| ==> x[i] != c
  }

  /** A text free of the separator's first character does not contain the separator. */
  lemma FreeNotContains(x: string, sep: string)
    requires |sep| > 0 && Free(x, sep[0])
    ensures !Contains(x, sep)
  {
    forall j: nat | j + |sep| <= |x| ensures !OccursAt(x, sep, j) {
      assert x[j..j + |sep|][0] == x[j];
    }
  }

  /** Joining parts that are free of a character, with a separator free of it, gives a text free of it. */
  lemma {:induction false} JoinFree(parts: seq<string>, sep: string, c: char)
    requires Free(sep, c) && forall k :: 0 <= k < |parts| ==> Free(parts[k], c)
    ensures Free(Join(parts, sep), c)
  {
    if |parts| > 1 {
      JoinFree(parts[1..], sep, c);
    }
  }

  /** Extending the last part extends the join by the same text. */
  lemma {:induction false} JoinAppendLast(xs: seq<string>, x: string, y: string, sep: string)
    ensures Join(xs + [x + y], sep) == Join(xs + [x], sep) + y
    decreases |xs|
  {
    if |xs| > 0 {
      JoinAppendLast(xs[1..], x, y, sep);
      assert (xs + [x + y])[1..] == xs[1..] + [x + y];
      assert (xs + [x])[1..] == xs[1..] + [x];
    }
  }

  /**
   * The first occurrence of `sep` in `x + sep + y` is the one after `x`, when
   * `x` does not contain `sep` and the first character of `sep` does not recur
   * in it (so no occurrence can straddle `x` and `sep`).
   */
  lemma FindAfter(x: string, sep: string, y: string)
    requires |sep| > 0 && !Contains(x, sep)
    requires forall i :: 1 <= i < |sep| ==> sep[i] != sep[0]
    ensures Find(x + sep + y, sep) == Some(|x|)
  {
    var s := x + sep + y;
    assert s[|x|..|x| + |sep|] == sep;
    assert OccursAt(s, sep, |x|);
    forall j: nat | j < |x| ensures !OccursAt(s, sep, j) {
      if j + |sep| <= |x| {
        assert s[j..j + |sep|] == x[j..j + |sep|];
        assert !OccursAt(x, sep, j);
      } else {
        var d := |x| - j;
        assert s[j..j + |sep|][d] == sep[0];
        assert sep[d] != sep[0];
      }
    }
  }

  /**
   * Splitting a joined sequence gives the parts back, when no part contains
   * the separator and the separator's first character does not recur in it.
   */
  lemma {:induction false} SplitJoin(parts: seq<string>, sep: string)
    requires |sep| > 0 && |parts| >= 1
    requires forall i :: 1 <= i < |sep| ==> sep[i] != sep[0]
    requires forall k :: 0 <= k < |parts| ==> !Contains(parts[k], sep)
    ensures Split(Join(parts, sep), sep) == parts
  {
    if |parts| > 1 {
      var rest := Join(parts[1..], sep);
      FindAfter(parts[0], sep, rest);
      var s := parts[0] + sep + rest;
      assert Join(parts, sep) == s;
      assert s[..|parts[0]|] == parts[0];
      assert s[|parts[0]| + |sep|..] == rest;
      SplitJoin(parts[1..], sep);
      assert Split(s, sep) == [parts[0]] + Split(rest, sep);
      assert [parts[0]] + parts[1..] == parts;
    } else {
      assert Join(parts, sep) == parts[0];
      assert Find(parts[0], sep).None?;
    }
  }

  /** A text that contains `a + b` contains `a`. */
  lemma ContainsPrefixOf(s: string, a: string, b: string)
    requires |a| > 0 && Contains(s, a + b)
    ensures Contains(s, a)
  {
    var i := Find(s, a + b).value;
    assert s[i..i + |a|] == (a + b)[..|a|];
    assert OccursAt(s, a, i);
  }

  /**
   * Replacing `target` in a join of parts that are free of its first
   * character, which does not recur in `target`, replaces exactly the
   * separators.
   */
  lemma ReplaceJoin(parts: seq<string>, target: string, replacement: string)
    requires |target| > 0 && |parts| >= 1
    requires target[0] !in target[1..]
    requires forall k :: 0 <= k < |parts| ==> Free(parts[k], target[0])
    ensures Replace(Join(parts, target), target, replacement) == Join(parts, replacement)
  {
    forall i | 1 <= i < |target| ensures target[i] != target[0] {
      assert target[1..][i - 1] == target[i];
    }
    forall k | 0 <= k < |parts| ensures !Contains(parts[k], target) {
      FreeNotContains(parts[k], target);
    }
    SplitJoin(parts, target);
  }

  /**
   * A join of parts free of `c`, with a separator that holds `c` only at its
   * start, does not contain a text `t` starting with `c` that differs from
   * the separator at some index `j` both have.
   */
  lemma {:induction false} JoinAvoids(parts: seq<string>, sep: string, t: string, c: char, j: nat)
    requires |sep| >= 1 && sep[0] == c && c !in sep[1..]
    requires forall k :: 0 <= k < |parts| ==> Free(parts[k], c)
    requires |t| >= 1 && t[0] == c && j < |t| && j < |sep| && t[j] != sep[j]
    ensures !Contains(Join(parts, sep), t)
    decreases |parts|
  {
    var s := Join(parts, sep);
    if parts == [] {
      assert s == "";
    } else {
      var p0 := parts[0];
      var rest := if |parts| > 1 then Join(parts[1..], sep) else "";
      if |parts| > 1 {
        assert s == p0 + sep + rest;
        JoinAvoids(parts[1..], sep, t, c, j);
      } else {
        assert s == p0;
      }
      forall i: nat ensures !OccursAt(s, t, i) {
        if i + |t| <= |s| {
          var w := s[i..i + |t|];
          if i < |p0| {
            assert w[0] == p0[i];
          } else if |parts| > 1 && i == |p0| {
            assert w[j] == sep[j];
          } else if |parts| > 1 && i < |p0| + |sep| {
            assert w[0] == sep[i - |p0|] == sep[1..][i - |p0| - 1];
          } else if |parts| > 1 {
            var i' := i - |p0| - |sep|;
            assert w == rest[i'..i' + |t|];
            assert !OccursAt(rest, t, i');
          }
        }
      }
    }
  }

  /** Python str.removeprefix and Go strings.TrimPrefix. */
  function RemovePrefix(s: string, p: string): (r: string)
    ensures p <= s ==> p + r == s
    ensures !(p <= s) ==> r == s
  {
    if p <= s then s[|p|..] else s
  }

  /** Python str.removesuffix and Go strings.TrimSuffix. */
  function RemoveSuffix(s: string, p: string): (r: string)
    ensures |p| <= |s| && s[|s| - |p|..] == p ==> r + p == s
    ensures !(|p| <= |s| && s[|s| - |p|..] == p) ==> r == s
  {
    if |p| <= |s| && s[|s| - |p|..] == p then s[..|s| - |p|] else s
  }

  /** Go unicode.IsSpace: the Latin-1 spaces and the other White_Space code points. */
  predicate IsSpace(c: char) {
    c == '\t' || c == '\n' || c == '\U{000B}' || c == '\U{000C}' || c == '\r' || c == ' '
    || c == '\U{0085}' || c == '\U{00A0}' || c == '\U{1680}' || ('\U{2000}' <= c <= '\U{200A}')
    || c == '\U{2028}' || c == '\U{2029}' || c == '\U{202F}' || c == '\U{205F}' || c == '\U{3000}'
  }

  /** The number of leading characters of `s` that `drop` selects. */
  function LeadingDropped(s: string, drop: char -> bool): (n: nat)
    ensures n <= |s|
    ensures forall k :: 0 <= k < n ==> drop(s[k])
    ensures n < |s| ==> !drop(s[n])
  {
    if |s| > 0 && drop(s[0]) then 1 + LeadingDropped(s[1..], drop) else 0
  }

  /** The number of trailing characters of `s` that `drop` selects. */
  function TrailingDropped(s: string, drop: char -> bool): (n: nat)
    ensures n <= |s|
    ensures forall k :: |s| - n <= k < |s| ==> drop(s[k])
    ensures n < |s| ==> !drop(s[|s| - n - 1])
  {
    if |s| > 0 && drop(s[|s| - 1]) then 1 + TrailingDropped(s[..|s| - 1], drop) else 0
  }

  /**
   * `s` without the characters that `drop` selects at either end (Go
   * strings.TrimFunc): the leading ones are removed first, then the trailing
   * ones of what is left.
   */
  function Trim(s: string, drop: char -> bool): (r: string)
    ensures |r| <= |s|
    ensures r == [] || (!drop(r[0]) && !drop(r[|r| - 1]))
  {
    var i := LeadingDropped(s, drop);
    var left := s[i..];
    left[..|left| - TrailingDropped(left, drop)]
  }

  /**
   * The trimmed text is the slice `s[i..j]` of the original, and every
   * character before `i` and from `j` on is one that `drop` selects.
   */
  lemma TrimIsSlice(s: string, drop: char -> bool) returns (i: nat, j: nat)
    ensures i <= j <= |s| && Trim(s, drop) == s[i..j]
    ensures forall k :: 0 <= k < i ==> drop(s[k])
    ensures forall k :: j <= k < |s| ==> drop(s[k])
  {
    i := LeadingDropped(s, drop);
    var left := s[i..];
    j := |s| - TrailingDropped(left, drop);
    assert left[..j - i] == s[i..j];
    forall k | j <= k < |s| ensures drop(s[k]) {
      assert s[k] == left[k - i];
    }
  }

  /** Go strings.TrimSpace. */
  function TrimSpace(s: string): string {
    Trim(s, IsSpace)
  }

  /** Go strings.Trim(s, cutset) for a one-character cutset. */
  function TrimChar(s: string, c: char): string {
    Trim(s, x => x == c)
  }

  predicate IsAsciiUpper(c: char) { 'A' <= c <= 'Z' }
  predicate IsAsciiLower(c: char) { 'a' <= c <= 'z' }
  predicate IsAsciiDigit(c: char) { '0' <= c <= '9' }

  /**
   * Python str.islower over ASCII letters: there is at least one cased
   * character and none of them is upper case.
   */
  predicate IsLower(s: string) {
    (exists i :: 0 <= i < |s| && IsAsciiLower(s[i])) && (forall i :: 0 <= i < |s| ==> !IsAsciiUpper(s[i]))
  }

  /** The decimal digit for `d`. */
  function Digit(d: nat): (c: char)
    requires d < 10
    ensures IsAsciiDigit(c) && c as int - '0' as int == d
  {
    ('0' as int + d) as char
  }

  /** Go strconv.Itoa for a non-negative integer. */
  function NatToString(n: nat): (s: string)
    ensures |s| >= 1 && forall i :: 0 <= i < |s| ==> IsAsciiDigit(s[i])
    decreases n
  {
    if n < 10 then [Digit(n)] else NatToString(n / 10) + [Digit(n % 10)]
  }

  /** Reads a sequence of decimal digits back as a number. */
  function DigitsValue(s: string): nat
    requires forall i :: 0 <= i < |s| ==> IsAsciiDigit(s[i])
  {
    if s == [] then 0
    else
      assert IsAsciiDigit(s[|s| - 1]);
      DigitsValue(s[..|s| - 1]) * 10 + (s[|s| - 1] as int - '0' as int)
  }

  /** Reading the decimal rendering of `n` gives `n` back. */
  lemma {:induction false} NatToStringRoundTrip(n: nat)
    ensures DigitsValue(NatToString(n)) == n
    decreases n
  {
    if n >= 10 {
      var s := NatToString(n);
      assert s[..|s| - 1] == NatToString(n / 10);
      NatToStringRoundTrip(n / 10);
    }
  }

  /** Distinct numbers have distinct decimal renderings. */
  lemma NatToStringInjective(a: nat, b: nat)
    requires NatToString(a) == NatToString(b)
    ensures a == b
  {
    NatToStringRoundTrip(a);
    NatToStringRoundTrip(b);
  }
}
