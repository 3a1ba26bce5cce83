/** The few `java.lang.String` operations the review pipeline relies on,
    over `string` (= seq<char>). Case folding is ASCII only. */
module Strings {

  /** `s.startsWith(t)` */
  predicate StartsWith(s: string, t: string) {
    |t| <= |s| && s[..|t|] == t
  }

  /** `s.endsWith(t)` */
  predicate EndsWith(s: string, t: string) {
    |t| <= |s| && s[|s| - |t|..] == t
  }

  /** `s.contains(t)`: `t` occurs at some position of `s`
      (the empty string occurs everywhere). */
  predicate Contains(s: string, t: string)
    decreases |s|
  {
    StartsWith(s, t) || (|s| > 0 && Contains(s[1..], t))
  }

  /** An occurrence at a known position is enough for `Contains`. */
  lemma {:induction false} ContainsAt(s: string, t: string, i: nat)
    requires i + |t| <= |s| && s[i..i + |t|] == t
    ensures Contains(s, t)
  {
    if i == 0 {
      assert s[..|t|] == s[0..|t|];
    } else {
      assert s[1..][i - 1..i - 1 + |t|] == s[i..i + |t|];
      ContainsAt(s[1..], t, i - 1);
    }
  }

  /** A slice of a slice is a slice of the whole. */
  lemma SliceOfSlice(s: string, a: nat, b: nat, u: string, i: nat, j: nat)
    requires a <= b <= |s| && u == s[a..b] && i <= j <= |u|
    ensures u[i..j] == s[a + i..a + j]
  {
    forall k | 0 <= k < j - i ensures u[i..j][k] == s[a + i..a + j][k] {
      assert u[i..j][k] == u[i + k] == s[a + i + k];
    }
  }

  /** Every slice of `s` is contained in `s`. */
  lemma ContainsSlice(s: string, i: nat, j: nat)
    requires i <= j <= |s|
    ensures Contains(s, s[i..j])
  {
    ContainsAt(s, s[i..j], i);
  }

  /** `Contains` always has a witness position. */
  lemma {:induction false} ContainsOccurrence(s: string, t: string) returns (i: nat)
    requires Contains(s, t)
    ensures i + |t| <= |s| && s[i..i + |t|] == t
  {
    if StartsWith(s, t) {
      i := 0;
    } else {
      var k := ContainsOccurrence(s[1..], t);
      i := k + 1;
      assert s[1..][k..k + |t|] == s[i..i + |t|];
    }
  }

  /** A string that never shows some character of `t` cannot contain `t`. */
  lemma {:induction false} NotContainsMissingChar(s: string, t: string, n: nat)
    requires n < |t|
    requires forall k :: 0 <= k < |s| ==> s[k] != t[n]
    ensures !Contains(s, t)
  {
    if |s| > 0 {
      assert !StartsWith(s, t) by {
        if |t| <= |s| {
          assert s[..|t|][n] == s[n];
        }
      }
      NotContainsMissingChar(s[1..], t, n);
    }
  }

  /** If no window of `s` where `t` would fit has `t[n]` at offset `n`,
      `s` does not contain `t`. */
  lemma {:induction false} NotContainsMissingCharAtOffset(s: string, t: string, n: nat)
    requires n < |t|
    requires forall j :: n <= j < |s| && j - n + |t| <= |s| ==> s[j] != t[n]
    ensures !Contains(s, t)
  {
    if |s| > 0 {
      assert !StartsWith(s, t) by {
        if |t| <= |s| {
          assert s[..|t|][n] == s[n];
        }
      }
      assert forall j :: n <= j < |s| - 1 && j - n + |t| <= |s| - 1 ==> s[1..][j] == s[j + 1];
      NotContainsMissingCharAtOffset(s[1..], t, n);
    }
  }

  // ----- ASCII case folding (`toLowerCase`, `equalsIgnoreCase`) -----

  function LowerChar(c: char): char {
    if 'A' <= c <= 'Z' then (c as int + 32) as char else c
  }

  function UpperChar(c: char): char {
    if 'a' <= c <= 'z' then (c as int - 32) as char else c
  }

  function ToLower(s: string): (r: string)
    ensures |r| == |s|
  {
    seq(|s|, i requires 0 <= i < |s| => LowerChar(s[i]))
  }

  function ToUpper(s: string): (r: string)
    ensures |r| == |s|
  {
    seq(|s|, i requires 0 <= i < |s| => UpperChar(s[i]))
  }

  /** `a.equalsIgnoreCase(b)`, folding ASCII letters only. */
  predicate EqualsIgnoreCase(a: string, b: string) {
    ToLower(a) == ToLower(b)
  }

  lemma FoldedCharsAgree(c: char, d: char)
    ensures LowerChar(c) == LowerChar(d) <==> UpperChar(c) == UpperChar(d)
  {
  }

  /** Comparing lower-cased and comparing upper-cased texts agree. */
  lemma EqualsIgnoreCaseByUpper(a: string, b: string)
    ensures EqualsIgnoreCase(a, b) <==> ToUpper(a) == ToUpper(b)
  {
    if |a| == |b| {
      if ToLower(a) == ToLower(b) {
        forall k | 0 <= k < |a| ensures ToUpper(a)[k] == ToUpper(b)[k] {
          assert ToLower(a)[k] == ToLower(b)[k];
          FoldedCharsAgree(a[k], b[k]);
        }
      }
      if ToUpper(a) == ToUpper(b) {
        forall k | 0 <= k < |a| ensures ToLower(a)[k] == ToLower(b)[k] {
          assert ToUpper(a)[k] == ToUpper(b)[k];
          FoldedCharsAgree(a[k], b[k]);
        }
      }
    }
  }

  /** A text with no lower-case letter is its own upper-case form. */
  lemma UpperOfNoLowerCase(s: string)
    requires forall k :: 0 <= k < |s| ==> !('a' <= s[k] <= 'z')
    ensures ToUpper(s) == s
  {
  }

  /** Lower-casing leaves a character that is not a letter where it was, so
      a one-character probe such as "+" is found in the lowered text
      exactly when it is found in the original. */
  lemma {:induction false} LoweredContainsNonLetter(s: string, c: char)
    requires !('A' <= c <= 'Z') && !('a' <= c <= 'z')
    ensures Contains(ToLower(s), [c]) <==> Contains(s, [c])
  {
    if |s| > 0 {
      assert ToLower(s)[1..] == ToLower(s[1..]);
      assert StartsWith(ToLower(s), [c]) <==> StartsWith(s, [c]) by {
        assert ToLower(s)[..1] == [LowerChar(s[0])];
        assert s[..1] == [s[0]];
      }
      LoweredContainsNonLetter(s[1..], c);
    }
  }

  /** Lower-casing keeps every occurrence: if `s` contains `t`, the lowered
      `s` contains the lowered `t`, at the same position. */
  lemma ContainsLowered(s: string, t: string)
    requires Contains(s, t)
    ensures Contains(ToLower(s), ToLower(t))
  {
    var i := ContainsOccurrence(s, t);
    assert ToLower(s)[i..i + |t|] == ToLower(t) by {
      forall k | 0 <= k < |t| ensures ToLower(s)[i..i + |t|][k] == ToLower(t)[k] {
        assert s[i..i + |t|][k] == t[k];
      }
    }
    ContainsAt(ToLower(s), ToLower(t), i);
  }

  // ----- `trim()`: strip every char <= U+0020 at both ends -----

  predicate IsTrimmed(s: string) {
    |s| == 0 || (s[0] > ' ' && s[|s| - 1] > ' ')
  }

  predicate AllBlank(s: string) {
    forall k :: 0 <= k < |s| ==> s[k] <= ' '
  }

  /** The length of the leading run of chars <= U+0020. */
  function LeadingBlanks(s: string): (n: nat)
    ensures n <= |s| && (n < |s| ==> s[n] > ' ')
    decreases |s|
  {
    if |s| > 0 && s[0] <= ' ' then 1 + LeadingBlanks(s[1..]) else 0
  }

  /** The length of the trailing run of chars <= U+0020. */
  function TrailingBlanks(s: string): (n: nat)
    ensures n <= |s| && (n < |s| ==> s[|s| - 1 - n] > ' ')
    ensures forall k :: |s| - n <= k < |s| ==> s[k] <= ' '
    decreases |s|
  {
    if |s| > 0 && s[|s| - 1] <= ' ' then
      var n := 1 + TrailingBlanks(s[..|s| - 1]);
      assert forall k :: |s| - n <= k < |s| - 1 ==> s[k] == s[..|s| - 1][k];
      n
    else 0
  }

  /** `s.trim()`: skip the blanks at the front; if anything is left, skip
      the blanks at the back and keep what lies between. */
  function Trim(s: string): (r: string)
    ensures IsTrimmed(r) && |r| <= |s|
  {
    var a := LeadingBlanks(s);
    if a == |s| then [] else s[a..|s| - TrailingBlanks(s)]
  }

  /** The trimmed text is a contiguous slice of `s` with no blank char at
      either end. */
  lemma TrimIsTrimmedSlice(s: string) returns (i: nat, j: nat)
    ensures i <= j <= |s| && Trim(s) == s[i..j]
    ensures IsTrimmed(Trim(s))
  {
    i := LeadingBlanks(s);
    if i == |s| {
      j := i;
    } else {
      j := |s| - TrailingBlanks(s);
    }
  }

  /** Trimming a slice of `s` gives a narrower slice of `s`. */
  lemma TrimOfSlice(s: string, a: nat, b: nat) returns (i: nat, j: nat)
    requires a <= b <= |s|
    ensures a <= i <= j <= b && Trim(s[a..b]) == s[i..j]
    ensures IsTrimmed(Trim(s[a..b]))
  {
    var u := s[a..b];
    var x, y := TrimIsTrimmedSlice(u);
    assert Trim(u) == u[x..y];
    SliceOfSlice(s, a, b, u, x, y);
    i, j := a + x, a + y;
    assert Trim(s[a..b]) == s[i..j];
  }

  lemma {:induction false} LeadingBlanksPadded(p: string, u: string)
    requires AllBlank(p)
    requires u == [] || u[0] > ' '
    ensures LeadingBlanks(p + u) == |p|
  {
    if p != [] {
      assert (p + u)[1..] == p[1..] + u;
      LeadingBlanksPadded(p[1..], u);
    }
  }

  lemma {:induction false} TrailingBlanksPadded(u: string, q: string)
    requires AllBlank(q)
    requires u == [] || u[|u| - 1] > ' '
    ensures TrailingBlanks(u + q) == |q|
  {
    if q != [] {
      assert (u + q)[..|u + q| - 1] == u + q[..|q| - 1];
      TrailingBlanksPadded(u, q[..|q| - 1]);
    }
  }

  /** Trimming removes blank padding around a trimmed text, and nothing else. */
  lemma TrimPadded(p: string, s: string, q: string)
    requires AllBlank(p) && AllBlank(q) && IsTrimmed(s)
    ensures Trim(p + s + q) == s
  {
    if s == [] {
      assert p + s + q == (p + q) + [];
      LeadingBlanksPadded(p + q, []);
    } else {
      assert p + s + q == p + (s + q) == (p + s) + q;
      LeadingBlanksPadded(p, s + q);
      TrailingBlanksPadded(p + s, q);
      assert (p + s + q)[|p|..|p + s + q| - |q|] == s;
    }
  }

  /** A trimmed text is its own trim. */
  lemma TrimTrimmed(s: string)
    requires IsTrimmed(s)
    ensures Trim(s) == s
  {
    TrimPadded([], s, []);
    assert [] + s + [] == s;
  }

  // ----- `String.join(sep, parts)` -----

  /** The joined text opens with the first part and closes with the last. */
  function Join(sep: string, parts: seq<string>): (r: string)
    ensures |parts| > 0 ==> StartsWith(r, parts[0]) && EndsWith(r, parts[|parts| - 1])
    decreases |parts|
  {
    if |parts| == 0 then ""
    else if |parts| == 1 then parts[0]
    else
      var rest := Join(sep, parts[1..]);
      assert (parts[0] + sep + rest)[..|parts[0]|] == parts[0];
      EndsWithAfter(parts[0] + sep, rest, parts[|parts| - 1]);
      parts[0] + sep + rest
  }

  /** A text that ends in `t` still ends in `t` with anything put in front. */
  lemma EndsWithAfter(x: string, y: string, t: string)
    requires EndsWith(y, t)
    ensures EndsWith(x + y, t)
  {
    assert (x + y)[|x + y| - |t|..] == y[|y| - |t|..];
  }

  /** Appending a part to a non-empty list appends the separator and the part. */
  lemma {:induction false} JoinSnoc(sep: string, parts: seq<string>, last: string)
    requires |parts| > 0
    ensures Join(sep, parts + [last]) == Join(sep, parts) + sep + last
  {
    if |parts| > 1 {
      var tail := parts[1..];
      assert (parts + [last])[1..] == tail + [last];
      JoinSnoc(sep, tail, last);
      calc {
        Join(sep, parts + [last]);
        parts[0] + sep + Join(sep, tail + [last]);
        parts[0] + sep + (Join(sep, tail) + sep + last);
        { Regroup(parts[0] + sep, Join(sep, tail), sep, last); }
        parts[0] + sep + Join(sep, tail) + sep + last;
        Join(sep, parts) + sep + last;
      }
    } else {
      assert parts + [last] == [parts[0], last];
      assert [parts[0], last][1..] == [last];
    }
  }

  lemma Regroup(a: string, b: string, c: string, d: string)
    ensures a + (b + c + d) == a + b + c + d
  {
  }

  // ----- `s.replace(target, replacement)` for a non-empty target -----

  /** Java `String.replace`: scans left to right and replaces every
      non-overlapping occurrence of `target`. */
  function Replace(s: string, target: string, replacement: string): (r: string)
    requires |target| > 0
    ensures |target| <= |replacement| ==> |r| >= |s|
    decreases |s|
  {
    if s == [] then []
    else if StartsWith(s, target) then replacement + Replace(s[|target|..], target, replacement)
    else [s[0]] + Replace(s[1..], target, replacement)
  }

  /** With no occurrence of the target, nothing changes. */
  lemma {:induction false} ReplaceAbsent(s: string, target: string, replacement: string)
    requires |target| > 0 && !Contains(s, target)
    ensures Replace(s, target, replacement) == s
  {
    if s != [] {
      ReplaceAbsent(s[1..], target, replacement);
    }
  }

  /** The leftmost occurrence is the first one replaced, and the scan resumes
      right after it: when no occurrence of `target` starts inside `x`,
      `x + target + y` becomes `x + replacement`, followed by `y` rewritten. */
  lemma {:induction false} ReplaceLeftmost(x: string, target: string, y: string, replacement: string)
    requires |target| > 0
    requires !Contains(x + target[..|target| - 1], target)
    ensures Replace(x + target + y, target, replacement) == x + replacement + Replace(y, target, replacement)
  {
    var s := x + target + y;
    var w := x + target[..|target| - 1];
    if x == [] {
      assert s == target + y;
      assert s[|target|..] == y;
    } else {
      assert w[..|target|] == s[..|target|];
      assert !StartsWith(s, target);
      assert s[1..] == x[1..] + target + y;
      assert w[1..] == x[1..] + target[..|target| - 1];
      ReplaceLeftmost(x[1..], target, y, replacement);
    }
  }
}
