/**
 * String primitives of Python and JavaScript that the modelled code relies on:
 * lower-casing, substring search, strip, split/join and counting.
 * Strings are sequences of characters; lower-casing folds ASCII letters only.
 */
module Text {

  /** Lower-case one character (ASCII letters only). */
  function LowerChar(c: char): char {
    if 'A' <= c <= 'Z' then (c as int + 32) as char else c
  }

  /** `s.lower()` / `s.toLowerCase()` on ASCII letters. */
  function Lower(s: string): (r: string)
    ensures |r| == |s|
    ensures forall i :: 0 <= i < |s| ==> r[i] == LowerChar(s[i])
  {
    if s == [] then [] else [LowerChar(s[0])] + Lower(s[1..])
  }

  lemma {:induction false} LowerConcat(a: string, b: string)
    ensures Lower(a + b) == Lower(a) + Lower(b)
    decreases |a|
  {
    if a == [] {
      assert a + b == b;
    } else {
      assert (a + b)[1..] == a[1..] + b;
      LowerConcat(a[1..], b);
      assert Lower(a + b) == [LowerChar(a[0])] + (Lower(a[1..]) + Lower(b));
    }
  }

  predicate StartsWith(s: string, prefix: string) {
    |prefix| <= |s| && s[..|prefix|] == prefix
  }

  /** `p` occurs in `s` starting at index `i`. */
  predicate OccursAt(s: string, p: string, i: int) {
    0 <= i <= |s| - |p| && s[i..i + |p|] == p
  }

  /** `p in s` (Python) / `s.includes(p)` (JavaScript): `p` occurs in `s` as a substring. */
  predicate Contains(s: string, p: string)
    decreases |s|
  {
    StartsWith(s, p) || (s != [] && Contains(s[1..], p))
  }

  /** The substring test holds exactly when `p` occurs at some position of `s`. */
  lemma {:induction false} ContainsIff(s: string, p: string)
    ensures Contains(s, p) <==> exists i :: OccursAt(s, p, i)
    decreases |s|
  {
    if StartsWith(s, p) {
      assert OccursAt(s, p, 0);
    } else if s == [] {
      assert |p| > 0;
    } else {
      ContainsIff(s[1..], p);
      if exists i :: OccursAt(s, p, i) {
        var i :| OccursAt(s, p, i);
        assert i != 0;
        assert OccursAt(s[1..], p, i - 1);
      }
      if Contains(s[1..], p) {
        var j :| OccursAt(s[1..], p, j);
        assert s[1..][j..j + |p|] == s[j + 1..j + 1 + |p|];
        assert OccursAt(s, p, j + 1);
      }
    }
  }

  /** An occurrence at a known position makes the substring test succeed. */
  lemma ContainsAt(s: string, p: string, i: int)
    requires OccursAt(s, p, i)
    ensures Contains(s, p)
  {
    ContainsIff(s, p);
  }

  /** The characters Python's `str.isspace` accepts. */
  predicate IsSpace(c: char) {
    IsSpaceCode(c as int)
  }

  predicate IsSpaceCode(n: int) {
    n == 32 || 9 <= n <= 13 || 28 <= n <= 31 || n == 0x85 || n == 0xA0 || n == 0x1680
    || 0x2000 <= n <= 0x200A || n == 0x2028 || n == 0x2029 || n == 0x202F || n == 0x205F || n == 0x3000
  }

  predicate AllSpace(s: string) {
    forall i :: 0 <= i < |s| ==> IsSpace(s[i])
  }

  lemma BlankJoin(a: string, b: string)
    requires AllSpace(a) && AllSpace(b)
    ensures AllSpace(a + b)
  {
    forall i | 0 <= i < |a + b| ensures IsSpace((a + b)[i]) {
      if i < |a| { assert (a + b)[i] == a[i]; } else { assert (a + b)[i] == b[i - |a|]; }
    }
  }

  function TrimLeft(s: string): (r: string)
    ensures |r| <= |s| && r == s[|s| - |r|..]
    ensures r != [] ==> !IsSpace(r[0])
    ensures AllSpace(s[..|s| - |r|])
  {
    if s != [] && IsSpace(s[0]) then
      var r := TrimLeft(s[1..]);
      var k := |s| - |r|;
      assert s[..k] == s[..1] + s[1..][..k - 1];
      assert AllSpace(s[..1]);
      BlankJoin(s[..1], s[1..][..k - 1]);
      r
    else s
  }

  function TrimRight(s: string): (r: string)
    ensures |r| <= |s| && r == s[..|r|]
    ensures r != [] ==> !IsSpace(r[|r| - 1])
    ensures AllSpace(s[|r|..])
  {
    if s != [] && IsSpace(s[|s| - 1]) then
      var r := TrimRight(s[..|s| - 1]);
      assert s[..|s| - 1][..|r|] == s[..|r|];
      assert s[|r|..] == s[..|s| - 1][|r|..] + s[|s| - 1..];
      assert AllSpace(s[|s| - 1..]);
      BlankJoin(s[..|s| - 1][|r|..], s[|s| - 1..]);
      r
    else s
  }

  /**
   * `s.strip()`: `s` without its leading and trailing whitespace; the result is
   * a slice of `s` that neither starts nor ends with whitespace.
   */
  function Strip(s: string): (r: string)
    ensures |r| <= |s|
    ensures exists i :: OccursAt(s, r, i)
    ensures r != [] ==> !IsSpace(r[0]) && !IsSpace(r[|r| - 1])
    ensures r == [] <==> AllSpace(s)
  {
    var t := TrimLeft(s);
    var r := TrimRight(t);
    OccursInSuffix(s, t, r, |s| - |t|);
    if r == [] then
      StripBlank(s, t);
      r
    else
      StripNonBlank(s, t, r);
      r
  }

  /**
   * Strip is determined by its contract: peeling whitespace `lead` and `trail`
   * off a middle that is empty or has non-whitespace ends leaves that middle.
   */
  lemma StripUnique(s: string, lead: string, mid: string, trail: string)
    requires s == lead + mid + trail && AllSpace(lead) && AllSpace(trail)
    requires mid != [] ==> !IsSpace(mid[0]) && !IsSpace(mid[|mid| - 1])
    ensures Strip(s) == mid
  {
    if mid == [] {
      assert s == lead + trail;
      BlankJoin(lead, trail);
    } else {
      assert s == lead + (mid + trail);
      TrimLeftSkip(lead, mid + trail);
      TrimRightSkip(mid, trail);
    }
  }

  /** Whitespace around a string does not change what `strip()` gives. */
  lemma StripPadded(lead: string, x: string, trail: string)
    requires AllSpace(lead) && AllSpace(trail)
    ensures Strip(lead + x + trail) == Strip(x)
  {
    var l, m, t := StripParts(x);
    var front, back := lead + l, t + trail;
    BlankJoin(lead, l);
    BlankJoin(t, trail);
    SeqRegroup(lead, l, m, t, trail);
    StripUnique(lead + x + trail, front, m, back);
  }

  lemma SeqRegroup(a: string, b: string, c: string, d: string, e: string)
    ensures a + (b + c + d) + e == (a + b) + c + (d + e)
  {
  }

  /** `strip()` cuts a string into its leading whitespace, the result and its trailing whitespace. */
  lemma StripParts(x: string) returns (l: string, m: string, t: string)
    ensures x == l + m + t
    ensures AllSpace(l) && AllSpace(t)
    ensures m == Strip(x)
    ensures m != [] ==> !IsSpace(m[0]) && !IsSpace(m[|m| - 1])
  {
    var rest := TrimLeft(x);
    m := TrimRight(rest);
    l, t := x[..|x| - |rest|], rest[|m|..];
    Regroup(x, |x| - |rest|, |m|);
  }

  lemma Regroup<T>(x: seq<T>, k: int, n: int)
    requires 0 <= k && 0 <= n && k + n <= |x|
    ensures x == x[..k] + x[k..][..n] + x[k..][n..]
  {
    assert x[k..] == x[k..][..n] + x[k..][n..];
  }

  /** Leading whitespace is all that `TrimLeft` removes. */
  lemma {:induction false} TrimLeftSkip(lead: string, x: string)
    requires AllSpace(lead) && (x == [] || !IsSpace(x[0]))
    ensures TrimLeft(lead + x) == x
    decreases |lead|
  {
    if lead == [] {
      assert lead + x == x;
    } else {
      assert (lead + x)[0] == lead[0];
      assert (lead + x)[1..] == lead[1..] + x;
      TrimLeftSkip(lead[1..], x);
    }
  }

  /** Trailing whitespace is all that `TrimRight` removes. */
  lemma {:induction false} TrimRightSkip(x: string, trail: string)
    requires AllSpace(trail) && (x == [] || !IsSpace(x[|x| - 1]))
    ensures TrimRight(x + trail) == x
    decreases |trail|
  {
    if trail == [] {
      assert x + trail == x;
    } else {
      var s := x + trail;
      assert s[|s| - 1] == trail[|trail| - 1];
      assert s[..|s| - 1] == x + trail[..|trail| - 1];
      TrimRightSkip(x, trail[..|trail| - 1]);
    }
  }

  lemma StripNonBlank(s: string, t: string, r: string)
    requires t == TrimLeft(s) && r == TrimRight(t) && r != []
    ensures !AllSpace(s)
  {
    var k := |s| - |t|;
    assert t == s[k..] && r[0] == t[0];
    assert !IsSpace(s[k]);
  }

  lemma StripBlank(s: string, t: string)
    requires t == TrimLeft(s) && AllSpace(t)
    ensures AllSpace(s)
  {
    var blank := s[..|s| - |t|];
    assert AllSpace(blank);
    assert |t| == 0;
    forall i | 0 <= i < |s| ensures IsSpace(s[i]) {
      assert blank[i] == s[i];
    }
  }

  /** A prefix of a suffix of `s` occurs in `s` where the suffix starts. */
  lemma OccursInSuffix(s: string, t: string, r: string, k: int)
    requires 0 <= k <= |s| && t == s[k..] && |r| <= |t| && r == t[..|r|]
    ensures OccursAt(s, r, k)
  {
    assert s[k..][..|r|] == s[k..k + |r|];
  }

  /** Index of the first occurrence of `sep` in `s`, if any. */
  function FindFrom(s: string, sep: string, from: nat): (r: int)
    requires |sep| > 0 && from <= |s|
    ensures r == -1 || from <= r <= |s| - |sep|
    ensures r != -1 ==> OccursAt(s, sep, r)
    ensures forall j :: from <= j < (if r == -1 then |s| else r) ==> !OccursAt(s, sep, j)
    decreases |s| - from
  {
    if |s| - from < |sep| then -1
    else if s[from..from + |sep|] == sep then from
    else FindFrom(s, sep, from + 1)
  }

  /** `s.split(sep)` for a non-empty separator. */
  function Split(s: string, sep: string): (parts: seq<string>)
    requires |sep| > 0
    ensures |parts| >= 1
    decreases |s|
  {
    var i := FindFrom(s, sep, 0);
    if i == -1 then [s] else [s[..i]] + Split(s[i + |sep|..], sep)
  }

  /** `sep.join(parts)`. */
  function Join(parts: seq<string>, sep: string): string {
    if parts == [] then ""
    else if |parts| == 1 then parts[0]
    else parts[0] + sep + Join(parts[1..], sep)
  }

  /** Splitting and joining again with the same separator gives back the string. */
  lemma {:induction false} JoinSplit(s: string, sep: string)
    requires |sep| > 0
    ensures Join(Split(s, sep), sep) == s
    decreases |s|
  {
    var i := FindFrom(s, sep, 0);
    if i != -1 {
      var rest := s[i + |sep|..];
      var tail := Split(rest, sep);
      var parts := [s[..i]] + tail;
      assert Split(s, sep) == parts;
      assert |parts| >= 2 && parts[0] == s[..i] && parts[1..] == tail;
      assert Join(parts, sep) == s[..i] + sep + Join(tail, sep);
      JoinSplit(rest, sep);
      assert s[i..i + |sep|] == sep;
      assert s == s[..i] + s[i..i + |sep|] + rest;
    }
  }

  /** No part produced by `split` contains the separator. */
  lemma {:induction false} SplitPartsFree(s: string, sep: string)
    requires |sep| > 0
    ensures forall k :: 0 <= k < |Split(s, sep)| ==> !Contains(Split(s, sep)[k], sep)
    decreases |s|
  {
    var i := FindFrom(s, sep, 0);
    var parts := Split(s, sep);
    var head := if i == -1 then s else s[..i];
    forall j | 0 <= j <= |head| - |sep| ensures !OccursAt(head, sep, j) {
      assert !OccursAt(s, sep, j);
      assert head[j..j + |sep|] == s[j..j + |sep|];
    }
    ContainsIff(head, sep);
    if i != -1 {
      SplitPartsFree(s[i + |sep|..], sep);
      assert parts[1..] == Split(s[i + |sep|..], sep);
    }
  }

  /** `s.split()`: the maximal runs of non-whitespace characters, in order. */
  function SplitWhitespace(s: string): (words: seq<string>)
    ensures forall k :: 0 <= k < |words| ==> words[k] != [] && !AnyIsSpace(words[k])
    decreases |s|
  {
    if s == [] then []
    else if IsSpace(s[0]) then SplitWhitespace(s[1..])
    else
      var n := WordLength(s, 0);
      [s[..n]] + SplitWhitespace(s[n..])
  }

  /** A string holding a non-whitespace character splits into at least one word. */
  lemma {:induction false} WordsOfNonBlank(s: string)
    requires !AllSpace(s)
    ensures SplitWhitespace(s) != []
    decreases |s|
  {
    if IsSpace(s[0]) {
      var i :| 0 <= i < |s| && !IsSpace(s[i]);
      assert s[1..][i - 1] == s[i];
      WordsOfNonBlank(s[1..]);
    }
  }

  /** `s.split()` is empty exactly when `s` is blank. */
  lemma {:induction false} SplitWhitespaceBlank(s: string)
    ensures SplitWhitespace(s) == [] <==> AllSpace(s)
    decreases |s|
  {
    if !AllSpace(s) {
      WordsOfNonBlank(s);
    } else if s != [] {
      assert AllSpace(s[1..]) by {
        forall i | 0 <= i < |s| - 1 ensures IsSpace(s[1..][i]) { assert s[1..][i] == s[i + 1]; }
      }
      SplitWhitespaceBlank(s[1..]);
    }
  }

  /**
   * `s.split()` reads a maximal run of non-whitespace after some whitespace as
   * one word, then goes on after the run.
   */
  lemma {:induction false} SplitWhitespaceRun(gap: string, w: string, rest: string)
    requires AllSpace(gap) && w != [] && !AnyIsSpace(w)
    requires rest == [] || IsSpace(rest[0])
    ensures SplitWhitespace(gap + w + rest) == [w] + SplitWhitespace(rest)
    decreases |gap|
  {
    var s := gap + w + rest;
    if gap == [] {
      assert s == w + rest;
      assert s[0] == w[0];
      forall i | 0 <= i < |w| ensures !IsSpace(s[i]) { assert s[i] == w[i]; }
      if rest != [] { assert s[|w|] == rest[0]; }
      WordLengthRun(s, 0, |w|);
      assert s[..|w|] == w && s[|w|..] == rest;
    } else {
      assert s[0] == gap[0];
      assert s[1..] == gap[1..] + w + rest;
      SplitWhitespaceRun(gap[1..], w, rest);
    }
  }

  /** The run measured by `WordLength` ends at the first whitespace or the end. */
  lemma {:induction false} WordLengthRun(s: string, from: nat, n: nat)
    requires from <= n <= |s|
    requires forall i :: from <= i < n ==> !IsSpace(s[i])
    requires n == |s| || IsSpace(s[n])
    ensures WordLength(s, from) == n
    decreases n - from
  {
    if from < n {
      WordLengthRun(s, from + 1, n);
    }
  }

  predicate AnyIsSpace(s: string) {
    exists i :: 0 <= i < |s| && IsSpace(s[i])
  }

  /** Length of the run of non-whitespace characters at the start of `s[from..]`, plus `from`. */
  function WordLength(s: string, from: nat): (n: nat)
    requires from <= |s|
    ensures from <= n <= |s|
    ensures forall i :: from <= i < n ==> !IsSpace(s[i])
    ensures n < |s| ==> IsSpace(s[n])
    decreases |s| - from
  {
    if from < |s| && !IsSpace(s[from]) then WordLength(s, from + 1) else from
  }

  /** `s.count(q)`: the number of non-overlapping occurrences, scanning left to right. */
  function CountOf(s: string, q: string): (n: nat)
    ensures q != [] ==> (n > 0 <==> Contains(s, q))
    ensures q == [] ==> n == |s| + 1
    decreases |s|
  {
    if q == [] then |s| + 1
    else
      var i := FindFrom(s, q, 0);
      if i == -1 then
        NoOccurrence(s, q);
        0
      else
        ContainsAt(s, q, i);
        1 + CountOf(s[i + |q|..], q)
  }

  /**
   * Counting takes the leftmost occurrence and resumes after it, so the
   * occurrences counted never overlap.
   */
  lemma CountOfFirst(s: string, q: string, a: string, b: string)
    requires q != [] && s == a + q + b
    requires forall j :: 0 <= j < |a| ==> !OccursAt(s, q, j)
    ensures CountOf(s, q) == 1 + CountOf(b, q)
  {
    assert s[|a|..|a| + |q|] == q;
    assert OccursAt(s, q, |a|);
    var i := FindFrom(s, q, 0);
    assert i == |a|;
    assert s[i + |q|..] == b;
  }

  lemma NoOccurrence(s: string, q: string)
    requires |q| > 0 && FindFrom(s, q, 0) == -1
    ensures !Contains(s, q)
  {
    ContainsIff(s, q);
  }

  /** Python's `a < b` on strings: lexicographic by code point, a proper prefix first. */
  predicate StrLess(a: string, b: string)
    decreases |a|
  {
    if a == [] then b != []
    else if b == [] then false
    else a[0] < b[0] || (a[0] == b[0] && StrLess(a[1..], b[1..]))
  }

  lemma {:induction false} StrLessIrreflexive(a: string)
    ensures !StrLess(a, a)
    decreases |a|
  {
    if a != [] {
      StrLessIrreflexive(a[1..]);
    }
  }

  lemma {:induction false} StrLessTransitive(a: string, b: string, c: string)
    requires StrLess(a, b) && StrLess(b, c)
    ensures StrLess(a, c)
    decreases |a|
  {
    if a != [] && b != [] && c != [] && a[0] == b[0] && b[0] == c[0] {
      StrLessTransitive(a[1..], b[1..], c[1..]);
    }
  }

  /** Two different strings are always ordered one way or the other. */
  lemma {:induction false} StrLessTotal(a: string, b: string)
    requires a != b
    ensures StrLess(a, b) || StrLess(b, a)
    decreases |a|
  {
    if a != [] && b != [] && a[0] == b[0] {
      assert a == [a[0]] + a[1..] && b == [b[0]] + b[1..];
      StrLessTotal(a[1..], b[1..]);
    }
  }
}
