/**
 * Stable sorting by a numeric key, largest key first. Both JavaScript's
 * `Array.prototype.sort` (with a comparator returning `keyB - keyA`) and
 * Python's `list.sort(key=..., reverse=True)` are stable, so their result is
 * determined uniquely: `SortDesc` below, a stable insertion sort.
 */
module Ranking {

  /** Keys never increase from left to right. */
  ghost predicate SortedDesc<T>(s: seq<T>, key: T -> int) {
    forall i, j :: 0 <= i < j < |s| ==> key(s[i]) >= key(s[j])
  }

  /** The elements of `s` whose key is `k`, in their order in `s`. */
  function WithKey<T>(s: seq<T>, key: T -> int, k: int): (r: seq<T>)
    ensures |r| <= |s|
  {
    if s == [] then []
    else (if key(s[0]) == k then [s[0]] else []) + WithKey(s[1..], key, k)
  }

  /** Insert `x` after every element whose key is at least `key(x)`. */
  function InsertDesc<T>(x: T, s: seq<T>, key: T -> int): (r: seq<T>)
    ensures multiset(r) == multiset(s) + multiset{x}
    ensures |r| == |s| + 1
  {
    if s == [] then [x]
    else if key(s[0]) >= key(x) then
      assert s == [s[0]] + s[1..];
      [s[0]] + InsertDesc(x, s[1..], key)
    else [x] + s
  }

  /** The stable sort of `s` by descending key. */
  function SortDesc<T>(s: seq<T>, key: T -> int): (r: seq<T>)
    ensures multiset(r) == multiset(s)
    ensures |r| == |s|
  {
    if s == [] then []
    else
      assert s == s[..|s| - 1] + [s[|s| - 1]];
      InsertDesc(s[|s| - 1], SortDesc(s[..|s| - 1], key), key)
  }

  lemma {:induction false} WithKeyAppend<T>(s: seq<T>, t: seq<T>, key: T -> int, k: int)
    ensures WithKey(s + t, key, k) == WithKey(s, key, k) + WithKey(t, key, k)
    decreases |s|
  {
    if s == [] {
      assert s + t == t;
    } else {
      var st := s + t;
      var h := if key(s[0]) == k then [s[0]] else [];
      assert st[0] == s[0] && st[1..] == s[1..] + t;
      assert WithKey(st, key, k) == h + WithKey(s[1..] + t, key, k);
      WithKeyAppend(s[1..], t, key, k);
    }
  }

  lemma {:induction false} InsertSorted<T>(x: T, s: seq<T>, key: T -> int)
    requires SortedDesc(s, key)
    ensures SortedDesc(InsertDesc(x, s, key), key)
    decreases |s|
  {
    if s != [] && key(s[0]) >= key(x) {
      InsertSorted(x, s[1..], key);
      var r := InsertDesc(x, s[1..], key);
      assert multiset(r) == multiset(s[1..]) + multiset{x};
      forall j | 0 <= j < |r| ensures key(s[0]) >= key(r[j]) {
        assert r[j] in multiset(r);
        if r[j] != x {
          assert r[j] in multiset(s[1..]);
          var m :| 0 <= m < |s[1..]| && s[1..][m] == r[j];
          assert s[1..][m] == s[m + 1];
        }
      }
    }
  }

  /** Inserting `x` appends it to the elements of its own key and leaves every other key alone. */
  lemma {:induction false} InsertWithKey<T>(x: T, s: seq<T>, key: T -> int, k: int)
    requires SortedDesc(s, key)
    ensures WithKey(InsertDesc(x, s, key), key, k)
         == WithKey(s, key, k) + (if key(x) == k then [x] else [])
    decreases |s|
  {
    if s == [] {
    } else if key(s[0]) >= key(x) {
      InsertWithKey(x, s[1..], key, k);
      InsertBehind(x, s, key, k);
    } else {
      InsertInFront(x, s, key, k);
    }
  }

  /** `x` goes behind the head: the head's contribution comes first. */
  lemma InsertBehind<T>(x: T, s: seq<T>, key: T -> int, k: int)
    requires s != [] && key(s[0]) >= key(x)
    requires WithKey(InsertDesc(x, s[1..], key), key, k)
          == WithKey(s[1..], key, k) + (if key(x) == k then [x] else [])
    ensures WithKey(InsertDesc(x, s, key), key, k)
         == WithKey(s, key, k) + (if key(x) == k then [x] else [])
  {
    var r := InsertDesc(x, s[1..], key);
    assert InsertDesc(x, s, key) == [s[0]] + r;
    assert ([s[0]] + r)[0] == s[0] && ([s[0]] + r)[1..] == r;
    var h := if key(s[0]) == k then [s[0]] else [];
    var tail := if key(x) == k then [x] else [];
    var rest := WithKey(s[1..], key, k);
    assert WithKey([s[0]] + r, key, k) == h + (rest + tail);
    assert WithKey(s, key, k) == h + rest;
    ConcatAssoc(h, rest, tail);
  }

  lemma ConcatAssoc<T>(a: seq<T>, b: seq<T>, c: seq<T>)
    ensures a + (b + c) == (a + b) + c
  {
  }

  /** `x` goes in front of a sorted list whose keys are all below its own. */
  lemma InsertInFront<T>(x: T, s: seq<T>, key: T -> int, k: int)
    requires SortedDesc(s, key) && s != [] && key(s[0]) < key(x)
    ensures WithKey(InsertDesc(x, s, key), key, k)
         == WithKey(s, key, k) + (if key(x) == k then [x] else [])
  {
    assert InsertDesc(x, s, key) == [x] + s;
    assert ([x] + s)[0] == x && ([x] + s)[1..] == s;
    if key(x) == k {
      forall j | 0 <= j < |s| ensures key(s[j]) != k {
        if j > 0 { assert key(s[0]) >= key(s[j]); }
      }
      WithKeyNone(s, key, k);
      assert WithKey([x] + s, key, k) == [x] + WithKey(s, key, k);
    } else {
      assert WithKey([x] + s, key, k) == WithKey(s, key, k);
    }
  }

  lemma {:induction false} WithKeyNone<T>(s: seq<T>, key: T -> int, k: int)
    requires forall j :: 0 <= j < |s| ==> key(s[j]) != k
    ensures WithKey(s, key, k) == []
    decreases |s|
  {
    if s != [] {
      WithKeyNone(s[1..], key, k);
    }
  }

  /** The result is ordered by non-increasing key. */
  lemma {:induction false} SortDescSorted<T>(s: seq<T>, key: T -> int)
    ensures SortedDesc(SortDesc(s, key), key)
    decreases |s|
  {
    if s != [] {
      SortDescSorted(s[..|s| - 1], key);
      InsertSorted(s[|s| - 1], SortDesc(s[..|s| - 1], key), key);
    }
  }

  /** Stability: for every key, the elements of that key keep their input order. */
  lemma {:induction false} SortDescStable<T>(s: seq<T>, key: T -> int, k: int)
    ensures WithKey(SortDesc(s, key), key, k) == WithKey(s, key, k)
    decreases |s|
  {
    if s != [] {
      var init, last := s[..|s| - 1], s[|s| - 1];
      assert init + [last] == s;
      var tailPart := if key(last) == k then [last] else [];
      calc {
        WithKey(SortDesc(s, key), key, k);
        { SortedStep(init, last, key, k); }
        WithKey(SortDesc(init, key), key, k) + tailPart;
        { SortDescStable(init, key, k); }
        WithKey(init, key, k) + tailPart;
        { InputStep(init, last, key, k); }
        WithKey(s, key, k);
      }
    }
  }

  lemma SortedStep<T>(init: seq<T>, last: T, key: T -> int, k: int)
    ensures WithKey(SortDesc(init + [last], key), key, k)
         == WithKey(SortDesc(init, key), key, k) + (if key(last) == k then [last] else [])
  {
    var s := init + [last];
    assert s[..|s| - 1] == init && s[|s| - 1] == last;
    SortDescSorted(init, key);
    InsertWithKey(last, SortDesc(init, key), key, k);
  }

  lemma InputStep<T>(init: seq<T>, last: T, key: T -> int, k: int)
    ensures WithKey(init + [last], key, k) == WithKey(init, key, k) + (if key(last) == k then [last] else [])
  {
    WithKeyAppend(init, [last], key, k);
    assert [last][1..] == [];
  }

  /** Sorting a list that is already ordered by non-increasing key changes nothing. */
  lemma {:induction false} SortDescOfSorted<T>(s: seq<T>, key: T -> int)
    requires SortedDesc(s, key)
    ensures SortDesc(s, key) == s
    decreases |s|
  {
    if s != [] {
      var init, last := s[..|s| - 1], s[|s| - 1];
      SortDescOfSorted(init, key);
      InsertAtEnd(last, init, key);
      assert init + [last] == s;
    }
  }

  lemma {:induction false} InsertAtEnd<T>(x: T, s: seq<T>, key: T -> int)
    requires forall j :: 0 <= j < |s| ==> key(s[j]) >= key(x)
    ensures InsertDesc(x, s, key) == s + [x]
    decreases |s|
  {
    if s != [] {
      InsertAtEnd(x, s[1..], key);
      assert s == [s[0]] + s[1..];
    }
  }
}
