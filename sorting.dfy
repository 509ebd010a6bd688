/** `Array.prototype.sort` with a comparator of the form `(a, b) => key(b) - key(a)`, as the
    source uses it: a stable sort into non-increasing key order. It is modelled as insertion
    sort on values; the properties proved are the ones a caller relies on: the output is
    ordered, it is a rearrangement of the input, and elements with equal keys keep their
    relative order. */
module Sorting {

  predicate SortedDesc<T>(s: seq<T>, key: T -> int) {
    forall i, j :: 0 <= i < j < |s| ==> key(s[i]) >= key(s[j])
  }

  /** Ordered neighbours make an ordered sequence. */
  lemma {:induction false} SortedDescFromNeighbours<T>(s: seq<T>, key: T -> int)
    requires forall i :: 0 <= i < |s| - 1 ==> key(s[i]) >= key(s[i + 1])
    ensures SortedDesc(s, key)
  {
    if |s| > 1 {
      SortedDescFromNeighbours(s[1..], key);
      forall j | 0 < j < |s| ensures key(s[0]) >= key(s[j]) {
        if j > 1 { assert key(s[1..][0]) >= key(s[1..][j - 1]); }
      }
      forall i, j | 0 <= i < j < |s| ensures key(s[i]) >= key(s[j]) {
        if i > 0 { assert key(s[1..][i - 1]) >= key(s[1..][j - 1]); }
      }
    }
  }

  /** Inserts `x` in front of the first element whose key is not larger than its own, so that
      `x` stays ahead of the later elements with the same key. */
  function InsertDesc<T>(x: T, s: seq<T>, key: T -> int): (r: seq<T>)
    ensures |r| == |s| + 1
    ensures multiset(r) == multiset(s) + multiset{x}
    ensures SortedDesc(s, key) ==> SortedDesc(r, key)
  {
    if s == [] || key(s[0]) <= key(x) then
      assert SortedDesc(s, key) ==> SortedDesc([x] + s, key) by {
        if SortedDesc(s, key) {
          ConsSorted(x, s, key);
        }
      }
      [x] + s
    else
      var tail := InsertDesc(x, s[1..], key);
      assert s == [s[0]] + s[1..];
      assert SortedDesc(s, key) ==> SortedDesc([s[0]] + tail, key) by {
        if SortedDesc(s, key) {
          HeadBoundsTail(s, key);
          BoundedByMultiset(tail, s[1..], x, key, key(s[0]));
          SortedDescTail(s, key);
          ConsSorted(s[0], tail, key);
        }
      }
      [s[0]] + tail
  }

  lemma SortedDescPrefix<T>(s: seq<T>, n: nat, key: T -> int)
    requires SortedDesc(s, key) && n <= |s|
    ensures SortedDesc(s[..n], key)
  {
    forall i, j | 0 <= i < j < n ensures key(s[..n][i]) >= key(s[..n][j]) {
      assert s[..n][i] == s[i] && s[..n][j] == s[j];
    }
  }

  /** `h` in front of an ordered list whose keys it bounds gives an ordered list. */
  lemma ConsSorted<T>(h: T, tail: seq<T>, key: T -> int)
    requires SortedDesc(tail, key)
    requires tail == [] || key(h) >= key(tail[0])
    ensures SortedDesc([h] + tail, key)
  {
    var r := [h] + tail;
    forall i, j | 0 <= i < j < |r| ensures key(r[i]) >= key(r[j]) {
      if i == 0 {
        assert r[j] == tail[j - 1];
        if j > 1 { assert key(tail[0]) >= key(tail[j - 1]); }
      } else {
        assert r[i] == tail[i - 1] && r[j] == tail[j - 1];
      }
    }
  }

  lemma HeadBoundsTail<T>(s: seq<T>, key: T -> int)
    requires SortedDesc(s, key) && s != []
    ensures forall y :: y in s[1..] ==> key(y) <= key(s[0])
  {
    forall y | y in s[1..] ensures key(y) <= key(s[0]) {
      var j :| 0 <= j < |s[1..]| && s[1..][j] == y;
      assert s[j + 1] == y;
    }
  }

  lemma SortedDescTail<T>(s: seq<T>, key: T -> int)
    requires SortedDesc(s, key) && s != []
    ensures SortedDesc(s[1..], key)
  {
    forall i, j | 0 <= i < j < |s[1..]| ensures key(s[1..][i]) >= key(s[1..][j]) {
      assert s[1..][i] == s[i + 1] && s[1..][j] == s[j + 1];
    }
  }

  /** A bound on the keys of `s` and of `x` bounds the keys of any rearrangement of them. */
  lemma BoundedByMultiset<T>(t: seq<T>, s: seq<T>, x: T, key: T -> int, b: int)
    requires multiset(t) == multiset(s) + multiset{x}
    requires key(x) <= b && forall y :: y in s ==> key(y) <= b
    ensures t == [] || key(t[0]) <= b
  {
    if t != [] {
      assert t[0] in multiset(t);
      assert t[0] in multiset(s) || t[0] == x;
    }
  }

  /** The stable descending sort. */
  function SortDesc<T>(s: seq<T>, key: T -> int): (r: seq<T>)
    ensures |r| == |s|
    ensures multiset(r) == multiset(s)
    ensures SortedDesc(r, key)
  {
    if s == [] then [] else
      assert s == [s[0]] + s[1..];
      InsertDesc(s[0], SortDesc(s[1..], key), key)
  }

  /** The elements of `s` whose key is `k`, in their order in `s`. */
  function WithKey<T>(s: seq<T>, key: T -> int, k: int): seq<T> {
    if s == [] then [] else (if key(s[0]) == k then [s[0]] else []) + WithKey(s[1..], key, k)
  }

  lemma {:induction false} InsertDescWithKey<T>(x: T, s: seq<T>, key: T -> int, k: int)
    ensures WithKey(InsertDesc(x, s, key), key, k)
         == (if key(x) == k then [x] else []) + WithKey(s, key, k)
  {
    InsertDescCases(x, s, key);
    if s == [] || key(s[0]) <= key(x) {
      WithKeyCons(x, s, key, k);
    } else {
      var tail := InsertDesc(x, s[1..], key);
      WithKeyCons(s[0], tail, key, k);
      InsertDescWithKey(x, s[1..], key, k);
      assert s == [s[0]] + s[1..];
      WithKeyCons(s[0], s[1..], key, k);
      var hs: seq<T> := if key(s[0]) == k then [s[0]] else [];
      var hx: seq<T> := if key(x) == k then [x] else [];
      var ws := WithKey(s[1..], key, k);
      // s[0] and x have different keys, so at most one of them carries k
      assert hs == [] || hx == [];
      assert hs + (hx + ws) == hx + (hs + ws);
    }
  }

  /** The two ways an insertion goes: in front, or after the head. */
  lemma InsertDescCases<T>(x: T, s: seq<T>, key: T -> int)
    ensures s == [] || key(s[0]) <= key(x) ==> InsertDesc(x, s, key) == [x] + s
    ensures s != [] && key(s[0]) > key(x) ==> InsertDesc(x, s, key) == [s[0]] + InsertDesc(x, s[1..], key)
  {
  }

  lemma WithKeyCons<T>(h: T, t: seq<T>, key: T -> int, k: int)
    ensures WithKey([h] + t, key, k) == (if key(h) == k then [h] else []) + WithKey(t, key, k)
  {
    assert ([h] + t)[0] == h && ([h] + t)[1..] == t;
  }

  /** Stability: for every key value, the elements carrying it appear in the sorted output
      in the same order as in the input. */
  lemma {:induction false} SortDescStable<T>(s: seq<T>, key: T -> int, k: int)
    ensures WithKey(SortDesc(s, key), key, k) == WithKey(s, key, k)
  {
    if s != [] {
      SortDescStable(s[1..], key, k);
      InsertDescWithKey(s[0], SortDesc(s[1..], key), key, k);
    }
  }

  /** When every element has the same key, the sort leaves the sequence as it was. */
  lemma {:induction false} SortDescConstantKey<T>(s: seq<T>, key: T -> int, k: int)
    requires forall i :: 0 <= i < |s| ==> key(s[i]) == k
    ensures SortDesc(s, key) == s
  {
    if s != [] {
      SortDescConstantKey(s[1..], key, k);
      assert SortDesc(s[1..], key) == s[1..];
      if s[1..] != [] {
        assert key(s[1..][0]) == k;
      }
    }
  }

  /** Sum of `f` over a sequence (`reduce((sum, x) => sum + f(x), 0)`). */
  function SumOf<T>(s: seq<T>, f: T -> int): int {
    if s == [] then 0 else f(s[0]) + SumOf(s[1..], f)
  }

  lemma {:induction false} SumOfAppend<T>(a: seq<T>, b: seq<T>, f: T -> int)
    ensures SumOf(a + b, f) == SumOf(a, f) + SumOf(b, f)
  {
    if a != [] {
      assert (a + b)[1..] == a[1..] + b;
      SumOfAppend(a[1..], b, f);
    } else {
      assert a + b == b;
    }
  }

  lemma {:induction false} SumOfInsertDesc<T>(x: T, s: seq<T>, key: T -> int, f: T -> int)
    ensures SumOf(InsertDesc(x, s, key), f) == f(x) + SumOf(s, f)
  {
    if s == [] || key(s[0]) <= key(x) {
      assert ([x] + s)[1..] == s;
    } else {
      var tail := InsertDesc(x, s[1..], key);
      assert ([s[0]] + tail)[1..] == tail;
      SumOfInsertDesc(x, s[1..], key, f);
    }
  }

  /** Sorting does not change the sum of any quantity over the sequence. */
  lemma {:induction false} SumOfSortDesc<T>(s: seq<T>, key: T -> int, f: T -> int)
    ensures SumOf(SortDesc(s, key), f) == SumOf(s, f)
  {
    if s != [] {
      SumOfSortDesc(s[1..], key, f);
      SumOfInsertDesc(s[0], SortDesc(s[1..], key), key, f);
    }
  }
}
