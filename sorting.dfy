/** `Array.prototype.sort` with a newest-first comparator, as the pipeline
    uses it for commits, and the ordering promise of the question query. */
module Sorting {

  /** Keys never increase along the sequence: newest first. */
  predicate SortedDesc<T>(s: seq<T>, key: T -> int) {
    forall i, j :: 0 <= i < j < |s| ==> key(s[i]) >= key(s[j])
  }

  /** The elements of `s` whose key is `k`, in their order in `s`. */
  function WithKey<T>(s: seq<T>, key: T -> int, k: int): seq<T> {
    if s == [] then [] else (if key(s[0]) == k then [s[0]] else []) + WithKey(s[1..], key, k)
  }

  /** Places `x` before the first element whose key is not larger. */
  function Insert<T>(x: T, s: seq<T>, key: T -> int): (r: seq<T>)
    ensures |r| == |s| + 1
  {
    if s == [] || key(x) >= key(s[0]) then [x] + s
    else [s[0]] + Insert(x, s[1..], key)
  }

  /** Inserting into a newest-first sequence keeps it newest first, adds
      exactly `x`, and puts in front either `x` or the old front. */
  lemma {:induction false} InsertSorted<T>(x: T, s: seq<T>, key: T -> int)
    requires SortedDesc(s, key)
    ensures SortedDesc(Insert(x, s, key), key)
    ensures multiset(Insert(x, s, key)) == multiset(s) + multiset{x}
    ensures Insert(x, s, key)[0] == x || (s != [] && Insert(x, s, key)[0] == s[0])
  {
    if s == [] || key(x) >= key(s[0]) {
      assert Insert(x, s, key) == [x] + s;
    } else {
      var t := Insert(x, s[1..], key);
      assert Insert(x, s, key) == [s[0]] + t;
      assert s == [s[0]] + s[1..];
      InsertSorted(x, s[1..], key);
      assert key(t[0]) <= key(s[0]);
    }
  }

  /** `s.sort((a, b) => key(b) - key(a))`: the stable sort that puts larger
      keys first. */
  function SortDesc<T>(s: seq<T>, key: T -> int): (r: seq<T>)
    ensures SortedDesc(r, key)
    ensures multiset(r) == multiset(s) && |r| == |s|
  {
    if s == [] then []
    else
      assert s == [s[0]] + s[1..];
      InsertSorted(s[0], SortDesc(s[1..], key), key);
      Insert(s[0], SortDesc(s[1..], key), key)
  }

  /** In a newest-first sequence nothing after position `n` is newer than
      anything before it. */
  lemma PrefixDominates<T>(s: seq<T>, key: T -> int, n: nat, x: T)
    requires SortedDesc(s, key) && n <= |s| && x in s[n..]
    ensures forall i :: 0 <= i < n ==> key(s[i]) >= key(x)
  {
    var j :| 0 <= j < |s[n..]| && s[n..][j] == x;
    assert s[n + j] == x;
  }

  /** What a sorted prefix leaves out is never larger than what it keeps. */
  lemma PrefixKeepsLargest<T>(s: seq<T>, key: T -> int, n: nat)
    requires SortedDesc(s, key) && n <= |s|
    ensures forall x, i :: x in multiset(s) - multiset(s[..n]) && 0 <= i < n ==> key(x) <= key(s[..n][i])
  {
    var rest := s[n..];
    assert multiset(s) == multiset(s[..n]) + multiset(rest) by {
      assert s == s[..n] + rest;
    }
    forall x, i | x in multiset(s) - multiset(s[..n]) && 0 <= i < n
      ensures key(x) <= key(s[..n][i])
    {
      assert multiset(rest)[x] > 0;
      PrefixDominates(s, key, n, x);
    }
  }

  lemma {:induction false} InsertStable<T>(x: T, s: seq<T>, key: T -> int, k: int)
    ensures WithKey(Insert(x, s, key), key, k) == (if key(x) == k then [x] else []) + WithKey(s, key, k)
  {
    if s == [] || key(x) >= key(s[0]) {
      assert Insert(x, s, key) == [x] + s;
      assert ([x] + s)[1..] == s;
    } else {
      var t := Insert(x, s[1..], key);
      var r := [s[0]] + t;
      assert Insert(x, s, key) == r;
      assert r[0] == s[0] && r[1..] == t;
      var own := if key(s[0]) == k then [s[0]] else [];
      assert WithKey(r, key, k) == own + WithKey(t, key, k);
      assert WithKey(s, key, k) == own + WithKey(s[1..], key, k);
      InsertStable(x, s[1..], key, k);
      if key(x) == k {
        assert own == [];
      } else {
        assert WithKey(t, key, k) == WithKey(s[1..], key, k);
      }
    }
  }

  /** The sort is stable: elements with equal keys keep their relative order. */
  lemma {:induction false} SortStable<T>(s: seq<T>, key: T -> int, k: int)
    ensures WithKey(SortDesc(s, key), key, k) == WithKey(s, key, k)
  {
    if s != [] {
      SortStable(s[1..], key, k);
      InsertStable(s[0], SortDesc(s[1..], key), key, k);
    }
  }
}
