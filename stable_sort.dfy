/**
 * Stable sorting by a key, as Python's `sorted(xs, key=f)` does it: each
 * element goes after every earlier element whose key is no larger.
 */
module StableSort {

  predicate SortedBy<T>(s: seq<T>, key: T -> nat) {
    forall i, j :: 0 <= i < j < |s| ==> key(s[i]) <= key(s[j])
  }

  /** The elements with key `k`, in their order in `s`. */
  function WithKey<T>(s: seq<T>, key: T -> nat, k: nat): (r: seq<T>)
    ensures |r| <= |s|
    decreases |s|
  {
    if s == [] then []
    else WithKey(s[..|s| - 1], key, k) + (if key(s[|s| - 1]) == k then [s[|s| - 1]] else [])
  }

  /** `x` placed before the first element of `s` with a larger key. */
  function Insert<T>(x: T, s: seq<T>, key: T -> nat): (r: seq<T>)
    ensures |r| == |s| + 1
    decreases |s|
  {
    if s == [] then [x]
    else if key(s[0]) > key(x) then [x] + s
    else [s[0]] + Insert(x, s[1..], key)
  }

  function SortBy<T>(s: seq<T>, key: T -> nat): (r: seq<T>)
    ensures |r| == |s|
    decreases |s|
  {
    if s == [] then [] else Insert(s[|s| - 1], SortBy(s[..|s| - 1], key), key)
  }

  lemma {:induction false} InsertPermutes<T>(x: T, s: seq<T>, key: T -> nat)
    ensures multiset(Insert(x, s, key)) == multiset(s) + multiset{x}
    decreases |s|
  {
    if s != [] && key(s[0]) <= key(x) {
      InsertPermutes(x, s[1..], key);
      assert s == [s[0]] + s[1..];
    }
  }

  lemma {:induction false} InsertSorted<T>(x: T, s: seq<T>, key: T -> nat)
    requires SortedBy(s, key)
    ensures SortedBy(Insert(x, s, key), key)
    ensures Insert(x, s, key)[0] == x || (s != [] && Insert(x, s, key)[0] == s[0])
    decreases |s|
  {
    if s != [] && key(s[0]) <= key(x) {
      var t := Insert(x, s[1..], key);
      InsertSorted(x, s[1..], key);
      assert key(s[0]) <= key(t[0]) by {
        if t[0] != x {
          assert s[1..][0] == s[1];
        }
      }
      assert Insert(x, s, key) == [s[0]] + t;
    }
  }

  /** Filtering works from the front too. */
  lemma {:induction false} WithKeyCons<T>(x: T, s: seq<T>, key: T -> nat, k: nat)
    ensures WithKey([x] + s, key, k) == (if key(x) == k then [x] else []) + WithKey(s, key, k)
    decreases |s|
  {
    if s != [] {
      var n := |s| - 1;
      WithKeyCons(x, s[..n], key, k);
      assert ([x] + s)[..|s|] == [x] + s[..n];
      assert ([x] + s)[|s|] == s[n];
    }
  }

  /** A sorted list whose first key is above `k` has no element with key `k`. */
  lemma {:induction false} NoSmallerKey<T>(s: seq<T>, key: T -> nat, k: nat)
    requires SortedBy(s, key) && s != [] && key(s[0]) > k
    ensures WithKey(s, key, k) == []
    decreases |s|
  {
    var n := |s| - 1;
    if n > 0 {
      assert SortedBy(s[..n], key) && s[..n][0] == s[0];
      NoSmallerKey(s[..n], key, k);
    }
  }

  /** Inserting into a sorted list puts `x` after every element with its key and moves no other element. */
  lemma {:induction false} InsertWithKey<T>(x: T, s: seq<T>, key: T -> nat, k: nat)
    requires SortedBy(s, key)
    ensures WithKey(Insert(x, s, key), key, k) == WithKey(s, key, k) + (if key(x) == k then [x] else [])
    decreases |s|
  {
    if s == [] {
      WithKeyCons(x, [], key, k);
    } else if key(s[0]) > key(x) {
      InsertFirst(x, s, key, k);
    } else {
      assert SortedBy(s[1..], key);
      InsertWithKey(x, s[1..], key, k);
      InsertLater(x, s, key, k);
    }
  }

  lemma InsertFirst<T>(x: T, s: seq<T>, key: T -> nat, k: nat)
    requires SortedBy(s, key) && s != [] && key(s[0]) > key(x)
    ensures WithKey(Insert(x, s, key), key, k) == WithKey(s, key, k) + (if key(x) == k then [x] else [])
  {
    assert Insert(x, s, key) == [x] + s;
    WithKeyCons(x, s, key, k);
    if key(x) == k {
      NoSmallerKey(s, key, k);
    }
  }

  lemma InsertLater<T>(x: T, s: seq<T>, key: T -> nat, k: nat)
    requires s != [] && key(s[0]) <= key(x)
    requires WithKey(Insert(x, s[1..], key), key, k) == WithKey(s[1..], key, k) + (if key(x) == k then [x] else [])
    ensures WithKey(Insert(x, s, key), key, k) == WithKey(s, key, k) + (if key(x) == k then [x] else [])
  {
    var rest := s[1..];
    var inserted := Insert(x, rest, key);
    assert Insert(x, s, key) == [s[0]] + inserted;
    WithKeyCons(s[0], inserted, key, k);
    WithKeyCons(s[0], rest, key, k);
    assert [s[0]] + rest == s;
  }

  /** The sort permutes, orders by key, and keeps the order within each key. */
  lemma SortByStable<T>(s: seq<T>, key: T -> nat)
    ensures multiset(SortBy(s, key)) == multiset(s)
    ensures SortedBy(SortBy(s, key), key)
    ensures forall k :: WithKey(SortBy(s, key), key, k) == WithKey(s, key, k)
  {
    SortByPermutes(s, key);
    SortBySorted(s, key);
    forall k ensures WithKey(SortBy(s, key), key, k) == WithKey(s, key, k) {
      SortByFilters(s, key, k);
    }
  }

  lemma {:induction false} SortByPermutes<T>(s: seq<T>, key: T -> nat)
    ensures multiset(SortBy(s, key)) == multiset(s)
    decreases |s|
  {
    if s != [] {
      var n := |s| - 1;
      SortByPermutes(s[..n], key);
      InsertPermutes(s[n], SortBy(s[..n], key), key);
      assert s[..n] + [s[n]] == s;
    }
  }

  lemma {:induction false} SortBySorted<T>(s: seq<T>, key: T -> nat)
    ensures SortedBy(SortBy(s, key), key)
    decreases |s|
  {
    if s != [] {
      var n := |s| - 1;
      SortBySorted(s[..n], key);
      InsertSorted(s[n], SortBy(s[..n], key), key);
    }
  }

  lemma {:induction false} SortByFilters<T>(s: seq<T>, key: T -> nat, k: nat)
    ensures WithKey(SortBy(s, key), key, k) == WithKey(s, key, k)
    decreases |s|
  {
    if s != [] {
      var n := |s| - 1;
      SortByFilters(s[..n], key, k);
      SortBySorted(s[..n], key);
      InsertWithKey(s[n], SortBy(s[..n], key), key, k);
    }
  }

  lemma {:induction false} WithKeyHas<T>(s: seq<T>, key: T -> nat, i: nat)
    requires i < |s|
    ensures WithKey(s, key, key(s[i])) != []
    decreases |s|
  {
    var n := |s| - 1;
    if i < n {
      assert s[..n][i] == s[i];
      WithKeyHas(s[..n], key, i);
    }
  }

  lemma WithKeyHasLast<T>(s: seq<T>, key: T -> nat)
    ensures s != [] ==> WithKey(s, key, key(s[|s| - 1])) != []
  {
  }

  /** A key that has elements in a sorted list is at most the list's last key. */
  lemma {:induction false} KeyOccurs<T>(s: seq<T>, key: T -> nat, k: nat)
    requires SortedBy(s, key) && WithKey(s, key, k) != []
    ensures s != [] && k <= key(s[|s| - 1])
    decreases |s|
  {
    var n := |s| - 1;
    if key(s[n]) != k {
      assert SortedBy(s[..n], key);
      KeyOccurs(s[..n], key, k);
      assert s[..n][n - 1] == s[n - 1];
    }
  }

  /** Only one list is sorted by key and has given elements, in given order, for every key. */
  lemma {:induction false} StableOrderUnique<T>(a: seq<T>, b: seq<T>, key: T -> nat)
    requires SortedBy(a, key) && SortedBy(b, key)
    requires forall k :: WithKey(a, key, k) == WithKey(b, key, k)
    ensures a == b
    decreases |a|
  {
    if a == [] || b == [] {
      WithKeyHasLast(a, key);
      WithKeyHasLast(b, key);
      if a != [] || b != [] {
        assert false;
      }
    } else {
      var n, m := |a| - 1, |b| - 1;
      var x, y := a[n], b[m];
      // the last key of each list occurs in the other, so the two last keys are equal
      assert key(y) <= key(x) by {
        WithKeyHas(b, key, m);
        assert WithKey(a, key, key(y)) == WithKey(b, key, key(y));
        KeyOccurs(a, key, key(y));
      }
      assert key(x) <= key(y) by {
        WithKeyHas(a, key, n);
        assert WithKey(b, key, key(x)) == WithKey(a, key, key(x));
        KeyOccurs(b, key, key(x));
      }
      var big := key(x);
      var wa, wb := WithKey(a[..n], key, big), WithKey(b[..m], key, big);
      assert a[..n] == a[..|a| - 1] && b[..m] == b[..|b| - 1];
      assert WithKey(a, key, big) == wa + [x];
      assert WithKey(b, key, big) == wb + [y];
      assert x == y by {
        assert (wa + [x])[|wa|] == x;
        assert (wb + [y])[|wb|] == y;
        assert |wa| == |wb|;
      }
      forall k ensures WithKey(a[..n], key, k) == WithKey(b[..m], key, k) {
        var t: seq<T> := if big == k then [x] else [];
        var ua, ub := WithKey(a[..n], key, k), WithKey(b[..m], key, k);
        assert WithKey(a, key, k) == ua + t;
        assert WithKey(b, key, k) == ub + t;
        assert ua == (ua + t)[..|ua|];
        assert ub == (ub + t)[..|ub|];
      }
      assert SortedBy(a[..n], key) && SortedBy(b[..m], key);
      StableOrderUnique(a[..n], b[..m], key);
      assert a == a[..n] + [x] && b == b[..m] + [y];
    }
  }

  /** Every element of `WithKey(s, key, k)` is an element of `s`, with key `k`. */
  lemma {:induction false} WithKeyFrom<T>(s: seq<T>, key: T -> nat, k: nat)
    ensures forall i :: 0 <= i < |WithKey(s, key, k)| ==> WithKey(s, key, k)[i] in s && key(WithKey(s, key, k)[i]) == k
    decreases |s|
  {
    if s != [] {
      var n := |s| - 1;
      WithKeyFrom(s[..n], key, k);
      assert forall x :: x in s[..n] ==> x in s;
    }
  }

  lemma {:induction false} WithKeyMember<T>(s: seq<T>, key: T -> nat, i: nat)
    requires i < |s|
    ensures exists p :: 0 <= p < |WithKey(s, key, key(s[i]))| && WithKey(s, key, key(s[i]))[p] == s[i]
    decreases |s|
  {
    var n := |s| - 1;
    var k := key(s[i]);
    if i < n {
      assert s[..n][i] == s[i];
      WithKeyMember(s[..n], key, i);
      var p :| 0 <= p < |WithKey(s[..n], key, k)| && WithKey(s[..n], key, k)[p] == s[i];
      assert WithKey(s, key, k)[p] == s[i];
    } else {
      assert WithKey(s, key, k)[|WithKey(s[..n], key, k)|] == s[i];
    }
  }

  /** Two elements with the same key occur in that order in the key's filter. */
  lemma {:induction false} PositionInFilter<T>(s: seq<T>, key: T -> nat, i: nat, j: nat)
    requires i < j < |s| && key(s[i]) == key(s[j])
    ensures exists p, q :: 0 <= p < q < |WithKey(s, key, key(s[i]))|
                           && WithKey(s, key, key(s[i]))[p] == s[i] && WithKey(s, key, key(s[i]))[q] == s[j]
    decreases |s|
  {
    var n := |s| - 1;
    var k := key(s[i]);
    if j < n {
      assert s[..n][i] == s[i] && s[..n][j] == s[j];
      PositionInFilter(s[..n], key, i, j);
      var p, q :| 0 <= p < q < |WithKey(s[..n], key, k)| && WithKey(s[..n], key, k)[p] == s[i] && WithKey(s[..n], key, k)[q] == s[j];
      assert WithKey(s, key, k)[p] == s[i] && WithKey(s, key, k)[q] == s[j];
    } else {
      assert s[..n][i] == s[i];
      WithKeyMember(s[..n], key, i);
      var p :| 0 <= p < |WithKey(s[..n], key, k)| && WithKey(s[..n], key, k)[p] == s[i];
      assert WithKey(s, key, k)[p] == s[i] && WithKey(s, key, k)[|WithKey(s[..n], key, k)|] == s[j];
    }
  }
}
