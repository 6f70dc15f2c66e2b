/**
 * Python's `dict`, which remembers insertion order: a sequence of
 * (key, value) pairs. Assigning to a key that is already present replaces
 * its value where it stands; a new key goes at the end.
 */
module PyDict {

  type Dict<K, V> = seq<(K, V)>

  /** `list(d.keys())` */
  function Keys<K, V>(d: Dict<K, V>): (ks: seq<K>)
    ensures |ks| == |d| && forall i :: 0 <= i < |d| ==> ks[i] == d[i].0
    decreases |d|
  {
    if d == [] then [] else [d[0].0] + Keys(d[1..])
  }

  /** `list(d.values())` */
  function Values<K, V>(d: Dict<K, V>): (vs: seq<V>)
    ensures |vs| == |d| && forall i :: 0 <= i < |d| ==> vs[i] == d[i].1
    decreases |d|
  {
    if d == [] then [] else [d[0].1] + Values(d[1..])
  }

  /** What every Python dict satisfies: no key occurs twice. */
  predicate DistinctKeys<K(==), V>(d: Dict<K, V>) {
    forall i, j :: 0 <= i < j < |d| ==> d[i].0 != d[j].0
  }

  /** Position of the first pair with key `k`. */
  function IndexOf<K(==), V>(d: Dict<K, V>, k: K): (p: nat)
    requires k in Keys(d)
    ensures p < |d| && d[p].0 == k && forall i :: 0 <= i < p ==> d[i].0 != k
    decreases |d|
  {
    if d[0].0 == k then 0 else 1 + IndexOf(d[1..], k)
  }

  /** `d.get(k, default)` */
  function Get<K(==), V>(d: Dict<K, V>, k: K, default: V): V
    decreases |d|
  {
    if d == [] then default
    else if d[0].0 == k then d[0].1
    else Get(d[1..], k, default)
  }

  /** `d[k] = v` */
  function Set<K(==), V>(d: Dict<K, V>, k: K, v: V): Dict<K, V>
    decreases |d|
  {
    if d == [] then [(k, v)]
    else if d[0].0 == k then [(k, v)] + d[1..]
    else [d[0]] + Set(d[1..], k, v)
  }

  /** `d.get(k, default)` is the value at the first position holding `k`. */
  lemma {:induction false} GetIsFirst<K, V>(d: Dict<K, V>, k: K, default: V)
    ensures k in Keys(d) ==> Get(d, k, default) == d[IndexOf(d, k)].1
    ensures k !in Keys(d) ==> Get(d, k, default) == default
    decreases |d|
  {
    if d != [] && d[0].0 != k {
      GetIsFirst(d[1..], k, default);
      assert Keys(d) == [d[0].0] + Keys(d[1..]);
    }
  }

  /**
   * Assignment overwrites an existing key in place (its position and all
   * other pairs unchanged) and appends a new key.
   */
  lemma SetInPlace<K, V>(d: Dict<K, V>, k: K, v: V)
    ensures k in Keys(d) ==> Set(d, k, v) == d[IndexOf(d, k) := (k, v)]
    ensures k !in Keys(d) ==> Set(d, k, v) == d + [(k, v)]
  {
    if k in Keys(d) {
      SetExisting(d, k, v);
    } else {
      SetAbsent(d, k, v);
    }
  }

  /** Assigning to a present key replaces the pair at its position. */
  lemma {:induction false} SetExisting<K, V>(d: Dict<K, V>, k: K, v: V)
    requires k in Keys(d)
    ensures Set(d, k, v) == d[IndexOf(d, k) := (k, v)]
    decreases |d|
  {
    if d[0].0 == k {
      assert [(k, v)] + d[1..] == d[0 := (k, v)];
    } else {
      var rest := d[1..];
      KeyInRest(d, k);
      SetExisting(rest, k, v);
      assert IndexOf(d, k) == IndexOf(rest, k) + 1;
      assert Set(d, k, v) == [d[0]] + Set(rest, k, v);
      ConsUpdate(d[0], rest, IndexOf(rest, k), (k, v));
      assert [d[0]] + rest == d;
    }
  }

  /** A key present in `d` but not first is present in the rest. */
  lemma KeyInRest<K, V>(d: Dict<K, V>, k: K)
    requires k in Keys(d) && d[0].0 != k
    ensures k in Keys(d[1..])
  {
    var q :| 0 <= q < |d| && Keys(d)[q] == k;
    assert Keys(d[1..])[q - 1] == k;
  }

  /** Updating the rest of a sequence is updating the sequence one position later. */
  lemma ConsUpdate<T>(x: T, s: seq<T>, p: nat, y: T)
    requires p < |s|
    ensures [x] + s[p := y] == ([x] + s)[p + 1 := y]
  {
    var lhs, rhs := [x] + s[p := y], ([x] + s)[p + 1 := y];
    forall i | 0 <= i < |lhs|
      ensures lhs[i] == rhs[i]
    {
      if i > 0 {
        assert lhs[i] == s[p := y][i - 1];
      }
    }
  }

  /** Assigning to an absent key appends the pair. */
  lemma {:induction false} SetAbsent<K, V>(d: Dict<K, V>, k: K, v: V)
    requires k !in Keys(d)
    ensures Set(d, k, v) == d + [(k, v)]
    decreases |d|
  {
    if d != [] {
      assert Keys(d) == [d[0].0] + Keys(d[1..]);
      SetAbsent(d[1..], k, v);
      assert [d[0]] + (d[1..] + [(k, v)]) == d + [(k, v)];
    }
  }

  /** Assignment keeps the key order, adding a new key last. */
  lemma SetKeys<K, V>(d: Dict<K, V>, k: K, v: V)
    ensures Keys(Set(d, k, v)) == if k in Keys(d) then Keys(d) else Keys(d) + [k]
  {
    SetInPlace(d, k, v);
  }

  /** After `d[k] = v`, looking up `k` gives `v` and every other key is unaffected. */
  lemma {:induction false} SetGet<K, V>(d: Dict<K, V>, k: K, v: V, k': K, default: V)
    ensures Get(Set(d, k, v), k', default) == if k' == k then v else Get(d, k', default)
    decreases |d|
  {
    if d != [] {
      var rest := d[1..];
      if d[0].0 == k {
        assert ([(k, v)] + rest)[1..] == rest;
      } else {
        assert ([d[0]] + Set(rest, k, v))[1..] == Set(rest, k, v);
        SetGet(rest, k, v, k', default);
      }
    }
  }

  /** Assignment keeps a dict's keys distinct. */
  lemma SetDistinct<K, V>(d: Dict<K, V>, k: K, v: V)
    requires DistinctKeys(d)
    ensures DistinctKeys(Set(d, k, v))
  {
    SetInPlace(d, k, v);
  }

  /** Assigning the same key twice is assigning it once, with the later value. */
  lemma SetSet<K, V>(d: Dict<K, V>, k: K, v1: V, v2: V)
    ensures Set(Set(d, k, v1), k, v2) == Set(d, k, v2)
  {
    SetInPlace(d, k, v1);
    SetInPlace(d, k, v2);
    SetKeys(d, k, v1);
    var d1 := Set(d, k, v1);
    SetInPlace(d1, k, v2);
    if k in Keys(d) {
      assert IndexOf(d1, k) == IndexOf(d, k);
    } else {
      assert IndexOf(d1, k) == |d|;
    }
  }
}
