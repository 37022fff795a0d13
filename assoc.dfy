/**
 * Insertion-ordered dictionaries with the semantics of Python's `dict`:
 * a key is stored once, `d[k] = v` replaces the value of an existing key
 * in place (keeping its position) and appends a new key at the end, and
 * iteration visits keys in insertion order. The writer's grouping tables
 * and every object's attribute dictionary are values of this type, so the
 * order in which the writer emits relation groups and attribute chunks is
 * part of the model.
 */
module Assoc {

  datatype Option<+T> = None | Some(value: T)

  /** An association list; with DistinctKeys it is a Python dict. */
  type Dict<K, V> = seq<(K, V)>

  /** The keys in iteration order (`d.keys()`). */
  function Keys<K, V>(d: Dict<K, V>): seq<K>
  {
    seq(|d|, i requires 0 <= i < |d| => d[i].0)
  }

  /** `k in d` */
  predicate HasKey<K(==), V>(d: Dict<K, V>, k: K)
  {
    exists i :: 0 <= i < |d| && d[i].0 == k
  }

  predicate DistinctKeys<K(==), V>(d: Dict<K, V>)
  {
    forall i, j :: 0 <= i < j < |d| ==> d[i].0 != d[j].0
  }

  /** The position of the first entry with key `k`, or -1 when there is none. */
  function Find<K(==), V>(d: Dict<K, V>, k: K): (r: int)
    ensures -1 <= r < |d|
    ensures r == -1 <==> !HasKey(d, k)
    ensures r != -1 ==> d[r].0 == k && forall i :: 0 <= i < r ==> d[i].0 != k
    decreases |d|
  {
    if d == [] then -1
    else
      var r := Find(d[..|d| - 1], k);
      if r != -1 then r
      else if d[|d| - 1].0 == k then |d| - 1
      else -1
  }

  /** Two dictionaries with the same keys at the same positions find every key at the same place. */
  lemma SameKeysSameFind<K, V, W>(d: Dict<K, V>, e: Dict<K, W>, k: K)
    requires |d| == |e| && forall i :: 0 <= i < |d| ==> d[i].0 == e[i].0
    ensures Find(d, k) == Find(e, k)
  {
    var a, b := Find(d, k), Find(e, k);
    if a != -1 && b != -1 {
      assert !(a < b) && !(b < a);
    }
  }

  /** `d.get(k)`: the value stored under `k`, if any. */
  function Get<K(==), V>(d: Dict<K, V>, k: K): (r: Option<V>)
    ensures r.Some? <==> HasKey(d, k)
    ensures r.Some? ==> exists i :: 0 <= i < |d| && d[i] == (k, r.value)
    ensures DistinctKeys(d) ==> forall i :: 0 <= i < |d| && d[i].0 == k ==> r == Some(d[i].1)
  {
    var i := Find(d, k);
    if i == -1 then None else Some(d[i].1)
  }

  /** `d.get(k, default)` */
  function GetOr<K(==), V>(d: Dict<K, V>, k: K, default: V): V
  {
    match Get(d, k)
    case Some(v) => v
    case None => default
  }

  /** `d[k] = v`: replace in place when `k` is present, append otherwise. */
  function Put<K(==, !new), V>(d: Dict<K, V>, k: K, v: V): (r: Dict<K, V>)
    ensures Get(r, k) == Some(v)
    ensures forall k' :: k' != k ==> Get(r, k') == Get(d, k')
    ensures forall k' :: HasKey(r, k') <==> HasKey(d, k') || k' == k
    ensures HasKey(d, k) ==> r == d[Find(d, k) := (k, v)]
    ensures !HasKey(d, k) ==> r == d + [(k, v)]
    ensures DistinctKeys(d) ==> DistinctKeys(r)
  {
    var i := Find(d, k);
    if i != -1 then
      ReplaceFind(d, i, k, v);
      d[i := (k, v)]
    else
      AppendFind(d, k, v);
      d + [(k, v)]
  }

  /** Replacing the value at a position keeps every key where it was. */
  lemma ReplaceFind<K, V>(d: Dict<K, V>, i: int, k: K, v: V)
    requires 0 <= i < |d| && d[i].0 == k
    ensures forall k' :: Find(d[i := (k, v)], k') == Find(d, k')
    ensures forall k' :: HasKey(d[i := (k, v)], k') <==> HasKey(d, k')
    ensures DistinctKeys(d) ==> DistinctKeys(d[i := (k, v)])
  {
    forall k' ensures Find(d[i := (k, v)], k') == Find(d, k') && (HasKey(d[i := (k, v)], k') <==> HasKey(d, k')) {
      SameKeysSameFind(d[i := (k, v)], d, k');
    }
  }

  /** Appending a new key leaves every other key where it was. */
  lemma AppendFind<K, V>(d: Dict<K, V>, k: K, v: V)
    requires !HasKey(d, k)
    ensures Find(d + [(k, v)], k) == |d|
    ensures forall k' :: k' != k ==> Find(d + [(k, v)], k') == Find(d, k')
    ensures forall k' :: HasKey(d + [(k, v)], k') <==> HasKey(d, k') || k' == k
    ensures DistinctKeys(d) ==> DistinctKeys(d + [(k, v)])
  {
    assert (d + [(k, v)])[..|d|] == d;
  }

  lemma GetOrPut<K(!new), V>(d: Dict<K, V>, k: K, v: V, a: K, default: V)
    ensures GetOr(Put(d, k, v), a, default) == if a == k then v else GetOr(d, a, default)
  {
    if a != k {
      assert Get(Put(d, k, v), a) == Get(d, a);
    }
  }

  /** A second assignment to the same key overrides the first and keeps its position. */
  lemma PutPut<K(!new), V>(d: Dict<K, V>, k: K, v: V, w: V)
    ensures Put(Put(d, k, v), k, w) == Put(d, k, w)
  {
    if HasKey(d, k) {
      ReplaceFind(d, Find(d, k), k, v);
      assert Put(d, k, v)[Find(d, k) := (k, w)] == d[Find(d, k) := (k, w)];
    } else {
      AppendFind(d, k, v);
      assert (d + [(k, v)])[|d| := (k, w)] == d + [(k, w)];
    }
  }

  /** The number of inner entries of a dictionary of dictionaries. */
  function TotalSize<K, K2, V>(t: Dict<K, Dict<K2, V>>): nat
  {
    if t == [] then 0 else TotalSize(t[..|t| - 1]) + |t[|t| - 1].1|
  }

  lemma {:induction false} TotalSizeAppend<K, K2, V>(t: Dict<K, Dict<K2, V>>, u: Dict<K, Dict<K2, V>>)
    ensures TotalSize(t + u) == TotalSize(t) + TotalSize(u)
    decreases |u|
  {
    if u == [] {
      assert t + u == t;
    } else {
      var n := |u| - 1;
      assert (t + u)[..|t + u| - 1] == t + u[..n];
      TotalSizeAppend(t, u[..n]);
    }
  }

  lemma {:induction false} TotalSizeUpdate<K, K2, V>(t: Dict<K, Dict<K2, V>>, i: nat, x: (K, Dict<K2, V>))
    requires i < |t|
    ensures TotalSize(t[i := x]) == TotalSize(t) - |t[i].1| + |x.1|
    decreases |t|
  {
    var n := |t| - 1;
    var u := t[i := x];
    if i < n {
      assert u[..n] == t[..n][i := x];
      TotalSizeUpdate(t[..n], i, x);
    } else {
      assert u[..n] == t[..n];
    }
  }

  lemma TotalSizeNext<K, K2, V>(t: Dict<K, Dict<K2, V>>, i: int)
    requires 0 <= i < |t|
    ensures TotalSize(t[..i + 1]) == TotalSize(t[..i]) + |t[i].1|
  {
    assert t[..i + 1][..i] == t[..i];
  }

  /**
   * Replacing the inner dictionary stored under `k` changes the total by the
   * difference of the two inner sizes.
   */
  lemma TotalSizePut<K(!new), K2, V>(t: Dict<K, Dict<K2, V>>, k: K, v: Dict<K2, V>)
    requires DistinctKeys(t)
    ensures TotalSize(Put(t, k, v)) == TotalSize(t) - |GetOr(t, k, [])| + |v|
  {
    var i := Find(t, k);
    if i != -1 {
      TotalSizeUpdate(t, i, (k, v));
    } else {
      var r := t + [(k, v)];
      assert r[..|r| - 1] == t;
    }
  }

  /**
   * `d.setdefault(k, {})[k2] = v` on a dictionary of dictionaries: only the
   * inner dictionary under `k` changes, and in it only the value under `k2`.
   */
  function PutIn<K(==, !new), K2(==, !new), V>(t: Dict<K, Dict<K2, V>>, k: K, k2: K2, v: V): (r: Dict<K, Dict<K2, V>>)
    ensures forall a :: GetOr(r, a, []) == if a == k then Put(GetOr(t, k, []), k2, v) else GetOr(t, a, [])
    ensures forall a :: HasKey(r, a) <==> HasKey(t, a) || a == k
    ensures (forall a :: DistinctKeys(GetOr(t, a, []))) ==> forall a :: DistinctKeys(GetOr(r, a, []))
    ensures DistinctKeys(t) ==> DistinctKeys(r)
    ensures DistinctKeys(t) ==> TotalSize(r) == TotalSize(t) + if HasKey(GetOr(t, k, []), k2) then 0 else 1
  {
    PutInGet(t, k, Put(GetOr(t, k, []), k2, v));
    if DistinctKeys(t) then TotalSizePut(t, k, Put(GetOr(t, k, []), k2, v)); Put(t, k, Put(GetOr(t, k, []), k2, v))
    else Put(t, k, Put(GetOr(t, k, []), k2, v))
  }

  lemma PutInGet<K(!new), K2, V>(t: Dict<K, Dict<K2, V>>, k: K, inner: Dict<K2, V>)
    ensures forall a :: GetOr(Put(t, k, inner), a, []) == if a == k then inner else GetOr(t, a, [])
  {
    forall a ensures GetOr(Put(t, k, inner), a, []) == if a == k then inner else GetOr(t, a, []) {
      GetOrPut(t, k, inner, a, []);
    }
  }

  /** One inner dictionary as rows (outer key, inner key, value), in iteration order. */
  function Row<K, K2, V>(k: K, inner: Dict<K2, V>): seq<(K, K2, V)>
  {
    seq(|inner|, j requires 0 <= j < |inner| => (k, inner[j].0, inner[j].1))
  }

  /** What two nested `for ... in d.items()` loops visit, in order. */
  function Flatten<K, K2, V>(t: Dict<K, Dict<K2, V>>): seq<(K, K2, V)>
  {
    if t == [] then [] else Flatten(t[..|t| - 1]) + Row(t[|t| - 1].0, t[|t| - 1].1)
  }

  lemma {:induction false} FlattenSize<K, K2, V>(t: Dict<K, Dict<K2, V>>)
    ensures |Flatten(t)| == TotalSize(t)
  {
    if t != [] {
      FlattenSize(t[..|t| - 1]);
    }
  }

  /** Every row comes from one inner entry. */
  lemma {:induction false} FlattenMember<K, K2, V>(t: Dict<K, Dict<K2, V>>, m: int)
    requires 0 <= m < |Flatten(t)|
    ensures exists i, j :: 0 <= i < |t| && 0 <= j < |t[i].1| && Flatten(t)[m] == (t[i].0, t[i].1[j].0, t[i].1[j].1)
  {
    var n := |t| - 1;
    var init := Flatten(t[..n]);
    if m < |init| {
      FlattenMember(t[..n], m);
      var i, j :| 0 <= i < n && 0 <= j < |t[..n][i].1| && init[m] == (t[..n][i].0, t[..n][i].1[j].0, t[..n][i].1[j].1);
      assert t[..n][i] == t[i];
    } else {
      assert Flatten(t)[m] == (t[n].0, t[n].1[m - |init|].0, t[n].1[m - |init|].1);
    }
  }

  lemma RowNext<K, K2, V>(k: K, d: Dict<K2, V>, j: int)
    requires 0 <= j < |d|
    ensures Row(k, d[..j + 1]) == Row(k, d[..j]) + [(k, d[j].0, d[j].1)]
  {
  }

  lemma FlattenNext<K, K2, V>(t: Dict<K, Dict<K2, V>>, i: int)
    requires 0 <= i < |t|
    ensures Flatten(t[..i + 1]) == Flatten(t[..i]) + Row(t[i].0, t[i].1[..|t[i].1|])
  {
    assert t[..i + 1][..i] == t[..i];
    assert t[i].1[..|t[i].1|] == t[i].1;
  }
}
