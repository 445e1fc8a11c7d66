/** Optional values, and Python dicts as sequences of pairs in insertion order. */
module Dicts {

  datatype Option<+T> = None | Some(value: T) {
    function GetOr(default: T): T {
      match this
      case Some(v) => v
      case None => default
    }
  }

  /** A dict: pairs in the order in which their keys were first inserted. */
  type Dict<K, V> = seq<(K, V)>

  ghost predicate DistinctKeys<K, V>(d: Dict<K, V>) {
    forall i, j :: 0 <= i < j < |d| ==> d[i].0 != d[j].0
  }

  /** Position of key k, or |d| when absent. */
  function IndexOf<K(==), V>(d: Dict<K, V>, k: K): (i: nat)
    ensures i <= |d|
    ensures i < |d| ==> d[i].0 == k
    ensures forall j :: 0 <= j < i ==> d[j].0 != k
  {
    if d == [] || d[0].0 == k then 0 else 1 + IndexOf(d[1..], k)
  }

  predicate Has<K(==), V>(d: Dict<K, V>, k: K) {
    IndexOf(d, k) < |d|
  }

  function Get<K(==), V>(d: Dict<K, V>, k: K): V
    requires Has(d, k)
  {
    d[IndexOf(d, k)].1
  }

  function Lookup<K(==), V>(d: Dict<K, V>, k: K): Option<V> {
    if Has(d, k) then Some(Get(d, k)) else None
  }

  /** d[k] = v: replaces in place, or appends a new key. */
  function Put<K(==), V>(d: Dict<K, V>, k: K, v: V): Dict<K, V> {
    var i := IndexOf(d, k);
    if i < |d| then d[i := (k, v)] else d + [(k, v)]
  }

  /** Puts the first n rows, in order. */
  function PutAll<K(==), V>(d: Dict<K, V>, rows: seq<(K, V)>, n: nat): Dict<K, V>
    requires n <= |rows|
  {
    if n == 0 then d else Put(PutAll(d, rows, n - 1), rows[n - 1].0, rows[n - 1].1)
  }

  lemma IndexOfAt<K, V>(d: Dict<K, V>, i: nat)
    requires DistinctKeys(d) && i < |d|
    ensures IndexOf(d, d[i].0) == i
  {
  }

  lemma PutKeepsDistinct<K, V>(d: Dict<K, V>, k: K, v: V)
    requires DistinctKeys(d)
    ensures DistinctKeys(Put(d, k, v))
  {
  }

  /** What Put stores is found again, and every other key keeps its value. */
  lemma PutGet<K, V>(d: Dict<K, V>, k: K, v: V, k': K)
    requires DistinctKeys(d)
    ensures Lookup(Put(d, k, v), k') == if k' == k then Some(v) else Lookup(d, k')
  {
    var p := Put(d, k, v);
    PutKeepsDistinct(d, k, v);
    if Has(p, k') {
      var j := IndexOf(p, k');
      if j < |d| && k' != k {
        assert d[j] == p[j];
        IndexOfAt(d, j);
      }
    } else {
      assert p[IndexOf(d, k)].0 == k;
      assert forall j :: 0 <= j < |d| ==> p[j].0 == d[j].0;
    }
  }

  /** Inserting rows with distinct keys into an empty dict reproduces the rows in order. */
  lemma {:induction false} PutAllFresh<K, V>(rows: seq<(K, V)>, n: nat)
    requires DistinctKeys(rows) && n <= |rows|
    ensures PutAll([], rows, n) == rows[..n]
  {
    if n > 0 {
      PutAllFresh(rows, n - 1);
      assert rows[..n] == rows[..n - 1] + [rows[n - 1]];
    }
  }

  /** Re-inserting a leading part of a dict changes nothing. */
  lemma {:induction false} PutAllAgain<K, V>(d: Dict<K, V>, rows: seq<(K, V)>, n: nat)
    requires DistinctKeys(d) && n <= |rows| && rows[..n] <= d
    ensures PutAll(d, rows, n) == d
  {
    if n > 0 {
      assert rows[..n - 1] == rows[..n][..n - 1] <= d;
      PutAllAgain(d, rows, n - 1);
      assert d[n - 1] == rows[..n][n - 1];
      IndexOfAt(d, n - 1);
    }
  }

  /** Some key of a non-empty set has the least value. */
  lemma {:induction false} LeastExists<K>(keys: set<K>, m: map<K, int>)
    requires keys != {} && keys <= m.Keys
    ensures exists k :: k in keys && forall j :: j in keys ==> m[k] <= m[j]
    decreases keys
  {
    var k :| k in keys;
    if keys == {k} {
      assert forall j :: j in keys ==> j == k;
    } else {
      LeastExists(keys - {k}, m);
      var l :| l in keys - {k} && forall j :: j in keys - {k} ==> m[l] <= m[j];
      var best := if m[l] <= m[k] then l else k;
      assert forall j :: j in keys ==> m[best] <= m[j];
    }
  }
}
