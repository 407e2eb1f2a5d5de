/**
 * Python dictionaries: key/value pairs kept in insertion order. Assigning to
 * a key that is present replaces its value where it stands; assigning to a
 * new key appends it.
 */
module OrderedMaps {
  import opened Wrappers

  type OMap<K, V> = seq<(K, V)>

  function Keys<K(==), V>(m: OMap<K, V>): (ks: seq<K>)
    ensures |ks| == |m|
    ensures forall i | 0 <= i < |m| :: ks[i] == m[i].0
  {
    seq(|m|, i requires 0 <= i < |m| => m[i].0)
  }

  /** No key is stored twice. */
  predicate Distinct<K(==), V>(m: OMap<K, V>)
  {
    forall i, j | 0 <= i < j < |m| :: m[i].0 != m[j].0
  }

  /** Where `k` is stored, or -1. */
  function IndexOf<K(==), V>(m: OMap<K, V>, k: K): (i: int)
    ensures -1 <= i < |m|
    ensures i >= 0 ==> m[i].0 == k
    ensures forall j | 0 <= j < |m| && (i < 0 || j < i) :: m[j].0 != k
  {
    if m == [] then -1
    else if m[0].0 == k then 0
    else
      var i := IndexOf(m[1..], k);
      if i < 0 then -1 else i + 1
  }

  lemma IndexOfKeys<K, V>(m: OMap<K, V>, k: K)
    ensures IndexOf(m, k) >= 0 <==> k in Keys(m)
  {
    if k in Keys(m) {
      var j :| 0 <= j < |m| && Keys(m)[j] == k;
      assert m[j].0 == k;
    }
  }

  /** `m.get(k)` */
  function Get<K(==), V>(m: OMap<K, V>, k: K): (r: Option<V>)
    ensures r.Some? <==> k in Keys(m)
  {
    IndexOfKeys(m, k);
    var i := IndexOf(m, k);
    if i < 0 then None else Some(m[i].1)
  }

  /** `m.get(k, d)` */
  function GetOr<K(==), V>(m: OMap<K, V>, k: K, d: V): V
  {
    match Get(m, k)
    case Some(v) => v
    case None => d
  }

  /** `m[k] = v`; what it does to lookups, keys and distinctness is stated by the lemmas below. */
  function Put<K(==), V>(m: OMap<K, V>, k: K, v: V): (r: OMap<K, V>)
    ensures |r| == if k in Keys(m) then |m| else |m| + 1
  {
    IndexOfKeys(m, k);
    var i := IndexOf(m, k);
    if i < 0 then m + [(k, v)] else m[i := (k, v)]
  }

  /** After `m[k] = v`, looking up `k` gives `v` and every other key reads as before. */
  lemma PutGet<K, V>(m: OMap<K, V>, k: K, v: V, j: K)
    ensures Get(Put(m, k, v), j) == if j == k then Some(v) else Get(m, j)
  {
    IndexOfKeys(m, k);
    var i := IndexOf(m, k);
    var r := Put(m, k, v);
    if i < 0 {
      if j != k {
        IndexOfAppend(m, k, v, j);
      } else {
        assert r[|m|].0 == k;
        assert forall x | 0 <= x < |m| :: r[x].0 != k;
        assert IndexOf(r, k) == |m|;
      }
    } else {
      IndexOfUpdate(m, i, k, v, j);
    }
  }

  /** `m[k] = v` keeps the key order, appending `k` when it is new. */
  lemma PutKeys<K, V>(m: OMap<K, V>, k: K, v: V)
    ensures Keys(Put(m, k, v)) == if k in Keys(m) then Keys(m) else Keys(m) + [k]
  {
    IndexOfKeys(m, k);
  }

  /** `m[k] = v` never stores a key twice. */
  lemma PutDistinct<K, V>(m: OMap<K, V>, k: K, v: V)
    requires Distinct(m)
    ensures Distinct(Put(m, k, v))
  {
    IndexOfKeys(m, k);
    var i := IndexOf(m, k);
    var r := Put(m, k, v);
    if i < 0 {
      forall x, y | 0 <= x < y < |r| ensures r[x].0 != r[y].0 {
        if y == |m| {
          assert r[y].0 == k && r[x] == m[x];
        }
      }
    }
  }

  lemma IndexOfAppend<K, V>(m: OMap<K, V>, k: K, v: V, j: K)
    requires j != k
    ensures IndexOf(m + [(k, v)], j) == IndexOf(m, j)
  {
    if m != [] {
      assert (m + [(k, v)])[1..] == m[1..] + [(k, v)];
      IndexOfAppend(m[1..], k, v, j);
    }
  }

  lemma IndexOfUpdate<K, V>(m: OMap<K, V>, i: nat, k: K, v: V, j: K)
    requires i < |m| && m[i].0 == k
    ensures IndexOf(m[i := (k, v)], j) == IndexOf(m, j)
  {
    if i > 0 {
      assert m[i := (k, v)][1..] == m[1..][i - 1 := (k, v)];
      IndexOfUpdate(m[1..], i - 1, k, v, j);
    }
  }

  /** In a map without repeated keys, `Get` finds the value stored with `k` wherever it is. */
  lemma GetAt<K, V>(m: OMap<K, V>, i: nat)
    requires Distinct(m) && i < |m|
    ensures Get(m, m[i].0) == Some(m[i].1)
  {
    var k := m[i].0;
    var j := IndexOf(m, k);
    assert j == i;
  }

  /** In a map without repeated keys, assigning to a present key replaces its pair where it stands. */
  lemma PutAt<K, V>(m: OMap<K, V>, i: nat, v: V)
    requires Distinct(m) && i < |m|
    ensures Put(m, m[i].0, v) == m[i := (m[i].0, v)]
  {
    IndexOfKeys(m, m[i].0);
    assert IndexOf(m, m[i].0) == i;
  }

  /** The values stored in `m`, in order. */
  function Values<K(==), V>(m: OMap<K, V>): (vs: seq<V>)
    ensures |vs| == |m|
    ensures forall i | 0 <= i < |m| :: vs[i] == m[i].1
  {
    seq(|m|, i requires 0 <= i < |m| => m[i].1)
  }

  /** A map without repeated keys is its last pair put after the rest. */
  lemma DistinctSnoc<K, V>(m: OMap<K, V>)
    requires Distinct(m) && m != []
    ensures Distinct(m[..|m| - 1])
    ensures m[|m| - 1].0 !in Keys(m[..|m| - 1])
    ensures m == Put(m[..|m| - 1], m[|m| - 1].0, m[|m| - 1].1)
  {
    var init := m[..|m| - 1];
    IndexOfKeys(init, m[|m| - 1].0);
    assert m == init + [m[|m| - 1]];
  }

  /** Every pair of `m[k] = v` is `(k, v)` or a pair of `m` at the same place. */
  lemma PutEntries<K, V>(m: OMap<K, V>, k: K, v: V)
    ensures forall i | 0 <= i < |Put(m, k, v)| :: Put(m, k, v)[i] == (k, v) || (i < |m| && Put(m, k, v)[i] == m[i])
  {
  }

  /** A value found by `Get` is one of the stored pairs' values. */
  lemma GetEntry<K, V>(m: OMap<K, V>, k: K)
    requires Get(m, k).Some?
    ensures exists i | 0 <= i < |m| :: m[i] == (k, Get(m, k).value)
  {
    var i := IndexOf(m, k);
    assert m[i] == (k, Get(m, k).value);
  }

  /** Assigning a key twice keeps only the second value, where the first put it. */
  lemma PutTwice<K, V>(m: OMap<K, V>, k: K, v: V, w: V)
    ensures Put(Put(m, k, v), k, w) == Put(m, k, w)
  {
    IndexOfKeys(m, k);
    PutKeys(m, k, v);
    IndexOfKeys(Put(m, k, v), k);
    if IndexOf(m, k) < 0 {
      assert Put(m, k, v)[|m|].0 == k;
      assert IndexOf(Put(m, k, v), k) == |m|;
    } else {
      IndexOfUpdate(m, IndexOf(m, k), k, v, k);
    }
  }
}
