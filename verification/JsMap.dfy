/**
 A JavaScript `Map` (or a plain object used as one): an association list in insertion order.
 Setting a key that is already present keeps its position.
 */
module JsMap {
  import opened Wrappers

  predicate UniqueKeys<K(==), V>(s: seq<(K, V)>) {
    forall i, j :: 0 <= i < j < |s| ==> s[i].0 != s[j].0
  }

  type Map<K(==), V> = s: seq<(K, V)> | UniqueKeys(s) witness []

  /** Position of the first pair with this key, or the length if there is none. */
  function IndexOf<K(==), V>(m: seq<(K, V)>, k: K): (i: nat)
    ensures i <= |m|
    ensures i < |m| ==> m[i].0 == k
    ensures forall j :: 0 <= j < i ==> m[j].0 != k
  {
    if m == [] || m[0].0 == k then 0 else 1 + IndexOf(m[1..], k)
  }

  predicate Has<K(==), V>(m: seq<(K, V)>, k: K) {
    IndexOf(m, k) < |m|
  }

  function Get<K(==), V>(m: seq<(K, V)>, k: K): (v: Option<V>)
  {
    if Has(m, k) then Some(m[IndexOf(m, k)].1) else None
  }

  function Set<K(==), V>(m: Map<K, V>, k: K, v: V): Map<K, V> {
    var i := IndexOf(m, k);
    if i < |m| then m[i := (k, v)] else m + [(k, v)]
  }

  function Delete<K(==), V>(m: Map<K, V>, k: K): Map<K, V> {
    var i := IndexOf(m, k);
    if i < |m| then m[..i] + m[i + 1..] else m
  }

  /** With unique keys, the value found for a key is the one stored at its only position. */
  lemma GetAt<K, V>(m: seq<(K, V)>, i: nat)
    requires i < |m| && UniqueKeys(m)
    ensures IndexOf(m, m[i].0) == i && Get(m, m[i].0) == Some(m[i].1)
  {
    var j := IndexOf(m, m[i].0);
  }

  /** Deleting keeps the order of the others. */
  lemma DeletedAt<K, V>(m: Map<K, V>, k: K)
    ensures |Delete(m, k)| == if IndexOf(m, k) < |m| then |m| - 1 else |m|
    ensures forall i :: 0 <= i < |Delete(m, k)| ==>
              Delete(m, k)[i] == if i < IndexOf(m, k) then m[i] else m[i + 1]
  {
    hide IndexOf, UniqueKeys;
  }

  lemma GetOfSet<K, V>(m: Map<K, V>, k: K, v: V, k': K)
    ensures Get(Set(m, k, v), k') == if k' == k then Some(v) else Get(m, k')
    ensures |Set(m, k, v)| == if Has(m, k) then |m| else |m| + 1
  {
    var r := Set(m, k, v);
    var j := IndexOf(m, k');
    if k' == k {
      GetAt(r, j);
    } else if j < |m| {
      GetAt(r, j);
    } else {
      var l := IndexOf(r, k');
    }
  }

  lemma GetOfDelete<K, V>(m: Map<K, V>, k: K, k': K)
    ensures Get(Delete(m, k), k') == if k' == k then None else Get(m, k')
    ensures |Delete(m, k)| == if Has(m, k) then |m| - 1 else |m|
  {
    var i, r := IndexOf(m, k), Delete(m, k);
    var j, l := IndexOf(m, k'), IndexOf(r, k');
    if k' != k && j < |m| {
      GetAt(r, if j < i then j else j - 1);
    }
  }
}
