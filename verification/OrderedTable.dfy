/** A column family with integer keys: its entries in key order. */
module OrderedTable {
  import opened Wrappers

  datatype Entry<V> = Entry(key: nat, value: V)

  ghost predicate Sorted<V>(t: seq<Entry<V>>) {
    forall i, j :: 0 <= i < j < |t| ==> t[i].key < t[j].key
  }

  function Upsert<V>(t: seq<Entry<V>>, k: nat, v: V): seq<Entry<V>> {
    if t == [] || k < t[0].key then [Entry(k, v)] + t
    else if k == t[0].key then [Entry(k, v)] + t[1..]
    else [t[0]] + Upsert(t[1..], k, v)
  }

  function Remove<V>(t: seq<Entry<V>>, k: nat): seq<Entry<V>> {
    if t == [] then [] else if t[0].key == k then t[1..] else [t[0]] + Remove(t[1..], k)
  }

  function Find<V>(t: seq<Entry<V>>, k: nat): Option<V> {
    if t == [] then None else if t[0].key == k then Some(t[0].value) else Find(t[1..], k)
  }

  /** An iterator positioned at the first key that is not below `k`. */
  function From<V>(t: seq<Entry<V>>, k: nat): seq<Entry<V>> {
    if t == [] || t[0].key >= k then t else From(t[1..], k)
  }

  lemma {:induction false} FromIsSuffix<V>(t: seq<Entry<V>>, k: nat)
    ensures var r := From(t, k);
            |r| <= |t| && r == t[|t| - |r|..] && (r != [] ==> r[0].key >= k)
    ensures forall i :: 0 <= i < |t| - |From(t, k)| ==> t[i].key < k
  {
    if t != [] && t[0].key < k {
      FromIsSuffix(t[1..], k);
    }
  }

  lemma {:induction false} UpsertAtEnd<V>(t: seq<Entry<V>>, k: nat, v: V)
    requires forall i :: 0 <= i < |t| ==> t[i].key < k
    ensures Upsert(t, k, v) == t + [Entry(k, v)]
  {
    if t != [] {
      UpsertAtEnd(t[1..], k, v);
    }
  }

  lemma {:induction false} RemoveAtEnd<V>(t: seq<Entry<V>>, e: Entry<V>)
    requires forall i :: 0 <= i < |t| ==> t[i].key < e.key
    ensures Remove(t + [e], e.key) == t
    ensures Find(t + [e], e.key) == Some(e.value)
  {
    if t == [] {
      assert [e][1..] == [];
    } else {
      assert (t + [e])[1..] == t[1..] + [e];
      RemoveAtEnd(t[1..], e);
    }
  }

  lemma FromAt<V>(t: seq<Entry<V>>, i: nat)
    requires Sorted(t) && i < |t|
    ensures From(t, t[i].key) == t[i..]
  {
    FromIsSuffix(t, t[i].key);
    var r := From(t, t[i].key);
    assert r != [] ==> r[0] == t[|t| - |r|];
  }
}
