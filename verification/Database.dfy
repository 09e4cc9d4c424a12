/**
 * The store a polyphony instance writes: its data keys, and the rollback metadata kept in the same
 * keyspace. A metadata key is kept here in decoded form; `RollbackKeys` shows that its byte encoding
 * is injective, keeps this order, and stays apart from the instance's data, cursor and info keys.
 */
module Database {
  import opened Bytes
  import opened StorageActions

  type Store = map<Key, Value>

  datatype MetaKey = MetaKey(slot: U64, hash: Bytes, index: nat, key: Key)

  type Metadata = map<MetaKey, Value>

  datatype Database = Database(data: Store, meta: Metadata)

  function WithoutSlots(meta: Metadata, from: nat, to: nat): Metadata {
    map k | k in meta && !(from <= k.slot < to) :: meta[k]
  }

  /** A transaction: reads see its own writes, and nothing else sees them before the commit. */
  class Transaction {
    var data: Store
    var meta: Metadata

    constructor (db: Database)
      ensures data == db.data && meta == db.meta
    {
      data, meta := db.data, db.meta;
    }

    method Put(k: Key, v: Value)
      modifies this`data
      ensures data == old(data)[k := v]
    {
      data := data[k := v];
    }

    method Delete(k: Key)
      modifies this`data
      ensures data == old(data) - {k}
    {
      data := data - {k};
    }

    method PutMeta(k: MetaKey, v: Value)
      modifies this`meta
      ensures meta == old(meta)[k := v]
    {
      meta := meta[k := v];
    }

    /** Up to `limit` metadata keys of a slot interval; none only if the interval is empty. */
    method ScanMetaKeys(from: nat, to: nat, limit: nat) returns (keys: seq<MetaKey>)
      requires limit > 0
      ensures |keys| <= limit
      ensures forall i :: 0 <= i < |keys| ==> keys[i] in meta && from <= keys[i].slot < to
      ensures keys == [] <==> (forall k :: k in meta ==> !(from <= k.slot < to))
    {
      keys := [];
      var left := set k | k in meta && from <= k.slot < to;
      while left != {} && |keys| < limit
        invariant |keys| <= limit
        invariant forall k :: k in left ==> k in meta && from <= k.slot < to
        invariant forall i :: 0 <= i < |keys| ==> keys[i] in meta && from <= keys[i].slot < to
        invariant keys == [] ==> forall k :: k in meta && from <= k.slot < to ==> k in left
        decreases left
      {
        var k :| k in left;
        keys := keys + [k];
        left := left - {k};
      }
      if keys != [] {
        assert keys[0] in meta && from <= keys[0].slot < to;
      }
    }

    /** Delete a slot interval of metadata, scanning `limit` keys at a time until none is left. */
    method DeleteMetaRange(from: nat, to: nat, limit: nat)
      requires limit > 0
      modifies this`meta
      ensures meta == WithoutSlots(old(meta), from, to)
    {
      while true
        invariant forall k :: k in meta ==> k in old(meta) && meta[k] == old(meta)[k]
        invariant forall k :: k in old(meta) && !(from <= k.slot < to) ==> k in meta
        decreases |meta|
      {
        var keys := ScanMetaKeys(from, to, limit);
        if keys == [] {
          break;
        }
        ghost var before := meta;
        for i := 0 to |keys|
          invariant forall k :: k in meta ==> k in before && meta[k] == before[k]
          invariant forall k :: k in before && !(from <= k.slot < to) ==> k in meta
          invariant forall j :: 0 <= j < i ==> keys[j] !in meta
        {
          meta := meta - {keys[i]};
        }
        assert keys[0] in before.Keys && keys[0] !in meta.Keys;
        FewerKeys(meta, before);
      }
    }
  }

  lemma FewerKeys(small: Metadata, big: Metadata)
    requires small.Keys < big.Keys
    ensures |small| < |big|
  {
    SubsetSize(small.Keys, big.Keys);
  }

  lemma {:induction false} SubsetSize(a: set<MetaKey>, b: set<MetaKey>)
    requires a < b
    ensures |a| < |b|
    decreases a
  {
    if a != {} {
      var x :| x in a;
      SubsetSize(a - {x}, b - {x});
    }
  }
}
