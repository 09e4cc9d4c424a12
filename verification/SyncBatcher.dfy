/** The batcher that folds many blocks into one storage action per key. */
module SyncBatcher {
  import opened Wrappers
  import opened Points
  import opened StorageActions

  type Batch = map<Key, StorageAction>

  predicate Keyed(m: Batch) {
    forall k :: k in m ==> m[k].key == k
  }

  function Push(m: Batch, a: StorageAction): (r: Outcome<Batch>)
    ensures Keyed(m) && r.Ok? ==> Keyed(r.value)
  {
    if a.key in m then
      var merged :- Merge(m[a.key], a);
      Ok(m[a.key := merged])
    else Ok(m[a.key := a])
  }

  function PushAll(m: Batch, ops: seq<StorageAction>): (r: Outcome<Batch>)
    ensures Keyed(m) && r.Ok? ==> Keyed(r.value)
    decreases |ops|
  {
    if ops == [] then Ok(m)
    else
      var next :- Push(m, ops[0]);
      PushAll(next, ops[1..])
  }

  function SizeOf(ops: seq<StorageAction>): nat {
    if ops == [] then 0 else SizeOf(ops[..|ops| - 1]) + Size(ops[|ops| - 1])
  }

  /** `order` lists the batch's actions, one per key, in some order. */
  ghost predicate Enumerates(order: seq<StorageAction>, m: Batch) {
    && (forall i :: 0 <= i < |order| ==> order[i].key in m && m[order[i].key] == order[i])
    && (forall i, j :: 0 <= i < j < |order| ==> order[i].key != order[j].key)
    && (forall k :: k in m ==> m[k] in order)
  }

  /** Bytes of all merged actions together. */
  ghost function TotalSize(m: Batch): nat {
    if m == map[] then 0
    else
      var k :| k in m;
      Size(m[k]) + TotalSize(m - {k})
  }

  lemma {:induction false} TotalSizeRemove(m: Batch, k: Key)
    requires k in m
    ensures TotalSize(m) == Size(m[k]) + TotalSize(m - {k})
    decreases |m|
  {
    var j :| j in m && TotalSize(m) == Size(m[j]) + TotalSize(m - {j});
    if j != k {
      TotalSizeRemove(m - {j}, k);
      TotalSizeRemove(m - {k}, j);
      assert m - {j} - {k} == m - {k} - {j};
    }
  }

  /** Merging never makes a batch larger than the actions pushed into it. */
  lemma PushSize(m: Batch, a: StorageAction)
    requires Push(m, a).Ok?
    ensures TotalSize(Push(m, a).value) <= TotalSize(m) + Size(a)
  {
    var r := Push(m, a).value;
    TotalSizeRemove(r, a.key);
    assert r - {a.key} == m - {a.key};
    if a.key in m {
      TotalSizeRemove(m, a.key);
    } else {
      assert m - {a.key} == m;
    }
  }

  class SyncBatcher {
    var lastPoint: Option<Point>
    var batchActions: Batch
    var currentLen: nat
    var estimatedBytes: nat
    const maxLen: nat
    const maxBytes: nat

    /**
     * What the flush discipline keeps: the estimate covers the merged batch, a batch of two or
     * more blocks fits in half a raft entry, and the block count is capped.
     */
    ghost predicate Valid()
      reads this
    {
      && Keyed(batchActions)
      && TotalSize(batchActions) <= estimatedBytes
      && (currentLen >= 2 ==> 2 * estimatedBytes <= maxBytes)
      && currentLen <= (if maxLen >= 1 then maxLen else 1)
    }

    constructor (maxLen: nat, maxBytes: nat)
      ensures Valid()
      ensures this.maxLen == maxLen && this.maxBytes == maxBytes
      ensures lastPoint == None && batchActions == map[] && currentLen == 0 && estimatedBytes == 0
    {
      this.maxLen := maxLen;
      this.maxBytes := maxBytes;
      lastPoint, batchActions, currentLen, estimatedBytes := None, map[], 0, 0;
    }

    /** The caller either starts a new batch or has asked `ShouldFlush` first. */
    method PushActions(point: Point, actions: seq<StorageAction>) returns (ok: bool)
      requires Valid()
      requires currentLen == 0 || !FlushDue(actions)
      modifies this
      ensures ok <==> PushAll(old(batchActions), actions).Ok?
      ensures ok ==> batchActions == PushAll(old(batchActions), actions).value
      ensures ok ==> currentLen == old(currentLen) + 1 && lastPoint == Some(point)
      ensures ok ==> estimatedBytes == old(estimatedBytes) + SizeOf(actions)
      ensures ok ==> Valid()
    {
      ghost var goal := PushAll(batchActions, actions);
      for i := 0 to |actions|
        invariant Keyed(batchActions)
        invariant PushAll(batchActions, actions[i..]) == goal
        invariant TotalSize(batchActions) <= estimatedBytes
        invariant estimatedBytes == old(estimatedBytes) + SizeOf(actions[..i])
        invariant currentLen == old(currentLen)
      {
        var action := actions[i];
        assert actions[i..][0] == action && actions[i..][1..] == actions[i + 1..];
        assert actions[..i + 1][..i] == actions[..i];
        estimatedBytes := estimatedBytes + Size(action);
        var next := Push(batchActions, action);
        if next.Panic? {
          return false;
        }
        PushSize(batchActions, action);
        batchActions := next.value;
      }
      assert actions[..|actions|] == actions;
      currentLen := currentLen + 1;
      lastPoint := Some(point);
      ok := true;
    }

    method Wipe()
      modifies this
      ensures Valid()
      ensures lastPoint == None && batchActions == map[] && currentLen == 0 && estimatedBytes == 0
    {
      lastPoint, batchActions, currentLen, estimatedBytes := None, map[], 0, 0;
    }

    /** The map's values; the source's hash map gives them in an arbitrary order. */
    method GetBatchActions() returns (order: seq<StorageAction>)
      requires Keyed(batchActions)
      ensures Enumerates(order, batchActions)
    {
      order := [];
      var left := batchActions.Keys;
      while left != {}
        invariant left <= batchActions.Keys
        invariant forall i :: 0 <= i < |order| ==>
          order[i].key in batchActions && batchActions[order[i].key] == order[i] && order[i].key !in left
        invariant forall i, j :: 0 <= i < j < |order| ==> order[i].key != order[j].key
        invariant forall k :: k in batchActions && k !in left ==> batchActions[k] in order
      {
        var k :| k in left;
        order := order + [batchActions[k]];
        left := left - {k};
      }
    }

    predicate FlushDue(next: seq<StorageAction>)
      reads this
    {
      (estimatedBytes + SizeOf(next)) * 2 > maxBytes || currentLen >= maxLen
    }

    method ShouldFlush(next: seq<StorageAction>) returns (flush: bool)
      ensures flush <==> FlushDue(next)
    {
      var nextSize := 0;
      for i := 0 to |next|
        invariant nextSize == SizeOf(next[..i])
      {
        assert next[..i + 1][..i] == next[..i];
        nextSize := nextSize + Size(next[i]);
      }
      assert next[..|next|] == next;
      flush := (estimatedBytes + nextSize) * 2 > maxBytes || currentLen >= maxLen;
    }
  }

  // ---- The merged batch, key by key ----

  function MergedKey(prev: Option<StorageAction>, ops: seq<StorageAction>): Outcome<Option<StorageAction>> {
    if prev.Some? then
      var m :- MergeFrom(prev.value, ops);
      Ok(Some(m))
    else if ops == [] then Ok(None)
    else
      var m :- MergeFrom(ops[0], ops[1..]);
      Ok(Some(m))
  }

  /** Each key's batched action is the merge of that key's own actions. */
  lemma {:induction false} PushAllAt(m: Batch, ops: seq<StorageAction>, k: Key)
    requires Keyed(m)
    requires PushAll(m, ops).Ok?
    ensures MergedKey(Get(m, k), Project(ops, k)) == Ok(Get(PushAll(m, ops).value, k))
    decreases |ops|
  {
    if ops != [] {
      PushAllAt(Push(m, ops[0]).value, ops[1..], k);
      if ops[0].key == k {
        assert Project(ops, k)[1..] == Project(ops[1..], k);
      }
    }
  }

  lemma {:induction false} PushAllDefined(m: Batch, ops: seq<StorageAction>)
    requires Keyed(m)
    requires forall k :: MergedKey(Get(m, k), Project(ops, k)).Ok?
    ensures PushAll(m, ops).Ok?
    decreases |ops|
  {
    if ops != [] {
      var head := ops[0].key;
      assert MergedKey(Get(m, head), Project(ops, head)).Ok?;
      assert Project(ops, head)[1..] == Project(ops[1..], head);
      var next := Push(m, ops[0]).value;
      forall k ensures MergedKey(Get(next, k), Project(ops[1..], k)).Ok? {
        assert MergedKey(Get(m, k), Project(ops, k)).Ok?;
      }
      PushAllDefined(next, ops[1..]);
    }
  }

  /** Whatever order the batch is listed in, a key's share of it is its one action. */
  lemma {:induction false} EnumerationAt(order: seq<StorageAction>, m: Batch, k: Key)
    requires Keyed(m) && Enumerates(order, m)
    ensures Project(order, k) == if k in m then [m[k]] else []
  {
    if k in m {
      var i :| 0 <= i < |order| && order[i] == m[k];
      SplitAt(order, i, k);
    } else {
      AbsentKey(order, k);
    }
  }

  lemma {:induction false} AbsentKey(ops: seq<StorageAction>, k: Key)
    requires forall i :: 0 <= i < |ops| ==> ops[i].key != k
    ensures Project(ops, k) == []
  {
    if ops != [] {
      AbsentKey(ops[1..], k);
    }
  }

  lemma SplitAt(ops: seq<StorageAction>, i: nat, k: Key)
    requires i < |ops| && ops[i].key == k
    requires forall j :: 0 <= j < |ops| && j != i ==> ops[j].key != k
    ensures Project(ops, k) == [ops[i]]
  {
    AbsentKey(ops[..i], k);
    AbsentKey(ops[i + 1..], k);
    ProjectConcat(ops[..i], ops[i..], k);
    assert ops == ops[..i] + ops[i..];
    assert ops[i..][1..] == ops[i + 1..];
  }
}
