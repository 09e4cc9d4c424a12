/** The plain executor, the executor that also returns inverses, and their prefetched batches. */
module Executor {
  import opened Wrappers
  import opened Bytes
  import opened StorageActions
  import opened Database

  /** What one executed action does to its key inside the transaction. */
  datatype Write = Keep | Put(value: Value) | Remove

  function Amount(bytes: Value, width: nat): (n: nat)
    requires |bytes| >= width
    ensures n < Pow256(width)
  {
    FromBigEndian(bytes[..width])
  }

  function AddWrite(prev: Option<Value>, d: nat, width: nat): Outcome<Write>
    requires d < Pow256(width)
  {
    match prev
    case None => Ok(Put(ToBigEndian(d, width)))
    case Some(b) =>
      if |b| < width then Panic
      else
        var sum := Amount(b, width) + d;
        // the release build wraps around
        Ok(Put(ToBigEndian(if sum < Pow256(width) then sum else sum - Pow256(width), width)))
  }

  function SubWrite(prev: Option<Value>, d: nat, width: nat, deleteAtZero: bool): Outcome<Write> {
    match prev
    case None => Ok(Keep)
    case Some(b) =>
      if |b| < width then Panic
      else if d < Amount(b, width) then Ok(Put(ToBigEndian(Amount(b, width) - d, width)))
      else if deleteAtZero then Ok(Remove)
      else Ok(Put(ToBigEndian(0, width)))
  }

  function PlainWrite(prev: Option<Value>, op: StorageAction): Outcome<Write> {
    Pow256Widths();
    match op
    case Set(_, v) => Ok(Put(v))
    case Delete(_) => Ok(Remove)
    case Insert(_, v) => Ok(if prev.Some? then Keep else Put(v))
    case IncrementU64(_, d) => if d == 0 then Ok(Keep) else AddWrite(prev, d, 8)
    case DecrementU64(_, d) => if d == 0 then Ok(Keep) else SubWrite(prev, d, 8, true)
    case IncrementU128(_, d) => if d == 0 then Ok(Keep) else AddWrite(prev, d, 16)
    case DecrementU128NoDelete(_, d) => if d == 0 then Ok(Keep) else SubWrite(prev, d, 16, false)
  }

  /** A stored 64-bit counter takes an increment with wrap-around; a decrement to zero or below removes it. */
  lemma Counter64Writes(b: Value, d: U64, k: Key)
    requires d > 0
    ensures |b| < 8 ==> PlainWrite(Some(b), IncrementU64(k, d)).Panic? && PlainWrite(Some(b), DecrementU64(k, d)).Panic?
    ensures |b| >= 8 ==>
              var w := PlainWrite(Some(b), IncrementU64(k, d));
              w.Ok? && w.value.Put? && |w.value.value| == 8 &&
              FromBigEndian(w.value.value) == (FromBigEndian(b[..8]) + d) % 0x1_0000_0000_0000_0000
    ensures |b| >= 8 ==>
              var w := PlainWrite(Some(b), DecrementU64(k, d));
              w.Ok? && if FromBigEndian(b[..8]) <= d then w.value.Remove?
                       else w.value.Put? && FromBigEndian(w.value.value) == FromBigEndian(b[..8]) - d
  {
    Pow256Widths();
    hide ToBigEndian, FromBigEndian, Pow256;
  }

  /** A stored 128-bit counter takes an increment with wrap-around; a decrement to zero or below leaves zero. */
  lemma Counter128Writes(b: Value, d: nat, k: Key)
    requires 0 < d < 0x1_0000_0000_0000_0000_0000_0000_0000_0000
    ensures |b| < 16 ==>
              PlainWrite(Some(b), IncrementU128(k, d)).Panic? && PlainWrite(Some(b), DecrementU128NoDelete(k, d)).Panic?
    ensures |b| >= 16 ==>
              var w := PlainWrite(Some(b), IncrementU128(k, d));
              w.Ok? && w.value.Put? && |w.value.value| == 16 &&
              FromBigEndian(w.value.value) == (FromBigEndian(b[..16]) + d) % 0x1_0000_0000_0000_0000_0000_0000_0000_0000
    ensures |b| >= 16 ==>
              var w := PlainWrite(Some(b), DecrementU128NoDelete(k, d));
              w.Ok? && w.value.Put? &&
              FromBigEndian(w.value.value) == if FromBigEndian(b[..16]) <= d then 0 else FromBigEndian(b[..16]) - d
  {
    Pow256Widths();
    hide ToBigEndian, FromBigEndian, Pow256;
  }

  /** An action's size is what it puts: key and value together. */
  lemma SizeIsWhatIsPut(prev: Option<Value>, a: StorageAction)
    requires PlainWrite(prev, a).Ok? && PlainWrite(prev, a).value.Put?
    ensures Size(a) == |a.key| + |PlainWrite(prev, a).value.value|
  {
    Pow256Widths();
    hide ToBigEndian, FromBigEndian, Pow256;
  }

  datatype Undoable = Undoable(write: Write, inverse: Option<StorageAction>)

  function Restore(k: Key, prev: Option<Value>): StorageAction {
    if prev.Some? then Set(k, prev.value) else Delete(k)
  }

  /** Unlike the plain executor, this one does not skip zero deltas. */
  function InverseWrite(prev: Option<Value>, op: StorageAction): Outcome<Undoable> {
    Pow256Widths();
    match op
    case Set(k, v) =>
      Ok(if prev == Some(v) then Undoable(Keep, None) else Undoable(Put(v), Some(Restore(k, prev))))
    case Delete(k) =>
      Ok(if prev.Some? then Undoable(Remove, Some(Restore(k, prev))) else Undoable(Keep, None))
    case Insert(k, v) =>
      Ok(if prev.Some? then Undoable(Keep, None) else Undoable(Put(v), Some(Restore(k, prev))))
    case IncrementU64(k, d) =>
      var w :- AddWrite(prev, d, 8);
      Ok(Undoable(w, Some(Restore(k, prev))))
    case DecrementU64(k, d) =>
      if prev.None? then Ok(Undoable(Keep, None))
      else
        var w :- SubWrite(prev, d, 8, true);
        Ok(Undoable(w, Some(Restore(k, prev))))
    case IncrementU128(k, d) =>
      var w :- AddWrite(prev, d, 16);
      Ok(Undoable(w, Some(Restore(k, prev))))
    case DecrementU128NoDelete(k, d) =>
      if prev.None? then Ok(Undoable(Keep, None))
      else
        var w :- SubWrite(prev, d, 16, false);
        Ok(Undoable(w, Some(Restore(k, prev))))
  }

  function Written(prev: Option<Value>, w: Write): Option<Value> {
    match w
    case Keep => prev
    case Put(v) => Some(v)
    case Remove => None
  }

  function Commit(data: Store, k: Key, w: Write): (r: Store)
    ensures Get(r, k) == Written(Get(data, k), w)
    ensures forall j :: j != k ==> Get(r, j) == Get(data, j)
  {
    match w
    case Keep => data
    case Put(v) => data[k := v]
    case Remove => data - {k}
  }

  /** Whether the plain executor takes the key out of the prefetched map. */
  predicate Consults(op: StorageAction) {
    op.Insert? || (KindOf(op) != Data && Delta(op) != 0)
  }

  function ExecPlain(data: Store, fetched: Store, ops: seq<StorageAction>): Outcome<Store>
    decreases |ops|
  {
    if ops == [] then Ok(data)
    else
      var op := ops[0];
      var w :- PlainWrite(Get(fetched, op.key), op);
      ExecPlain(Commit(data, op.key, w), if Consults(op) then fetched - {op.key} else fetched, ops[1..])
  }

  datatype Undone = Undone(data: Store, inverses: seq<StorageAction>)

  function ExecInverse(data: Store, fetched: Store, ops: seq<StorageAction>): Outcome<Undone>
    decreases |ops|
  {
    if ops == [] then Ok(Undone(data, []))
    else
      var op := ops[0];
      var u :- InverseWrite(Get(fetched, op.key), op);
      Prepend(Recorded(u), ExecInverse(Commit(data, op.key, u.write), fetched - {op.key}, ops[1..]))
  }

  function Recorded(u: Undoable): seq<StorageAction> {
    if u.inverse.Some? then [u.inverse.value] else []
  }

  function Prepend(inverses: seq<StorageAction>, r: Outcome<Undone>): Outcome<Undone> {
    if r.Panic? then Panic else Ok(Undone(r.value.data, inverses + r.value.inverses))
  }

  lemma PrependTwice(a: seq<StorageAction>, b: seq<StorageAction>, r: Outcome<Undone>)
    ensures Prepend(a, Prepend(b, r)) == Prepend(a + b, r)
  {
    if r.Ok? {
      assert a + (b + r.value.inverses) == a + b + r.value.inverses;
    }
  }

  /** The values read in one batch before any action runs. */
  function Prefetch(data: Store, ops: seq<StorageAction>, needInverses: bool): (r: Store)
    ensures forall a :: a in ops && (needInverses || RequiresPreviousValue(a)) ==> Get(r, a.key) == Get(data, a.key)
  {
    map k | k in data && Wanted(ops, needInverses, k) :: data[k]
  }

  predicate Wanted(ops: seq<StorageAction>, needInverses: bool, k: Key) {
    exists a :: a in ops && a.key == k && (needInverses || RequiresPreviousValue(a))
  }

  function ApplyPlain(data: Store, ops: seq<StorageAction>): Outcome<Store> {
    ExecPlain(data, Prefetch(data, ops, false), ops)
  }

  function ApplyInverse(data: Store, ops: seq<StorageAction>): Outcome<Undone> {
    ExecInverse(data, Prefetch(data, ops, true), ops)
  }

  method Perform(txn: Transaction, k: Key, w: Write)
    modifies txn`data
    ensures txn.data == Commit(old(txn.data), k, w)
  {
    match w
    case Keep =>
    case Put(v) => txn.Put(k, v);
    case Remove => txn.Delete(k);
  }

  method BatchGet(txn: Transaction, ops: seq<StorageAction>, needInverses: bool) returns (fetched: Store)
    ensures fetched == Prefetch(txn.data, ops, needInverses)
  {
    fetched := map[];
    for i := 0 to |ops|
      invariant forall k :: k in fetched ==>
        k in txn.data && fetched[k] == txn.data[k] && Wanted(ops, needInverses, k)
      invariant forall j :: 0 <= j < i && (needInverses || RequiresPreviousValue(ops[j])) && ops[j].key in txn.data ==>
        ops[j].key in fetched
    {
      var a := ops[i];
      if (needInverses || RequiresPreviousValue(a)) && a.key in txn.data {
        fetched := fetched[a.key := txn.data[a.key]];
      }
    }
  }

  method ExecutePlain(txn: Transaction, ops: seq<StorageAction>) returns (ok: bool)
    modifies txn`data
    ensures ok <==> ApplyPlain(old(txn.data), ops).Ok?
    ensures ok ==> txn.data == ApplyPlain(old(txn.data), ops).value
  {
    var fetched := BatchGet(txn, ops, false);
    ghost var goal := ApplyPlain(txn.data, ops);
    for i := 0 to |ops|
      invariant ExecPlain(txn.data, fetched, ops[i..]) == goal
    {
      var op := ops[i];
      assert ops[i..][0] == op && ops[i..][1..] == ops[i + 1..];
      var w := PlainWrite(Get(fetched, op.key), op);
      if w.Panic? {
        return false;
      }
      Perform(txn, op.key, w.value);
      if Consults(op) {
        fetched := fetched - {op.key};
      }
    }
    ok := true;
  }

  method ExecuteWithInverse(txn: Transaction, ops: seq<StorageAction>) returns (r: Outcome<seq<StorageAction>>)
    modifies txn`data
    ensures r.Ok? <==> ApplyInverse(old(txn.data), ops).Ok?
    ensures r.Ok? ==> Undone(txn.data, r.value) == ApplyInverse(old(txn.data), ops).value
  {
    hide InverseWrite, Commit, Prefetch, Get;
    var fetched := BatchGet(txn, ops, true);
    ghost var goal := ApplyInverse(txn.data, ops);
    var inverses := [];
    assert ops[0..] == ops;
    assert goal.Ok? ==> [] + goal.value.inverses == goal.value.inverses;
    for i := 0 to |ops|
      invariant goal == Prepend(inverses, ExecInverse(txn.data, fetched, ops[i..]))
    {
      var op := ops[i];
      assert ops[i..][0] == op && ops[i..][1..] == ops[i + 1..];
      var u := InverseWrite(Get(fetched, op.key), op);
      if u.Panic? {
        return Panic;
      }
      Perform(txn, op.key, u.value.write);
      fetched := fetched - {op.key};
      PrependTwice(inverses, Recorded(u.value), ExecInverse(txn.data, fetched, ops[i + 1..]));
      inverses := inverses + Recorded(u.value);
    }
    r := Ok(inverses);
  }

  // ---- What the executors mean, key by key ----

  function Step(prev: Option<Value>, op: StorageAction): Outcome<Option<Value>> {
    var w :- PlainWrite(prev, op);
    Ok(Written(prev, w))
  }

  /** One key, one action after another, each reading what the last one left. */
  function RunKey(v: Option<Value>, ops: seq<StorageAction>): Outcome<Option<Value>>
    decreases |ops|
  {
    if ops == [] then Ok(v)
    else
      var next :- Step(v, ops[0]);
      RunKey(next, ops[1..])
  }

  /** The reference semantics: one action after another against the store itself. */
  function RunPlain(data: Store, ops: seq<StorageAction>): Outcome<Store>
    decreases |ops|
  {
    if ops == [] then Ok(data)
    else
      var w :- PlainWrite(Get(data, ops[0].key), ops[0]);
      RunPlain(Commit(data, ops[0].key, w), ops[1..])
  }

  /** The reference semantics treats keys independently of each other. */
  lemma {:induction false} RunPlainAt(data: Store, ops: seq<StorageAction>, k: Key)
    requires RunPlain(data, ops).Ok?
    ensures RunKey(Get(data, k), Project(ops, k)) == Ok(Get(RunPlain(data, ops).value, k))
    decreases |ops|
  {
    if ops != [] {
      var w := PlainWrite(Get(data, ops[0].key), ops[0]).value;
      RunPlainAt(Commit(data, ops[0].key, w), ops[1..], k);
      if ops[0].key == k {
        assert Project(ops, k)[1..] == Project(ops[1..], k);
      }
    }
  }

  lemma {:induction false} RunPlainDefined(data: Store, ops: seq<StorageAction>)
    requires forall k :: RunKey(Get(data, k), Project(ops, k)).Ok?
    ensures RunPlain(data, ops).Ok?
    decreases |ops|
  {
    if ops != [] {
      var op := ops[0];
      var head := op.key;
      assert Project(ops, head)[1..] == Project(ops[1..], head);
      assert RunKey(Get(data, head), Project(ops, head)).Ok?;
      var next := Commit(data, head, PlainWrite(Get(data, head), op).value);
      forall k ensures RunKey(Get(next, k), Project(ops[1..], k)).Ok? {
        assert RunKey(Get(data, k), Project(ops, k)).Ok?;
      }
      RunPlainDefined(next, ops[1..]);
    }
  }

  predicate DistinctKeys(ops: seq<StorageAction>) {
    forall i, j :: 0 <= i < j < |ops| ==> ops[i].key != ops[j].key
  }

  /** Prefetching is invisible: a batch with one action per key runs as if it read as it went. */
  lemma {:induction false} PrefetchTransparent(data: Store, fetched: Store, ops: seq<StorageAction>)
    requires DistinctKeys(ops)
    requires forall a :: a in ops && RequiresPreviousValue(a) ==> Get(fetched, a.key) == Get(data, a.key)
    ensures ExecPlain(data, fetched, ops) == RunPlain(data, ops)
    decreases |ops|
  {
    if ops != [] {
      var op := ops[0];
      assert PlainWrite(Get(fetched, op.key), op) == PlainWrite(Get(data, op.key), op);
      if PlainWrite(Get(data, op.key), op).Ok? {
        var next := Commit(data, op.key, PlainWrite(Get(data, op.key), op).value);
        var left := if Consults(op) then fetched - {op.key} else fetched;
        forall a | a in ops[1..] && RequiresPreviousValue(a) ensures Get(left, a.key) == Get(next, a.key) {
          assert a.key != op.key;
          assert a in ops;
        }
        PrefetchTransparent(next, left, ops[1..]);
      }
    }
  }

  function StepInverse(prev: Option<Value>, op: StorageAction): Outcome<Option<Value>> {
    var u :- InverseWrite(prev, op);
    Ok(Written(prev, u.write))
  }

  /** The same transparency for the executor with inverses, key by key. */
  lemma {:induction false} InverseBatchAt(data: Store, fetched: Store, ops: seq<StorageAction>)
    requires DistinctKeys(ops)
    requires forall a :: a in ops ==> Get(fetched, a.key) == Get(data, a.key)
    requires forall a :: a in ops ==> StepInverse(Get(data, a.key), a).Ok?
    ensures ExecInverse(data, fetched, ops).Ok?
    ensures forall a :: a in ops ==>
              StepInverse(Get(data, a.key), a) == Ok(Get(ExecInverse(data, fetched, ops).value.data, a.key))
    ensures forall k :: (forall a :: a in ops ==> a.key != k) ==>
              Get(ExecInverse(data, fetched, ops).value.data, k) == Get(data, k)
    decreases |ops|
  {
    if ops != [] {
      var op := ops[0];
      assert op in ops;
      var next := Commit(data, op.key, InverseWrite(Get(data, op.key), op).value.write);
      forall a | a in ops[1..] ensures a in ops && a.key != op.key {}
      InverseBatchAt(next, fetched - {op.key}, ops[1..]);
      forall a | a in ops
        ensures StepInverse(Get(data, a.key), a) == Ok(Get(ExecInverse(data, fetched, ops).value.data, a.key))
      {
        if a.key != op.key {
          assert a in ops[1..];
        }
      }
    }
  }

  /** Inverse lists hold only `Set` and `Delete`, which never look at the prefetched map. */
  predicate Restores(ops: seq<StorageAction>) {
    forall a :: a in ops ==> a.Set? || a.Delete?
  }

  lemma {:induction false} RestoresIgnorePrefetch(data: Store, fetched: Store, ops: seq<StorageAction>)
    requires Restores(ops)
    ensures ExecPlain(data, fetched, ops) == RunPlain(data, ops)
    ensures RunPlain(data, ops).Ok?
    decreases |ops|
  {
    if ops != [] {
      assert ops[0] in ops;
      assert PlainWrite(Get(fetched, ops[0].key), ops[0]) == PlainWrite(Get(data, ops[0].key), ops[0]);
      RestoresIgnorePrefetch(Commit(data, ops[0].key, PlainWrite(Get(data, ops[0].key), ops[0]).value), fetched, ops[1..]);
    }
  }

  function Reverse(ops: seq<StorageAction>): (r: seq<StorageAction>)
    ensures |r| == |ops|
    ensures forall a :: a in r <==> a in ops
  {
    if ops == [] then [] else Reverse(ops[1..]) + [ops[0]]
  }

  lemma {:induction false} RunPlainConcat(data: Store, a: seq<StorageAction>, b: seq<StorageAction>)
    ensures RunPlain(data, a + b) ==
            (if RunPlain(data, a).Ok? then RunPlain(RunPlain(data, a).value, b) else Panic)
    decreases |a|
  {
    if a == [] {
      assert a + b == b;
    } else {
      assert (a + b)[0] == a[0] && (a + b)[1..] == a[1..] + b;
      var w := PlainWrite(Get(data, a[0].key), a[0]);
      if w.Ok? {
        RunPlainConcat(Commit(data, a[0].key, w.value), a[1..], b);
      }
    }
  }

  /**
   * The inverses of a batch, applied last first, give back exactly the store the batch started
   * from, presence of keys included.
   */
  lemma {:induction false} InversesRestore(data: Store, fetched: Store, ops: seq<StorageAction>)
    requires DistinctKeys(ops)
    requires forall a :: a in ops ==> Get(fetched, a.key) == Get(data, a.key)
    requires ExecInverse(data, fetched, ops).Ok?
    ensures Restores(ExecInverse(data, fetched, ops).value.inverses)
    ensures var u := ExecInverse(data, fetched, ops).value;
            RunPlain(u.data, Reverse(u.inverses)) == Ok(data)
    decreases |ops|
  {
    hide InverseWrite, Commit;
    if ops != [] {
      var op := ops[0];
      var u := InverseWrite(Get(fetched, op.key), op).value;
      NoInverseNoChange(Get(data, op.key), op);
      var next := Commit(data, op.key, u.write);
      forall a | a in ops[1..] ensures Get(fetched - {op.key}, a.key) == Get(next, a.key) {
        assert a.key != op.key;
        assert a in ops;
      }
      InversesRestore(next, fetched - {op.key}, ops[1..]);
      var rest := ExecInverse(next, fetched - {op.key}, ops[1..]).value;
      if u.inverse.Some? {
        var all := [u.inverse.value] + rest.inverses;
        assert all[1..] == rest.inverses;
        RunPlainConcat(rest.data, Reverse(rest.inverses), [u.inverse.value]);
        UndoOne(data, op, u);
      } else {
        assert [] + rest.inverses == rest.inverses;
        SameLookupsSameTable(next, data);
      }
    }
  }

  lemma NoInverseNoChange(prev: Option<Value>, op: StorageAction)
    requires InverseWrite(prev, op).Ok?
    ensures var u := InverseWrite(prev, op).value;
            if u.inverse.Some? then u.inverse.value == Restore(op.key, prev) else u.write == Keep
  {
  }

  lemma UndoOne(data: Store, op: StorageAction, u: Undoable)
    requires InverseWrite(Get(data, op.key), op) == Ok(u) && u.inverse.Some?
    ensures RunPlain(Commit(data, op.key, u.write), [u.inverse.value]) == Ok(data)
  {
    var next := Commit(data, op.key, u.write);
    assert u.inverse.value == Restore(op.key, Get(data, op.key));
    var w := PlainWrite(Get(next, op.key), u.inverse.value).value;
    SameLookupsSameTable(Commit(next, op.key, w), data);
    assert RunPlain(next, [u.inverse.value]) == RunPlain(Commit(next, op.key, w), []);
  }
}
