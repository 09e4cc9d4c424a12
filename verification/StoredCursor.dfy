/** The stored cursor: its encoding, and that it names the newest point of the rollback buffer in every run. */
module StoredCursor {
  import opened Wrappers
  import opened Bytes
  import opened Points
  import opened StorageActions
  import opened Database
  import opened Executor
  import opened KeyRanges
  import opened Addresses
  import opened StorageStage
  import opened RollbackExactness
  import opened PersistentBuffer
  import opened BufferAgreement
  import opened RestartRuns
  import SB = SyncBatcher
  import RB = RollbackBuffer

  // ---- Decoding ----

  datatype Position = Position(point: Point, height: U64)

  /** None where the source panics. */
  function DecodeCursor(b: Bytes): Option<Position> {
    if b == [] then None
    else if b[0] == 79 then Some(Position(Origin, 0))
    else if b[0] == 83 && |b| >= 49 then Some(Position(Specific(U64From(b[1..9]), b[9..41]), U64From(b[41..49])))
    else None
  }

  lemma CursorRoundTrip(p: Point, height: U64)
    requires p.Specific? ==> |p.hash| == 32
    ensures DecodeCursor(CursorValue(p, height)) == Some(Position(p, if p.Origin? then 0 else height))
  {
    if p.Specific? {
      var b := CursorValue(p, height);
      assert b[1..9] == U64Bytes(p.slot) && b[9..41] == p.hash && b[41..49] == U64Bytes(height);
    }
  }

  // ---- What a reduced block writes ----

  /** Reducers emit their own outputs, on other keys, and the cursor comes last. */
  function Reduced(outputs: seq<ReducerOutput>, p: Point, height: U64): seq<ReducerOutput> {
    outputs + [Cursor(p, height)]
  }

  predicate Elsewhere(e: Encoder, outputs: seq<ReducerOutput>) {
    forall i :: 0 <= i < |outputs| ==> outputs[i].Act? && outputs[i].action.key != CursorKey(e)
  }

  /** A block's actions on the cursor key are the one that sets it to the block's point and height. */
  lemma {:induction false} ReducedSetsCursor(e: Encoder, outputs: seq<ReducerOutput>, p: Point, height: U64, clock: U64)
    requires Elsewhere(e, outputs)
    ensures Project(StorageOps(e, Reduced(outputs, p, height), clock), CursorKey(e)) == [Set(CursorKey(e), CursorValue(p, height))]
  {
    hide CursorValue, InfoValue;
    var all, k := Reduced(outputs, p, height), CursorKey(e);
    if outputs == [] {
      assert all == [Cursor(p, height)] && all[1..] == [];
      var ops := OutputOps(e, Cursor(p, height), clock);
      assert StorageOps(e, all, clock) == ops + [] == ops;
      assert |InfoKey(e)| != |k|;
      CursorOps(e, p, height, clock);
    } else {
      assert all[0] == outputs[0] && all[1..] == Reduced(outputs[1..], p, height);
      ReducedSetsCursor(e, outputs[1..], p, height, clock);
      var first := OutputOps(e, outputs[0], clock);
      assert first == [outputs[0].action] && first[1..] == [];
      ProjectConcat(first, StorageOps(e, all[1..], clock), k);
      assert Project(first, k) == [];
    }
  }

  function Actions(outputs: seq<ReducerOutput>): seq<StorageAction>
    requires forall i :: 0 <= i < |outputs| ==> outputs[i].Act?
  {
    seq(|outputs|, i requires 0 <= i < |outputs| => outputs[i].action)
  }

  /** Nothing the reducers emit is lost or reordered, and the cursor and info writes come last. */
  lemma {:induction false} ReducedOps(e: Encoder, outputs: seq<ReducerOutput>, p: Point, height: U64, clock: U64)
    requires p.Specific? && forall i :: 0 <= i < |outputs| ==> outputs[i].Act?
    ensures StorageOps(e, Reduced(outputs, p, height), clock) ==
            Actions(outputs) + [Set([e.dataplane, e.instance, 67], CursorValue(p, height)),
                                Set([73, 96, e.dataplane, e.instance], U64Bytes(height) + p.hash + [0] + U64Bytes(clock))]
  {
    hide CursorValue;
    var all := Reduced(outputs, p, height);
    if outputs == [] {
      assert all == [Cursor(p, height)] && all[1..] == [];
    } else {
      assert all[0] == outputs[0] && all[1..] == Reduced(outputs[1..], p, height);
      ReducedOps(e, outputs[1..], p, height, clock);
      assert Actions(outputs) == [outputs[0].action] + Actions(outputs[1..]);
    }
  }

  lemma CursorOps(e: Encoder, p: Point, height: U64, clock: U64)
    ensures Project(OutputOps(e, Cursor(p, height), clock), CursorKey(e)) == [Set(CursorKey(e), CursorValue(p, height))]
  {
    hide CursorValue, InfoValue;
    var ops := OutputOps(e, Cursor(p, height), clock);
    assert |InfoKey(e)| != |CursorKey(e)|;
    if p.Origin? {
      assert ops[1..] == [];
    } else {
      assert ops[1..][1..] == [];
      assert Project(ops[1..], CursorKey(e)) == [];
    }
  }

  // ---- What is in the store afterwards ----

  lemma {:induction false} Untouched(data: Store, fetched: Store, ops: seq<StorageAction>, k: Key)
    requires ExecInverse(data, fetched, ops).Ok? && forall a :: a in ops ==> a.key != k
    ensures Get(ExecInverse(data, fetched, ops).value.data, k) == Get(data, k)
    decreases |ops|
  {
    hide InverseWrite;
    if ops != [] {
      var op := ops[0];
      assert op in ops;
      var u := InverseWrite(Get(fetched, op.key), op).value;
      Untouched(Commit(data, op.key, u.write), fetched - {op.key}, ops[1..], k);
    }
  }

  lemma {:induction false} SetIsWritten(data: Store, fetched: Store, ops: seq<StorageAction>, a: StorageAction)
    requires DistinctKeys(ops) && ExecInverse(data, fetched, ops).Ok? && a in ops && a.Set?
    requires Get(fetched, a.key) == Get(data, a.key)
    ensures Get(ExecInverse(data, fetched, ops).value.data, a.key) == Some(a.value)
    decreases |ops|
  {
    var op := ops[0];
    var u := InverseWrite(Get(fetched, op.key), op).value;
    var next := Commit(data, op.key, u.write);
    if op == a {
      assert forall x :: x in ops[1..] ==> x.key != a.key;
      Untouched(next, fetched - {op.key}, ops[1..], a.key);
    } else {
      assert a in ops[1..] && op.key != a.key;
      hide InverseWrite;
      SetIsWritten(next, fetched - {op.key}, ops[1..], a);
    }
  }

  lemma ForwardWrites(s: Stage, ev: Event, k: Key, v: Value)
    requires ev.Forward? && Listed(ev) && StepEvent(s, ev).Ok? && Project(ev.ops, k) == [Set(k, v)]
    ensures Get(StepEvent(s, ev).value.db.data, k) == Some(v)
  {
    var m := SB.PushAll(map[], ev.ops).value;
    SB.PushAllAt(map[], ev.ops, k);
    assert [Set(k, v)][1..] == [];
    assert k in m && m[k] == Set(k, v);
    var flushed := FlushPending(s, ev.orders).value;
    assert Set(k, v) in ev.orders.block;
    hide ExecInverse, SB.PushAll, MutableMeta;
    SetIsWritten(flushed, Prefetch(flushed, ev.orders.block, true), ev.orders.block, Set(k, v));
  }

  // ---- Runs ----

  /** The stored cursor decodes to the point. */
  ghost predicate Names(e: Encoder, data: Store, p: Point) {
    Get(data, CursorKey(e)).Some? && DecodeCursor(Get(data, CursorKey(e)).value).Some?
    && DecodeCursor(Get(data, CursorKey(e)).value).value.point == p
  }

  /** What `ReducedSetsCursor` says of a reduced block's actions. */
  ghost predicate Marks(e: Encoder, ev: Event) {
    ev.Forward? ==>
      && (ev.point.Specific? ==> |ev.point.hash| == 32)
      && exists height: U64 :: Project(ev.ops, CursorKey(e)) == [Set(CursorKey(e), CursorValue(ev.point, height))]
  }

  ghost predicate AllMark(e: Encoder, actions: seq<Action>) {
    forall i :: 0 <= i < |actions| && actions[i].Work? ==> Marks(e, actions[i].event)
  }

  /** Every snapshot but the oldest, which may be the seed, holds a cursor that names its point. */
  ghost predicate AllNamed(e: Encoder, snapshots: seq<Snapshot>) {
    forall i :: 0 <= i < |snapshots| - 1 ==> Names(e, snapshots[i].result, snapshots[i].point)
  }

  lemma ForwardNames(e: Encoder, s: Stage, ev: Event)
    requires ev.Forward? && Marks(e, ev) && Listed(ev) && StepEvent(s, ev).Ok?
    ensures Names(e, StepEvent(s, ev).value.db.data, ev.point)
  {
    var height: U64 :| Project(ev.ops, CursorKey(e)) == [Set(CursorKey(e), CursorValue(ev.point, height))];
    hide StepEvent, Listed, CursorValue, DecodeCursor, Project;
    ForwardWrites(s, ev, CursorKey(e), CursorValue(ev.point, height));
    CursorRoundTrip(ev.point, height);
  }

  lemma {:induction false} SurvivorsNamed(e: Encoder, h: seq<Entry>, snapshots: seq<Snapshot>)
    requires |h| == |snapshots| && AllNamed(e, snapshots)
    ensures AllNamed(e, Survivors(h, snapshots))
    ensures Survivors(h, snapshots) == [] || |Survivors(h, snapshots)| <= |snapshots|
  {
    hide Names;
    if h != [] {
      assert AllNamed(e, snapshots[1..]) by {
        assert forall i :: 0 <= i < |snapshots[1..]| - 1 ==> snapshots[1..][i] == snapshots[i + 1];
      }
      SurvivorsNamed(e, h[1..], snapshots[1..]);
      var rest := Survivors(h[1..], snapshots[1..]);
      assert |rest| > 0 ==> |snapshots| > 1;
      assert Survivors(h, snapshots) == (if Survives(h[0]) then [snapshots[0]] else []) + rest;
    }
  }

  lemma StepNames(e: Encoder, w: World, a: Action)
    requires Consistent(false, w) && Admissible(false, w, a) && StepWorld(w, a).Ok? && AllNamed(e, w.snapshots)
    requires a.Work? ==> Marks(e, a.event)
    ensures AllNamed(e, StepWorld(w, a).value.snapshots)
  {
    hide Names, Marks, StepEvent, Admissible;
    match a
    case Restart(kvs, intersect) => SurvivorsNamed(e, w.undo, w.snapshots);
    case Work(ev) =>
      if ev.Forward? {
        AdmissibleListed(w, ev);
        ForwardNames(e, w.stage, ev);
      }
  }

  lemma AdmissibleListed(w: World, ev: Event)
    requires Admissible(false, w, Work(ev)) && ev.Forward?
    ensures Listed(ev)
  {
  }

  lemma {:induction false} RunNames(e: Encoder, w: World, actions: seq<Action>)
    requires Consistent(false, w) && AllNamed(e, w.snapshots) && AllMark(e, actions)
    requires AdmissibleRun(false, w, actions) && RunWorld(w, actions).Ok?
    ensures AllNamed(e, RunWorld(w, actions).value.snapshots)
    decreases |actions|
  {
    hide Consistent, Admissible, StepWorld, AllNamed, Marks;
    if actions != [] {
      var n := |actions| - 1;
      RunNames(e, w, actions[..n]);
      RunStaysConsistent(false, w, actions[..n]);
      StepNames(e, RunWorld(w, actions[..n]).value, actions[n]);
    }
  }

  /**
   * In every run of reduced mutable blocks, roll-backs and restarts, whenever anything but the seed is left to
   * roll back, the stored cursor names the newest point of the rollback buffer: a restart resumes where the
   * buffer says.
   */
  lemma CursorNamesTip(e: Encoder, w: World, actions: seq<Action>)
    requires Consistent(false, w) && AllNamed(e, w.snapshots) && AllMark(e, actions)
    requires AdmissibleRun(false, w, actions) && RunWorld(w, actions).Ok?
    requires |RunWorld(w, actions).value.snapshots| > 1
    ensures var s := RunWorld(w, actions).value.stage;
            s.buffer != [] && Names(e, s.db.data, s.buffer[0].point)
  {
    RunNames(e, w, actions);
    RunStaysConsistent(false, w, actions);
    var now := RunWorld(w, actions).value;
    hide RunWorld, AdmissibleRun;
    assert Names(e, now.snapshots[0].result, now.snapshots[0].point);
  }
}
