/**
 * The storage stage: one work unit is a roll-forward or a roll-back message, executed in one
 * database transaction and retried until it commits.
 */
module StorageStage {
  import opened Wrappers
  import opened Bytes
  import opened Points
  import opened StorageActions
  import opened Database
  import opened Executor
  import opened KeyRanges
  import SB = SyncBatcher
  import RB = RollbackBuffer

  type Entry = RB.PointWithResult<seq<StorageAction>>

  /** Reducer outputs are already storage actions here, except the cursor, which reads the clock. */
  datatype ReducerOutput = Act(action: StorageAction) | Cursor(point: Point, height: U64)

  datatype WorkUnit =
    | RollForward(point: Point, outputs: seq<ReducerOutput>, mutable: bool)
    | RollBack(point: Point)

  /** The batcher's fields, as a value. */
  datatype Batcher = Batcher(actions: SB.Batch, len: nat, bytes: nat, lastPoint: Option<Point>)

  const EMPTY_BATCHER := Batcher(map[], 0, 0, None)

  datatype Stage = Stage(
    db: Database,
    batcher: Batcher,
    buffer: seq<Entry>,
    last: Option<Point>,
    lock: Option<WorkUnit>)

  /** The orders in which the hash maps of pending and of block actions happen to be listed. */
  datatype Orders = Orders(pending: seq<StorageAction>, block: seq<StorageAction>)

  // ---- Reducer outputs to storage actions ----

  function CursorKey(e: Encoder): Key {
    [e.dataplane, e.instance, 67]
  }

  function InfoKey(e: Encoder): Key {
    [73, BREAK, e.dataplane, e.instance]
  }

  function CursorValue(point: Point, height: U64): Value {
    if point.Origin? then [79] else [83] + U64Bytes(point.slot) + point.hash + U64Bytes(height)
  }

  function InfoValue(point: Point, height: U64, clock: U64): Value {
    if point.Origin? then [] else U64Bytes(height) + point.hash + [0] + U64Bytes(clock)
  }

  function OutputOps(e: Encoder, output: ReducerOutput, clock: U64): seq<StorageAction> {
    match output
    case Act(a) => [a]
    case Cursor(p, h) =>
      if p.Origin? then [Set(CursorKey(e), CursorValue(p, h))]
      else [Set(CursorKey(e), CursorValue(p, h)), Set(InfoKey(e), InfoValue(p, h, clock))]
  }

  function StorageOps(e: Encoder, outputs: seq<ReducerOutput>, clock: U64): seq<StorageAction> {
    if outputs == [] then [] else OutputOps(e, outputs[0], clock) + StorageOps(e, outputs[1..], clock)
  }

  // ---- Rollback metadata ----

  /** The persisted form of an inverse: its value, or nothing for a deletion. */
  function InverseValue(a: StorageAction): Value {
    if a.Set? then a.value else []
  }

  function MetaOf(slot: U64, hash: Bytes, inverses: seq<StorageAction>): Metadata {
    if inverses == [] then map[]
    else
      var n := |inverses| - 1;
      MetaOf(slot, hash, inverses[..n])[MetaKey(slot, hash, n, inverses[n].key) := InverseValue(inverses[n])]
  }

  const GC_SLOTS: nat := RB.MAX_BUFFER_LEN * 20

  function GcMeta(meta: Metadata, slot: U64): Metadata {
    if slot >= GC_SLOTS then WithoutSlots(meta, 0, slot - GC_SLOTS) else meta
  }

  /** First slot of the range that is trimmed; the addition wraps like the source's `u64`. */
  function AfterSlot(slot: U64): U64 {
    if slot + 1 < TWO_64 then slot + 1 else 0
  }

  function TrimMeta(meta: Metadata, after: U64): Metadata {
    WithoutSlots(meta, AfterSlot(after), TWO_64)
  }

  function SeedMeta(first: bool, last: Option<Point>): Metadata {
    if first && last.Some? && last.value.Specific? then
      MetaOf(last.value.slot, last.value.hash, [Delete([])])
    else map[]
  }

  // ---- The three branches of one work unit ----

  function AddBlock(buffer: seq<Entry>, point: Point, inverses: seq<StorageAction>): seq<Entry> {
    RB.Truncate([RB.PointWithResult(point, inverses)] + buffer)
  }

  function SeedPoint(last: Option<Point>): Point {
    if last.Some? then last.value else Origin
  }

  function NewBatch(point: Point, ops: seq<StorageAction>, base: Batcher): Outcome<Batcher> {
    var actions :- SB.PushAll(base.actions, ops);
    Ok(Batcher(actions, base.len + 1, base.bytes + SB.SizeOf(ops), Some(point)))
  }

  predicate FlushDue(b: Batcher, ops: seq<StorageAction>, maxLen: nat, maxBytes: nat) {
    (b.bytes + SB.SizeOf(ops)) * 2 > maxBytes || b.len >= maxLen
  }

  /** An immutable block: flush the pending batch first if it is full, then start or grow a batch. */
  function Immutable(s: Stage, point: Point, ops: seq<StorageAction>, flush: bool, o: Orders): Outcome<Stage> {
    if flush then
      var data :- ApplyPlain(s.db.data, o.pending);
      var batch :- NewBatch(point, ops, EMPTY_BATCHER);
      Ok(s.(db := s.db.(data := data), batcher := batch, last := Some(point), lock := None))
    else
      var batch :- NewBatch(point, ops, s.batcher);
      Ok(s.(batcher := batch))
  }

  function FlushPending(s: Stage, o: Orders): Outcome<Store> {
    if s.batcher.actions == map[] then Ok(s.db.data) else ApplyPlain(s.db.data, o.pending)
  }

  datatype Prepared = Prepared(db: Database, inverses: seq<StorageAction>)

  function MutableMeta(s: Stage, point: Point, inverses: seq<StorageAction>): Metadata {
    var seeded := s.db.meta + SeedMeta(s.buffer == [], s.last);
    if point.Origin? then seeded
    else GcMeta(seeded + MetaOf(point.slot, point.hash, inverses), point.slot)
  }

  /** The transaction of a mutable block: flush what is pending, apply the block, record inverses. */
  function PrepareMutable(s: Stage, point: Point, ops: seq<StorageAction>, o: Orders): Outcome<Prepared> {
    var flushed :- FlushPending(s, o);
    var _ :- SB.PushAll(map[], ops);
    var u :- ApplyInverse(flushed, o.block);
    Ok(Prepared(Database(u.data, MutableMeta(s, point, u.inverses)), u.inverses))
  }

  lemma LockIsNotRead(s: Stage, point: Point, ops: seq<StorageAction>, o: Orders)
    ensures PrepareMutable(s.(lock := None), point, ops, o) == PrepareMutable(s, point, ops, o)
  {
  }

  /** What the worker does to itself once that transaction has committed. */
  function FinishMutable(s: Stage, point: Point, p: Prepared): Stage {
    var base := if s.buffer == [] then AddBlock(s.buffer, SeedPoint(s.last), []) else s.buffer;
    Stage(
      p.db,
      if s.batcher.actions == map[] then s.batcher else EMPTY_BATCHER,
      AddBlock(base, point, p.inverses),
      Some(point),
      None)
  }

  function Mutable(s: Stage, point: Point, ops: seq<StorageAction>, o: Orders): Outcome<Stage> {
    var p :- PrepareMutable(s, point, ops, o);
    Ok(FinishMutable(s, point, p))
  }

  /** All inverses of the given entries, the most recently applied action first. */
  function UndoList(entries: seq<Entry>): seq<StorageAction> {
    if entries == [] then [] else Reverse(entries[0].result) + UndoList(entries[1..])
  }

  function Back(s: Stage, point: Point): Outcome<Stage> {
    match RB.Position(s.buffer, point)
    case None => Panic
    case Some(i) =>
      var data :- ApplyPlain(s.db.data, UndoList(s.buffer[..i]));
      Ok(s.(
        db := Database(data, TrimMeta(s.db.meta, SlotOrDefault(point))),
        buffer := s.buffer[i..],
        last := Some(point),
        lock := None))
  }

  datatype Config = Config(encoder: Encoder, maxLen: nat, maxBytes: nat)

  /** One execution of a work unit that reaches its commit. */
  function Execute(c: Config, s: Stage, unit: WorkUnit, clock: U64, o: Orders): Outcome<Stage> {
    match unit
    case RollBack(p) => Back(s, p)
    case RollForward(p, outputs, mutable) =>
      var ops := StorageOps(c.encoder, outputs, clock);
      if mutable then Mutable(s, p, ops, o)
      else Immutable(s, p, ops, FlushDue(s.batcher, ops, c.maxLen, c.maxBytes), o)
  }

  /** Whether the execution takes the two-phase lock and talks to the database at all. */
  predicate Transacts(c: Config, s: Stage, unit: WorkUnit, clock: U64) {
    unit.RollBack? || unit.mutable ||
    FlushDue(s.batcher, StorageOps(c.encoder, unit.outputs, clock), c.maxLen, c.maxBytes)
  }

  // ---- The worker ----

  datatype Status = Committed | Failed | Panicked

  /** A unit commits exactly if its execution is defined and the database does not fail it. */
  predicate Outcomes(r: Status, spec: Outcome<Stage>, faulty: bool) {
    && (r == Committed <==> spec.Ok? && !faulty)
    && (r == Failed ==> faulty)
    && (r == Panicked ==> spec.Panic?)
  }

  class Worker {
    const config: Config
    const batcher: SB.SyncBatcher
    const rollbackBuffer: RB.RollbackBuffer<seq<StorageAction>>
    var db: Database
    var workUnit: Option<WorkUnit>
    var lastProcessed: Option<Point>

    ghost predicate Valid()
      reads this, batcher, rollbackBuffer
    {
      && batcher.Valid() && rollbackBuffer.Valid()
      && batcher.maxLen == config.maxLen && batcher.maxBytes == config.maxBytes
    }

    ghost function View(): Stage
      reads this, batcher, rollbackBuffer
    {
      Stage(
        db,
        Batcher(batcher.batchActions, batcher.currentLen, batcher.estimatedBytes, batcher.lastPoint),
        rollbackBuffer.blocks,
        lastProcessed,
        workUnit)
    }

    /** Start from a database, its cursor point and the reloaded buffer (oldest entry first). */
    constructor (config: Config, db: Database, intersect: Option<Point>, persisted: seq<Entry>)
      ensures Valid() && fresh(batcher) && fresh(rollbackBuffer)
      ensures this.config == config
      ensures View() == Stage(db, EMPTY_BATCHER, Populate(persisted), intersect, None)
    {
      this.config := config;
      this.db := db;
      workUnit := None;
      lastProcessed := intersect;
      batcher := new SB.SyncBatcher(config.maxLen, config.maxBytes);
      rollbackBuffer := new RB.RollbackBuffer();
      new;
      for i := 0 to |persisted|
        modifies rollbackBuffer
        invariant rollbackBuffer.Valid()
        invariant rollbackBuffer.blocks == Populate(persisted[..i])
      {
        assert persisted[..i + 1][..i] == persisted[..i];
        rollbackBuffer.AddBlock(persisted[i].point, persisted[i].result);
      }
      assert persisted[..|persisted|] == persisted;
    }

    /** The uncommitted unit if there is one, otherwise the next message, taken off the queue. */
    method Schedule(queue: seq<WorkUnit>) returns (unit: WorkUnit, rest: seq<WorkUnit>)
      requires workUnit.Some? || queue != []
      ensures workUnit.Some? ==> Some(unit) == workUnit && rest == queue
      ensures workUnit.None? ==> unit == queue[0] && rest == queue[1..]
    {
      if workUnit.Some? {
        return workUnit.value, queue;
      }
      unit, rest := queue[0], queue[1..];
    }

    /**
     * Execute a unit. `fault` says that the database fails the transaction at or before its commit;
     * then everything but the retry lock is as before.
     */
    method Run(unit: WorkUnit, clock: U64, fault: bool) returns (r: Status, ghost o: Orders)
      requires Valid()
      modifies this`db, this`workUnit, this`lastProcessed, batcher, rollbackBuffer
      ensures SB.Enumerates(o.pending, old(batcher.batchActions))
      ensures unit.RollForward? && unit.mutable ==> Enumerated(config, unit, clock, o)
      ensures Outcomes(r, Execute(config, old(View()), unit, clock, o), fault && Transacts(config, old(View()), unit, clock))
      ensures r == Committed ==> Valid() && View() == Execute(config, old(View()), unit, clock, o).value
      ensures r == Failed ==> Valid() && View() == old(View()).(lock := Some(unit))
    {
      var pending := batcher.GetBatchActions();
      match unit
      case RollBack(p) =>
        o := Orders(pending, []);
        r := RunRollBack(unit, fault);
      case RollForward(p, outputs, mutable) =>
        var ops := StorageOps(config.encoder, outputs, clock);
        if mutable {
          var order;
          r, order := RunMutable(unit, ops, pending, fault);
          o := Orders(pending, order);
        } else {
          o := Orders(pending, []);
          r := RunImmutable(unit, ops, pending, fault);
        }
    }

    method RunRollBack(unit: WorkUnit, fault: bool) returns (r: Status)
      requires Valid() && unit.RollBack?
      modifies this`db, this`workUnit, this`lastProcessed, rollbackBuffer
      ensures Outcomes(r, Back(old(View()), unit.point), fault)
      ensures r == Committed ==> Valid() && View() == Back(old(View()), unit.point).value
      ensures r == Failed ==> Valid() && View() == old(View()).(lock := Some(unit))
    {
      hide ApplyPlain, WithoutSlots, RB.Position;
      workUnit := Some(unit);
      var txn := new Transaction(db);
      var since := rollbackBuffer.PointsSince(unit.point);
      if since.None? {
        return Panicked;
      }
      var inverses := [];
      for i := 0 to |since.value|
        invariant inverses + UndoList(since.value[i..]) == UndoList(since.value)
      {
        assert since.value[i..][0] == since.value[i] && since.value[i..][1..] == since.value[i + 1..];
        inverses := inverses + Reverse(since.value[i].result);
      }
      assert inverses == UndoList(since.value);
      var ok := ExecutePlain(txn, inverses);
      if !ok {
        return Panicked;
      }
      txn.DeleteMetaRange(AfterSlot(SlotOrDefault(unit.point)), TWO_64, 100);
      if fault {
        return Failed;
      }
      db := Database(txn.data, txn.meta);
      workUnit := None;
      lastProcessed := Some(unit.point);
      var _ := rollbackBuffer.RollbackToPoint(unit.point);
      r := Committed;
    }

    method RunImmutable(unit: WorkUnit, ops: seq<StorageAction>, pending: seq<StorageAction>, fault: bool)
      returns (r: Status)
      requires Valid() && unit.RollForward? && !unit.mutable
      modifies this`db, this`workUnit, this`lastProcessed, batcher
      ensures var spec := Immutable(old(View()), unit.point, ops, old(batcher.FlushDue(ops)), Orders(pending, []));
              && Outcomes(r, spec, fault && old(batcher.FlushDue(ops)))
              && (r == Committed ==> Valid() && View() == spec.value)
              && (r == Failed ==> Valid() && View() == old(View()).(lock := Some(unit)))
    {
      hide ApplyPlain, SB.PushAll, SB.SizeOf;
      var flush := batcher.ShouldFlush(ops);
      if flush {
        workUnit := Some(unit);
        var txn := new Transaction(db);
        var ok := ExecutePlain(txn, pending);
        if !ok {
          return Panicked;
        }
        if fault {
          return Failed;
        }
        db := db.(data := txn.data);
        workUnit := None;
        lastProcessed := Some(unit.point);
        batcher.Wipe();
      }
      var pushed := batcher.PushActions(unit.point, ops);
      r := if pushed then Committed else Panicked;
    }

    method RunMutable(unit: WorkUnit, ops: seq<StorageAction>, pending: seq<StorageAction>, fault: bool)
      returns (r: Status, order: seq<StorageAction>)
      requires Valid() && unit.RollForward? && unit.mutable
      modifies this`db, this`workUnit, this`lastProcessed, batcher, rollbackBuffer
      ensures SB.PushAll(map[], ops).Ok? ==> SB.Enumerates(order, SB.PushAll(map[], ops).value)
      ensures var spec := Mutable(old(View()), unit.point, ops, Orders(pending, order));
              && Outcomes(r, spec, fault)
              && (r == Committed ==> Valid() && View() == spec.value)
              && (r == Failed ==> Valid() && View() == old(View()).(lock := Some(unit)))
    {
      hide PrepareMutable, SB.PushAll, SB.Enumerates, RB.Truncate;
      var firstMutable := rollbackBuffer.blocks == [];
      workUnit := Some(unit);
      var txn := new Transaction(db);
      var inverses;
      inverses, order := FillTransaction(txn, unit.point, ops, pending);
      LockIsNotRead(old(View()), unit.point, ops, Orders(pending, order));
      if inverses.Panic? {
        return Panicked, order;
      }
      if fault {
        return Failed, order;
      }
      db := Database(txn.data, txn.meta);
      workUnit := None;
      if firstMutable {
        rollbackBuffer.AddBlock(SeedPoint(lastProcessed), []);
      }
      lastProcessed := Some(unit.point);
      rollbackBuffer.AddBlock(unit.point, inverses.value);
      if batcher.batchActions != map[] {
        batcher.Wipe();
      }
      r := Committed;
    }

    /** Everything a mutable block does inside its transaction; the worker itself is untouched. */
    method FillTransaction(txn: Transaction, point: Point, ops: seq<StorageAction>, pending: seq<StorageAction>)
      returns (r: Outcome<seq<StorageAction>>, order: seq<StorageAction>)
      requires Valid() && txn.data == db.data && txn.meta == db.meta
      modifies txn
      ensures SB.PushAll(map[], ops).Ok? ==> SB.Enumerates(order, SB.PushAll(map[], ops).value)
      ensures var spec := PrepareMutable(old(View().(lock := None)), point, ops, Orders(pending, order));
              (r.Ok? <==> spec.Ok?) &&
              (r.Ok? ==> spec.value == Prepared(Database(txn.data, txn.meta), r.value))
    {
      hide ApplyPlain, ApplyInverse, MetaOf, WithoutSlots, SB.PushAll, SB.Enumerates;
      order := [];
      var merger := new SB.SyncBatcher(1, TWO_64);
      var merges := merger.PushActions(point, ops);
      if merges {
        order := merger.GetBatchActions();
      }
      if batcher.batchActions != map[] {
        var ok := ExecutePlain(txn, pending);
        if !ok {
          return Panic, order;
        }
      }
      if !merges {
        return Panic, order;
      }
      r := ExecuteWithInverse(txn, order);
      if r.Panic? {
        return;
      }
      RecordInverses(txn, point, r.value);
    }

    method RecordInverses(txn: Transaction, point: Point, inverses: seq<StorageAction>)
      requires txn.meta == db.meta
      modifies txn`meta
      ensures txn.meta == MutableMeta(old(View()), point, inverses)
    {
      hide MetaOf, WithoutSlots;
      if rollbackBuffer.blocks == [] && lastProcessed.Some? && lastProcessed.value.Specific? {
        ApplyRollbackActions(txn, [Delete([])], lastProcessed.value.slot, lastProcessed.value.hash);
      }
      assert txn.meta == db.meta + SeedMeta(rollbackBuffer.blocks == [], lastProcessed);
      if point.Specific? {
        ApplyRollbackActions(txn, inverses, point.slot, point.hash);
        if point.slot >= GC_SLOTS {
          txn.DeleteMetaRange(0, point.slot - GC_SLOTS, 1000);
        }
      }
    }
  }

  /** Write one point's inverses under its metadata keys, indexed in execution order. */
  method ApplyRollbackActions(txn: Transaction, inverses: seq<StorageAction>, slot: U64, hash: Bytes)
    modifies txn`meta
    ensures txn.meta == old(txn.meta) + MetaOf(slot, hash, inverses)
  {
    for i := 0 to |inverses|
      invariant txn.meta == old(txn.meta) + MetaOf(slot, hash, inverses[..i])
    {
      assert inverses[..i + 1][..i] == inverses[..i];
      txn.PutMeta(MetaKey(slot, hash, i, inverses[i].key), InverseValue(inverses[i]));
    }
    assert inverses[..|inverses|] == inverses;
  }

  ghost predicate Enumerated(c: Config, unit: WorkUnit, clock: U64, o: Orders)
    requires unit.RollForward?
  {
    var merged := SB.PushAll(map[], StorageOps(c.encoder, unit.outputs, clock));
    merged.Ok? ==> SB.Enumerates(o.block, merged.value)
  }

  /** Feed a reloaded buffer, oldest entry first, into an empty one. */
  function Populate(persisted: seq<Entry>): (r: seq<Entry>)
    ensures |r| <= RB.MAX_BUFFER_LEN
  {
    if persisted == [] then []
    else
      var n := |persisted| - 1;
      AddBlock(Populate(persisted[..n]), persisted[n].point, persisted[n].result)
  }
}
