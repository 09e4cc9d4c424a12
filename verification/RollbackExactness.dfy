/** Whole runs of the storage stage: rollbacks restore snapshots, and retries are invisible. */
module RollbackExactness {
  import opened Wrappers
  import opened Bytes
  import opened Points
  import opened StorageActions
  import opened Database
  import opened Executor
  import opened KeyRanges
  import opened StorageStage
  import SB = SyncBatcher
  import RB = RollbackBuffer

  /** One message of a mutable run, with the listing orders its execution happened to see. */
  datatype Event =
    | Forward(point: Point, ops: seq<StorageAction>, orders: Orders)
    | Backward(point: Point)

  function StepEvent(s: Stage, e: Event): Outcome<Stage> {
    match e
    case Forward(p, ops, o) => Mutable(s, p, ops, o)
    case Backward(p) => Back(s, p)
  }

  ghost predicate Listed(e: Event) {
    e.Forward? && SB.PushAll(map[], e.ops).Ok? ==> SB.Enumerates(e.orders.block, SB.PushAll(map[], e.ops).value)
  }

  function RunEvents(s: Stage, es: seq<Event>): Outcome<Stage> {
    if es == [] then Ok(s)
    else
      var before :- RunEvents(s, es[..|es| - 1]);
      StepEvent(before, es[|es| - 1])
  }

  // ---- The reference: a machine that keeps whole snapshots and knows no inverses ----

  type Snapshot = RB.PointWithResult<Store>

  /** Snapshots after each point, newest first, as they were seen when the point was applied. */
  function Record(h: seq<Snapshot>, s: Stage, e: Event): seq<Snapshot>
    requires StepEvent(s, e).Ok?
  {
    match e
    case Forward(p, _, o) =>
      var here := RB.PointWithResult(p, StepEvent(s, e).value.db.data);
      if s.buffer == [] then [here, RB.PointWithResult(SeedPoint(s.last), FlushPending(s, o).value)]
      else [here] + h
    case Backward(p) =>
      match RB.Position(h, p)
      case None => h
      case Some(i) => h[i..]
  }

  function History(h: seq<Snapshot>, s: Stage, es: seq<Event>): seq<Snapshot>
    requires RunEvents(s, es).Ok?
  {
    if es == [] then h
    else
      var before := RunEvents(s, es[..|es| - 1]).value;
      Record(History(h, s, es[..|es| - 1]), before, es[|es| - 1])
  }

  // ---- Inverses against snapshots ----

  /** Each entry's inverses lead from its own snapshot to the next older one. */
  ghost predicate Undoes(buffer: seq<Entry>, h: seq<Snapshot>) {
    && |buffer| <= |h|
    && (forall i :: 0 <= i < |buffer| ==> h[i].point == buffer[i].point)
    && (forall i :: 0 <= i < |buffer| - 1 ==> UndoesOne(buffer[i], h[i].result, h[i + 1].result))
  }

  predicate UndoesOne(e: Entry, newer: Store, older: Store) {
    Restores(e.result) && RunPlain(newer, Reverse(e.result)) == Ok(older)
  }

  ghost predicate Aligned(s: Stage, h: seq<Snapshot>) {
    && Undoes(s.buffer, h)
    && (s.buffer != [] ==> h[0].result == s.db.data && s.batcher.actions == map[])
  }

  lemma {:induction false} UndoTo(buffer: seq<Entry>, h: seq<Snapshot>, i: nat)
    requires Undoes(buffer, h) && i < |buffer|
    ensures Restores(UndoList(buffer[..i]))
    ensures RunPlain(h[0].result, UndoList(buffer[..i])) == Ok(h[i].result)
    decreases i
  {
    if i > 0 {
      assert UndoesOne(buffer[0], h[0].result, h[1].result);
      forall j | 0 <= j < |buffer[1..]| - 1 ensures UndoesOne(buffer[1..][j], h[1..][j].result, h[1..][j + 1].result) {
        assert UndoesOne(buffer[j + 1], h[j + 1].result, h[j + 2].result);
      }
      UndoTo(buffer[1..], h[1..], i - 1);
      assert buffer[..i][0] == buffer[0] && buffer[..i][1..] == buffer[1..][..i - 1];
      RunPlainConcat(h[0].result, Reverse(buffer[0].result), UndoList(buffer[1..][..i - 1]));
    }
  }

  lemma SamePosition<T>(buffer: seq<Entry>, h: seq<RB.PointWithResult<T>>, p: Point)
    requires |buffer| <= |h|
    requires forall i :: 0 <= i < |buffer| ==> h[i].point == buffer[i].point
    requires RB.Position(buffer, p).Some?
    ensures RB.Position(h, p) == RB.Position(buffer, p)
  {
    assert h[RB.Position(buffer, p).value].point == p;
  }

  /**
   * A rollback succeeds exactly for points still in the buffer, and then the data store is, key for
   * key and byte for byte, the snapshot taken when that point was applied.
   */
  lemma BackRestoresSnapshot(s: Stage, h: seq<Snapshot>, p: Point)
    requires Aligned(s, h)
    ensures Back(s, p).Ok? <==> RB.Position(s.buffer, p).Some?
    ensures Back(s, p).Ok? ==>
              && RB.Position(h, p).Some?
              && Back(s, p).value.db.data == h[RB.Position(h, p).value].result
              && Aligned(Back(s, p).value, h[RB.Position(h, p).value..])
  {
    var pos := RB.Position(s.buffer, p);
    if pos.Some? {
      var i := pos.value;
      SamePosition(s.buffer, h, p);
      UndoTo(s.buffer, h, i);
      var undo := UndoList(s.buffer[..i]);
      RestoresIgnorePrefetch(s.db.data, Prefetch(s.db.data, undo, false), undo);
      forall j | 0 <= j < |s.buffer[i..]| - 1 ensures UndoesOne(s.buffer[i..][j], h[i..][j].result, h[i..][j + 1].result) {
        assert UndoesOne(s.buffer[i + j], h[i + j].result, h[i + j + 1].result);
      }
    }
  }

  /** Rollbacks never execute the oldest entry: whatever it records, the database ends the same. */
  lemma OldestIsNeverExecuted(s: Stage, p: Point, result: seq<StorageAction>)
    requires s.buffer != []
    ensures var n := |s.buffer| - 1;
            var other := s.(buffer := s.buffer[..n] + [RB.PointWithResult(s.buffer[n].point, result)]);
            && (Back(other, p).Ok? <==> Back(s, p).Ok?)
            && (Back(s, p).Ok? ==> Back(other, p).value.db == Back(s, p).value.db)
  {
    hide ApplyPlain, WithoutSlots;
    var n := |s.buffer| - 1;
    var buffer := s.buffer[..n] + [RB.PointWithResult(s.buffer[n].point, result)];
    var pos := RB.Position(s.buffer, p);
    if pos.Some? {
      SamePosition(s.buffer, buffer, p);
      assert buffer[..pos.value] == s.buffer[..pos.value];
    } else if RB.Position(buffer, p).Some? {
      SamePosition(buffer, s.buffer, p);
    }
  }

  lemma UndoesPush(entry: Entry, buffer: seq<Entry>, newer: Store, h: seq<Snapshot>)
    requires Undoes(buffer, h) && buffer != []
    requires UndoesOne(entry, newer, h[0].result)
    ensures Undoes(AddBlock(buffer, entry.point, entry.result), [RB.PointWithResult(entry.point, newer)] + h)
  {
    hide UndoesOne;
    var full, h' := [entry] + buffer, [RB.PointWithResult(entry.point, newer)] + h;
    forall i | 0 <= i < |full| - 1 ensures UndoesOne(full[i], h'[i].result, h'[i + 1].result) {
      if i > 0 {
        assert UndoesOne(buffer[i - 1], h[i - 1].result, h[i].result);
      }
    }
    assert forall i :: 0 <= i < |RB.Truncate(full)| ==> RB.Truncate(full)[i] == full[i];
  }

  /** The inverses of a block lead back to the store with the pending batch flushed. */
  lemma ForwardUndoes(s: Stage, e: Event)
    requires e.Forward? && Listed(e) && StepEvent(s, e).Ok?
    ensures UndoesOne(RB.PointWithResult(e.point, PrepareMutable(s, e.point, e.ops, e.orders).value.inverses),
                      StepEvent(s, e).value.db.data, FlushPending(s, e.orders).value)
  {
    var flushed := FlushPending(s, e.orders).value;
    InversesRestore(flushed, Prefetch(flushed, e.orders.block, true), e.orders.block);
  }

  lemma ForwardKeepsAligned(s: Stage, h: seq<Snapshot>, e: Event)
    requires Aligned(s, h) && e.Forward? && Listed(e) && StepEvent(s, e).Ok?
    ensures Aligned(StepEvent(s, e).value, Record(h, s, e))
  {
    hide ApplyPlain, ApplyInverse, MetaOf, WithoutSlots, SB.PushAll, SB.Enumerates, UndoesOne;
    var flushed := FlushPending(s, e.orders).value;
    ForwardUndoes(s, e);
    var p := PrepareMutable(s, e.point, e.ops, e.orders).value;
    var below := if s.buffer == [] then [RB.PointWithResult(SeedPoint(s.last), flushed)] else h;
    var base := if s.buffer == [] then AddBlock(s.buffer, SeedPoint(s.last), []) else s.buffer;
    UndoesPush(RB.PointWithResult(e.point, p.inverses), base, p.db.data, below);
  }

  /**
   * Rollback exactness: in every run of mutable roll-forwards and roll-backs from an empty buffer
   * (or from any aligned state), buffer and store stay aligned with the recorded snapshots.
   */
  lemma {:induction false} RunStaysAligned(s: Stage, h: seq<Snapshot>, es: seq<Event>)
    requires Aligned(s, h)
    requires forall i :: 0 <= i < |es| ==> Listed(es[i])
    requires RunEvents(s, es).Ok?
    ensures Aligned(RunEvents(s, es).value, History(h, s, es))
    decreases |es|
  {
    if es != [] {
      var n := |es| - 1;
      assert forall i :: 0 <= i < |es[..n]| ==> es[..n][i] == es[i];
      RunStaysAligned(s, h, es[..n]);
      var before := RunEvents(s, es[..n]).value;
      if es[n].Forward? {
        ForwardKeepsAligned(before, History(h, s, es[..n]), es[n]);
      } else {
        BackRestoresSnapshot(before, History(h, s, es[..n]), es[n].point);
      }
    }
  }

  /** The same, read off at one rollback: it leaves the store the point was committed with. */
  lemma RollbackExact(s: Stage, es: seq<Event>, p: Point)
    requires s.buffer == []
    requires forall i :: 0 <= i < |es| ==> Listed(es[i])
    requires RunEvents(s, es).Ok?
    requires RB.Position(RunEvents(s, es).value.buffer, p).Some?
    ensures var now := RunEvents(s, es).value;
            var h := History([], s, es);
            RB.Position(h, p).Some? && Back(now, p).Ok? &&
            Back(now, p).value.db.data == h[RB.Position(h, p).value].result
  {
    RunStaysAligned(s, [], es);
    BackRestoresSnapshot(RunEvents(s, es).value, History([], s, es), p);
  }

  // ---- Which point the seed is labelled with ----

  datatype Block = Block(point: Point, ops: seq<StorageAction>, orders: Orders)

  function RunImmutable(c: Config, s: Stage, blocks: seq<Block>): Outcome<Stage> {
    if blocks == [] then Ok(s)
    else
      var b := blocks[|blocks| - 1];
      var before :- RunImmutable(c, s, blocks[..|blocks| - 1]);
      Immutable(before, b.point, b.ops, FlushDue(before.batcher, b.ops, c.maxLen, c.maxBytes), b.orders)
  }

  /** The points of the blocks that are merged into the pending batch, oldest first. */
  function PendingPoints(c: Config, s: Stage, blocks: seq<Block>): seq<Point>
    requires RunImmutable(c, s, blocks).Ok?
  {
    if blocks == [] then []
    else
      var b := blocks[|blocks| - 1];
      var before := RunImmutable(c, s, blocks[..|blocks| - 1]).value;
      (if FlushDue(before.batcher, b.ops, c.maxLen, c.maxBytes) then []
       else PendingPoints(c, s, blocks[..|blocks| - 1])) + [b.point]
  }

  predicate Flushed(c: Config, s: Stage, blocks: seq<Block>)
    requires RunImmutable(c, s, blocks).Ok?
  {
    blocks != [] &&
    var before := RunImmutable(c, s, blocks[..|blocks| - 1]).value;
    (FlushDue(before.batcher, blocks[|blocks| - 1].ops, c.maxLen, c.maxBytes) || Flushed(c, s, blocks[..|blocks| - 1]))
  }

  /**
   * After any run of immutable blocks the next mutable block's seed is labelled with the oldest
   * pending point (or the start point before any flush), while the store below it holds them all.
   */
  lemma {:induction false} SeedIsBatchStart(c: Config, s: Stage, blocks: seq<Block>)
    requires s.batcher == EMPTY_BATCHER && blocks != [] && RunImmutable(c, s, blocks).Ok?
    ensures var now := RunImmutable(c, s, blocks).value;
            var pending := PendingPoints(c, s, blocks);
            && |pending| == now.batcher.len >= 1
            && now.batcher.lastPoint == Some(pending[|pending| - 1]) == Some(blocks[|blocks| - 1].point)
            && now.last == (if Flushed(c, s, blocks) then Some(pending[0]) else s.last)
  {
    hide ApplyPlain, SB.PushAll, SB.SizeOf;
    if |blocks| > 1 {
      SeedIsBatchStart(c, s, blocks[..|blocks| - 1]);
    } else {
      assert blocks[..0] == [];
    }
  }

  /** So the seed names the newest block it contains iff that block is alone in a flushed batch. */
  lemma SeedNamesItsTip(c: Config, s: Stage, blocks: seq<Block>)
    requires s.batcher == EMPTY_BATCHER && blocks != [] && RunImmutable(c, s, blocks).Ok?
    requires s.last != Some(blocks[|blocks| - 1].point)
    requires var pending := PendingPoints(c, s, blocks); forall i, j :: 0 <= i < j < |pending| ==> pending[i] != pending[j]
    ensures RunImmutable(c, s, blocks).value.last == Some(blocks[|blocks| - 1].point)
            <==> Flushed(c, s, blocks) && RunImmutable(c, s, blocks).value.batcher.len == 1
  {
    SeedIsBatchStart(c, s, blocks);
  }

  // ---- Retries ----

  datatype Attempt = Attempt(clock: U64, orders: Orders, failed: bool)

  /** A failed attempt leaves the retry lock and nothing else; the first one that does not fail decides. */
  function Retry(c: Config, s: Stage, unit: WorkUnit, attempts: seq<Attempt>): Outcome<Stage>
    decreases |attempts|
  {
    if attempts == [] then Ok(s)
    else if attempts[0].failed then Retry(c, s.(lock := Some(unit)), unit, attempts[1..])
    else Execute(c, s, unit, attempts[0].clock, attempts[0].orders)
  }

  lemma OutputSizeIgnoresClock(e: Encoder, output: ReducerOutput, c1: U64, c2: U64)
    ensures SB.SizeOf(OutputOps(e, output, c1)) == SB.SizeOf(OutputOps(e, output, c2))
  {
    var a, b := OutputOps(e, output, c1), OutputOps(e, output, c2);
    assert |a| == |b|;
    assert forall i :: 0 <= i < |a| ==> Size(a[i]) == Size(b[i]);
    SizePointwise(a, b);
  }

  lemma {:induction false} OpsSizeIgnoresClock(e: Encoder, outputs: seq<ReducerOutput>, c1: U64, c2: U64)
    ensures SB.SizeOf(StorageOps(e, outputs, c1)) == SB.SizeOf(StorageOps(e, outputs, c2))
  {
    if outputs != [] {
      hide SB.SizeOf, OutputOps;
      OpsSizeIgnoresClock(e, outputs[1..], c1, c2);
      OutputSizeIgnoresClock(e, outputs[0], c1, c2);
      SizeConcat(OutputOps(e, outputs[0], c1), StorageOps(e, outputs[1..], c1));
      SizeConcat(OutputOps(e, outputs[0], c2), StorageOps(e, outputs[1..], c2));
    }
  }

  lemma {:induction false} SizeConcat(a: seq<StorageAction>, b: seq<StorageAction>)
    ensures SB.SizeOf(a + b) == SB.SizeOf(a) + SB.SizeOf(b)
    decreases |b|
  {
    if b == [] {
      assert a + b == a;
    } else {
      var n := |b| - 1;
      assert (a + b)[..|a| + n] == a + b[..n];
      SizeConcat(a, b[..n]);
    }
  }

  lemma {:induction false} SizePointwise(a: seq<StorageAction>, b: seq<StorageAction>)
    requires |a| == |b|
    requires forall i :: 0 <= i < |a| ==> Size(a[i]) == Size(b[i])
    ensures SB.SizeOf(a) == SB.SizeOf(b)
  {
    if a != [] {
      SizePointwise(a[..|a| - 1], b[..|b| - 1]);
    }
  }

  lemma LockDoesNotMatter(c: Config, s: Stage, unit: WorkUnit, clock: U64, o: Orders, lock: Option<WorkUnit>)
    requires Transacts(c, s, unit, clock)
    ensures Execute(c, s.(lock := lock), unit, clock, o) == Execute(c, s, unit, clock, o)
  {
    hide ApplyPlain, ApplyInverse, StorageOps, SB.PushAll, SB.SizeOf, WithoutSlots, MetaOf, UndoList, RB.Position, RB.Truncate;
  }

  lemma TransactsIgnoresClock(c: Config, s: Stage, unit: WorkUnit, c1: U64, c2: U64, lock: Option<WorkUnit>)
    ensures Transacts(c, s.(lock := lock), unit, c1) == Transacts(c, s, unit, c2)
  {
    if unit.RollForward? {
      OpsSizeIgnoresClock(c.encoder, unit.outputs, c1, c2);
    }
  }

  /**
   * Exactly-once work units: any finite number of attempts that fail at or before their commit,
   * followed by one that does not, leaves the stage as that last attempt alone would: same store,
   * batcher, buffer, last point, and no lock.
   */
  lemma {:induction false} RetriesAreInvisible(c: Config, s: Stage, unit: WorkUnit, attempts: seq<Attempt>)
    requires |attempts| > 0 && !attempts[|attempts| - 1].failed
    requires forall i :: 0 <= i < |attempts| - 1 ==> attempts[i].failed && Transacts(c, s, unit, attempts[i].clock)
    ensures var last := attempts[|attempts| - 1];
            Retry(c, s, unit, attempts) == Execute(c, s, unit, last.clock, last.orders)
    decreases |attempts|
  {
    hide Execute, Transacts;
    if |attempts| > 1 {
      var last, locked := attempts[|attempts| - 1], s.(lock := Some(unit));
      assert attempts[0].failed && Transacts(c, s, unit, attempts[0].clock);
      assert attempts[1..][|attempts| - 2] == last;
      forall i | 0 <= i < |attempts[1..]| - 1 ensures attempts[1..][i].failed && Transacts(c, locked, unit, attempts[1..][i].clock) {
        assert attempts[1..][i] == attempts[i + 1];
        TransactsIgnoresClock(c, s, unit, attempts[i + 1].clock, attempts[i + 1].clock, Some(unit));
      }
      RetriesAreInvisible(c, locked, unit, attempts[1..]);
      TransactsIgnoresClock(c, s, unit, last.clock, attempts[0].clock, s.lock);
      LockDoesNotMatter(c, s, unit, last.clock, last.orders, Some(unit));
    }
  }

  /** A committed unit gives up the retry lock, in all three branches. */
  lemma CommitUnlocks(c: Config, s: Stage, unit: WorkUnit, clock: U64, o: Orders)
    requires Transacts(c, s, unit, clock) && Execute(c, s, unit, clock, o).Ok?
    ensures Execute(c, s, unit, clock, o).value.lock.None?
  {
    hide ApplyPlain, ApplyInverse, StorageOps, SB.PushAll, SB.SizeOf, WithoutSlots, MetaOf, UndoList, RB.Position, RB.Truncate;
  }

  /** After a mutable block or a roll-back its point is the last processed one and the newest in the buffer. */
  lemma CommitMovesTip(c: Config, s: Stage, unit: WorkUnit, clock: U64, o: Orders)
    requires unit.RollBack? || unit.mutable
    requires Execute(c, s, unit, clock, o).Ok?
    ensures var next := Execute(c, s, unit, clock, o).value;
            next.last == Some(unit.point) && next.buffer != [] && next.buffer[0].point == unit.point
  {
    hide ApplyPlain, ApplyInverse, StorageOps, SB.PushAll, SB.SizeOf, WithoutSlots, MetaOf, UndoList;
  }

  /** A mutable block pushes out only what 32 newer points have pushed to the end. */
  lemma CommitRemembers(s: Stage, p: Point, ops: seq<StorageAction>, o: Orders)
    requires Mutable(s, p, ops, o).Ok? && s.buffer != []
    ensures var buffer := Mutable(s, p, ops, o).value.buffer;
            && |buffer| == (if |s.buffer| < 32 then |s.buffer| + 1 else 32)
            && forall i :: 0 <= i < |buffer| - 1 ==> buffer[i + 1] == s.buffer[i]
  {
    hide PrepareMutable;
    var inverses := PrepareMutable(s, p, ops, o).value.inverses;
    var all := [RB.PointWithResult(p, inverses)] + s.buffer;
    assert Mutable(s, p, ops, o).value.buffer == RB.Truncate(all);
    assert forall i :: 0 < i < |all| ==> all[i] == s.buffer[i - 1];
  }

  /** One round around the worker: the message that waits, the clock, and whether the database fails. */
  datatype Round = Round(waiting: WorkUnit, clock: U64, fault: bool)

  /** The unit that all rounds work on: the locked one, or else the message that waits at the first round. */
  function Scheduled(lock: Option<WorkUnit>, rounds: seq<Round>): WorkUnit
    requires rounds != []
  {
    if lock.Some? then lock.value else rounds[0].waiting
  }

  /**
   * Rounds of scheduling and execution until one does not fail. Failed rounds keep the unit and consume
   * no other message; the worker ends as the last attempt on the untouched worker would leave it.
   */
  method Drive(worker: Worker, rounds: seq<Round>) returns (r: Status, ghost attempts: seq<Attempt>)
    requires worker.Valid() && rounds != []
    modifies worker`db, worker`workUnit, worker`lastProcessed, worker.batcher, worker.rollbackBuffer
    ensures 0 < |attempts| <= |rounds| && (r == Failed ==> |attempts| == |rounds|)
    ensures forall i :: 0 <= i < |attempts| ==>
              && attempts[i].clock == rounds[i].clock
              && (attempts[i].failed <==> i < |attempts| - 1 || r == Failed)
              && (attempts[i].failed ==> rounds[i].fault)
    ensures SB.Enumerates(attempts[|attempts| - 1].orders.pending, old(worker.batcher.batchActions))
    ensures var unit, last := Scheduled(old(worker.workUnit), rounds), attempts[|attempts| - 1];
            unit.RollForward? && unit.mutable ==> Enumerated(worker.config, unit, last.clock, last.orders)
    ensures var s, unit, last := old(worker.View()), Scheduled(old(worker.workUnit), rounds), attempts[|attempts| - 1];
            var alone := Execute(worker.config, s, unit, last.clock, last.orders);
            && (r == Committed ==> worker.Valid() && alone == Ok(worker.View()) == Retry(worker.config, s, unit, attempts))
            && (r == Committed && Transacts(worker.config, s, unit, last.clock) ==> worker.workUnit.None?)
            && (r == Failed ==> worker.Valid() && worker.View() == s.(lock := Some(unit)))
            && (r == Panicked ==> alone.Panic?)
  {
    hide Execute, Transacts, SB.Enumerates, Enumerated, Retry;
    ghost var s, unit, c := worker.View(), Scheduled(worker.workUnit, rounds), worker.config;
    r, attempts := Failed, [];
    var i := 0;
    while i < |rounds|
      invariant r == Failed && i == |attempts| <= |rounds|
      invariant worker.Valid() && worker.View() == if i == 0 then s else s.(lock := Some(unit))
      invariant forall j :: 0 <= j < i ==>
                  && attempts[j].clock == rounds[j].clock && attempts[j].failed && rounds[j].fault
                  && Transacts(c, s, unit, attempts[j].clock)
      invariant i > 0 ==> SB.Enumerates(attempts[i - 1].orders.pending, s.batcher.actions)
      invariant i > 0 && unit.RollForward? && unit.mutable ==> Enumerated(c, unit, attempts[i - 1].clock, attempts[i - 1].orders)
    {
      var next, _ := worker.Schedule([rounds[i].waiting]);
      ghost var o;
      ghost var v := worker.View();
      assert i > 0 ==> Transacts(c, s, unit, attempts[0].clock);
      r, o := worker.Run(next, rounds[i].clock, rounds[i].fault);
      LockedAlike(c, s, v, unit, if i == 0 then 0 else attempts[0].clock, rounds[i].clock, o);
      attempts := attempts + [Attempt(rounds[i].clock, o, r == Failed)];
      if r != Failed {
        RetriesAreInvisible(c, s, unit, attempts);
        if r == Committed && Transacts(c, s, unit, rounds[i].clock) {
          CommitUnlocks(c, s, unit, rounds[i].clock, o);
        }
        return;
      }
      i := i + 1;
    }
  }

  lemma LockedAlike(c: Config, s: Stage, v: Stage, unit: WorkUnit, earlier: U64, clock: U64, o: Orders)
    requires v == s || (v == s.(lock := Some(unit)) && Transacts(c, s, unit, earlier))
    ensures Execute(c, v, unit, clock, o) == Execute(c, s, unit, clock, o)
    ensures Transacts(c, v, unit, clock) == Transacts(c, s, unit, clock)
  {
    hide Execute, Transacts;
    TransactsIgnoresClock(c, s, unit, clock, clock, v.lock);
    if v != s {
      TransactsIgnoresClock(c, s, unit, clock, earlier, s.lock);
      LockDoesNotMatter(c, s, unit, clock, o, Some(unit));
    }
  }

  // ---- A stream of messages ----

  /** One round on a queue of messages: the clock, and whether the database fails. */
  datatype Chance = Chance(clock: U64, fault: bool)

  /** How a unit came to commit. */
  datatype Done = Done(clock: U64, orders: Orders)

  /** Each unit executed once, in order, without any fault. */
  function CommitAll(c: Config, s: Stage, units: seq<WorkUnit>, done: seq<Done>): Outcome<Stage>
    requires |units| == |done|
  {
    if units == [] then Ok(s)
    else
      var n := |units| - 1;
      var before :- CommitAll(c, s, units[..n], done[..n]);
      Execute(c, before, units[n], done[n].clock, done[n].orders)
  }

  /** The listing orders are listings of what was pending then and of the unit's merged actions. */
  ghost predicate AllListed(c: Config, s: Stage, units: seq<WorkUnit>, done: seq<Done>)
    requires |units| == |done|
  {
    units != [] ==>
      var n := |units| - 1;
      && AllListed(c, s, units[..n], done[..n])
      && var before := CommitAll(c, s, units[..n], done[..n]);
      before.Ok? ==> ListedAt(c, before.value, units[n], done[n])
  }

  ghost predicate ListedAt(c: Config, s: Stage, unit: WorkUnit, d: Done) {
    && SB.Enumerates(d.orders.pending, s.batcher.actions)
    && (unit.RollForward? && unit.mutable ==> Enumerated(c, unit, d.clock, d.orders))
  }

  function Quiet(chances: seq<Chance>): nat {
    if chances == [] then 0
    else Quiet(chances[..|chances| - 1]) + if chances[|chances| - 1].fault then 0 else 1
  }

  lemma CommitNext(c: Config, s: Stage, messages: seq<WorkUnit>, done: seq<Done>, base: Stage, d: Done)
    requires |done| < |messages| && CommitAll(c, s, messages[..|done|], done) == Ok(base)
    requires AllListed(c, s, messages[..|done|], done) && ListedAt(c, base, messages[|done|], d)
    ensures CommitAll(c, s, messages[..|done| + 1], done + [d]) == Execute(c, base, messages[|done|], d.clock, d.orders)
    ensures AllListed(c, s, messages[..|done| + 1], done + [d])
  {
    hide Execute, ListedAt;
    var n := |done|;
    assert messages[..n + 1][..n] == messages[..n] && (done + [d])[..n] == done;
  }

  /**
   * The loop around the worker on a queue of messages, with any faults: every message taken is executed to
   * its commit exactly once and in order before the next one is taken, each round without a fault commits
   * one, and the lock is held by the first message taken and not committed, or by none.
   */
  method Serve(worker: Worker, messages: seq<WorkUnit>, chances: seq<Chance>)
    returns (ok: bool, taken: nat, ghost done: seq<Done>)
    requires worker.Valid() && worker.workUnit.None?
    modifies worker`db, worker`workUnit, worker`lastProcessed, worker.batcher, worker.rollbackBuffer
    ensures |done| <= taken <= |messages| && taken <= |done| + 1
    ensures AllListed(worker.config, old(worker.View()), messages[..|done|], done)
    ensures ok ==> worker.Valid()
    ensures ok ==> CommitAll(worker.config, old(worker.View()), messages[..|done|], done) == Ok(worker.View().(lock := None))
    ensures ok ==> worker.workUnit == if taken == |done| then None else Some(messages[|done|])
    ensures ok ==> |done| == |messages| || |done| >= Quiet(chances)
    ensures !ok ==> CommitAll(worker.config, old(worker.View()), messages[..|done|], done).Panic?
  {
    hide Execute, Transacts, ListedAt, SB.Enumerates, Enumerated;
    ghost var s, c := worker.View(), worker.config;
    ghost var base, earlier: U64 := s, 0;
    var queue, i := messages, 0;
    ok, taken, done := true, 0, [];
    while i < |chances| && (worker.workUnit.Some? || queue != [])
      invariant ok && i <= |chances| && |done| <= taken <= |done| + 1 && taken <= |messages| && queue == messages[taken..]
      invariant worker.Valid() && base.lock.None?
      invariant CommitAll(c, s, messages[..|done|], done) == Ok(base) && AllListed(c, s, messages[..|done|], done)
      invariant worker.View() == base.(lock := if taken == |done| then None else Some(messages[|done|]))
      invariant taken > |done| ==> Transacts(c, base, messages[|done|], earlier)
      invariant |done| >= Quiet(chances[..i])
    {
      ghost var v := worker.View();
      var unit;
      unit, queue := worker.Schedule(queue);
      taken := |messages| - |queue|;
      assert unit == messages[|done|];
      var r;
      ghost var o;
      r, o := worker.Run(unit, chances[i].clock, chances[i].fault);
      ghost var d := Done(chances[i].clock, o);
      LockedAlike(c, base, v, unit, earlier, d.clock, o);
      assert ListedAt(c, base, unit, d) by { NowListed(c, base, unit, d); }
      if r == Failed {
        earlier := d.clock;
      } else {
        CommitNext(c, s, messages, done, base, d);
        done := done + [d];
        if r == Panicked {
          return false, taken, done;
        }
        StaysUnlocked(c, base, unit, d.clock, o);
        base := Execute(c, base, unit, d.clock, o).value;
      }
      assert chances[..i + 1][..i] == chances[..i];
      i := i + 1;
    }
    assert i == |chances| ==> chances[..i] == chances;
  }

  lemma NowListed(c: Config, s: Stage, unit: WorkUnit, d: Done)
    requires SB.Enumerates(d.orders.pending, s.batcher.actions)
    requires unit.RollForward? && unit.mutable ==> Enumerated(c, unit, d.clock, d.orders)
    ensures ListedAt(c, s, unit, d)
  {
    hide Enumerated, SB.Enumerates;
  }

  lemma StaysUnlocked(c: Config, s: Stage, unit: WorkUnit, clock: U64, o: Orders)
    requires s.lock.None? && Execute(c, s, unit, clock, o).Ok?
    ensures Execute(c, s, unit, clock, o).value.lock.None?
  {
    if Transacts(c, s, unit, clock) {
      CommitUnlocks(c, s, unit, clock, o);
    }
  }
}
