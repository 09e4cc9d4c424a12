/**
 * Whole syncs: blocks that are batched until a flush is due and blocks that are applied with inverses,
 * in any mixture, leave what executing their actions one by one would.
 */
module SyncRuns {
  import opened Wrappers
  import opened Points
  import opened StorageActions
  import opened Database
  import opened Executor
  import opened SyncBatcher
  import opened Confluence
  import SS = StorageStage

  datatype Block = Block(point: Point, ops: seq<StorageAction>, mutable: bool, orders: SS.Orders)

  function StepBlock(c: SS.Config, s: SS.Stage, b: Block): Outcome<SS.Stage> {
    if b.mutable then SS.Mutable(s, b.point, b.ops, b.orders)
    else SS.Immutable(s, b.point, b.ops, SS.FlushDue(s.batcher, b.ops, c.maxLen, c.maxBytes), b.orders)
  }

  function RunBlocks(c: SS.Config, s: SS.Stage, blocks: seq<Block>): Outcome<SS.Stage> {
    if blocks == [] then Ok(s)
    else
      var before :- RunBlocks(c, s, blocks[..|blocks| - 1]);
      StepBlock(c, before, blocks[|blocks| - 1])
  }

  /** The hash maps are listed completely, in whatever order. */
  ghost predicate Listed(s: SS.Stage, b: Block) {
    && Enumerates(b.orders.pending, s.batcher.actions)
    && (PushAll(map[], b.ops).Ok? ==> Enumerates(b.orders.block, PushAll(map[], b.ops).value))
  }

  ghost predicate ListedRun(c: SS.Config, s: SS.Stage, blocks: seq<Block>) {
    blocks != [] ==>
      ListedRun(c, s, blocks[..|blocks| - 1]) &&
      var before := RunBlocks(c, s, blocks[..|blocks| - 1]);
      before.Ok? ==> Listed(before.value, blocks[|blocks| - 1])
  }

  function Ops(blocks: seq<Block>): seq<StorageAction> {
    if blocks == [] then [] else Ops(blocks[..|blocks| - 1]) + blocks[|blocks| - 1].ops
  }

  // ---- Flushes and what is pending account for all actions ----

  ghost predicate Accounts(start: Store, s: SS.Stage, fs: seq<Flush>, pending: seq<StorageAction>) {
    && (forall i :: 0 <= i < |fs| ==> ValidFlush(fs[i]))
    && RunFlushes(start, fs) == Ok(s.db.data)
    && PushAll(map[], pending) == Ok(s.batcher.actions)
  }

  lemma {:induction false} PushAllConcat(m: Batch, a: seq<StorageAction>, b: seq<StorageAction>)
    ensures PushAll(m, a + b) == (if PushAll(m, a).Ok? then PushAll(PushAll(m, a).value, b) else Panic)
    decreases |a|
  {
    if a == [] {
      assert a + b == b;
    } else {
      assert (a + b)[0] == a[0] && (a + b)[1..] == a[1..] + b;
      if Push(m, a[0]).Ok? {
        PushAllConcat(Push(m, a[0]).value, a[1..], b);
      }
    }
  }

  lemma {:induction false} FlushesConcat(start: Store, a: seq<Flush>, b: seq<Flush>)
    ensures AllActions(a + b) == AllActions(a) + AllActions(b)
    ensures RunFlushes(start, a + b) == (if RunFlushes(start, a).Ok? then RunFlushes(RunFlushes(start, a).value, b) else Panic)
    decreases |a|
  {
    if a == [] {
      assert a + b == b;
    } else {
      assert (a + b)[0] == a[0] && (a + b)[1..] == a[1..] + b;
      var next := ApplyFlush(start, a[0]);
      FlushesConcat(if next.Ok? then next.value else start, a[1..], b);
    }
  }

  lemma SoundPrefix(kinds: Key -> Kind, s: Store, a: seq<StorageAction>, b: seq<StorageAction>)
    requires SoundStore(kinds, s, a + b)
    ensures SoundStore(kinds, s, a)
  {
    forall k ensures Sound(kinds(k), Get(s, k), Project(a, k)) {
      assert Sound(kinds(k), Get(s, k), Project(a + b, k));
      ProjectConcat(a, b, k);
      SoundSplit(kinds(k), Get(s, k), Project(a, k), Project(b, k));
    }
  }

  lemma OneRuns(start: Store, f: Flush)
    ensures AllActions([f]) == f.actions
    ensures RunFlushes(start, [f]) == (if PushAll(map[], f.actions).Ok? then ApplyFlush(start, f) else Panic)
  {
    assert [f][1..] == [];
  }

  /** One more flush of a sound sequence runs, and leaves the flushes valid. */
  lemma FlushRuns(kinds: Key -> Kind, start: Store, fs: seq<Flush>, data: Store, f: Flush)
    requires forall i :: 0 <= i < |fs| ==> ValidFlush(fs[i])
    requires RunFlushes(start, fs) == Ok(data) && ValidFlush(f)
    requires SoundStore(kinds, start, AllActions(fs) + f.actions)
    ensures PushAll(map[], f.actions).Ok? && ApplyFlush(data, f).Ok?
    ensures RunFlushes(start, fs + [f]) == ApplyFlush(data, f) && AllActions(fs + [f]) == AllActions(fs) + f.actions
  {
    FlushesConcat(start, fs, [f]);
    OneRuns(data, f);
    assert EquivalentStores(kinds, start, start);
    BatchConfluence(kinds, start, start, fs + [f]);
  }

  /** Sound actions merge. */
  lemma Merges(kinds: Key -> Kind, start: Store, fs: seq<Flush>, data: Store, ops: seq<StorageAction>)
    requires forall i :: 0 <= i < |fs| ==> ValidFlush(fs[i])
    requires RunFlushes(start, fs) == Ok(data)
    requires SoundStore(kinds, start, AllActions(fs) + ops)
    ensures PushAll(map[], ops).Ok?
  {
    if PushAll(map[], ops).Panic? {
      FlushRuns(kinds, start, fs, data, Flush(ops, [], false));
    }
  }

  lemma BatchedAccounts(kinds: Key -> Kind, start: Store, s: SS.Stage, fs: seq<Flush>, pending: seq<StorageAction>, b: Block)
    requires Accounts(start, s, fs, pending) && SoundStore(kinds, start, AllActions(fs) + pending + b.ops)
    ensures SS.Immutable(s, b.point, b.ops, false, b.orders).Ok?
    ensures Accounts(start, SS.Immutable(s, b.point, b.ops, false, b.orders).value, fs, pending + b.ops)
  {
    hide RunFlushes, SoundStore, ValidFlush, PushAll;
    assert AllActions(fs) + (pending + b.ops) == AllActions(fs) + pending + b.ops;
    Merges(kinds, start, fs, s.db.data, pending + b.ops);
    PushAllConcat(map[], pending, b.ops);
  }

  /** What is pending runs as one flush. */
  lemma PendingRuns(kinds: Key -> Kind, start: Store, s: SS.Stage, fs: seq<Flush>, pending: seq<StorageAction>,
                    order: seq<StorageAction>)
    requires Accounts(start, s, fs, pending) && Enumerates(order, s.batcher.actions)
    requires SoundStore(kinds, start, AllActions(fs) + pending)
    ensures var f := Flush(pending, order, false);
            && ValidFlush(f) && ApplyPlain(s.db.data, order).Ok?
            && RunFlushes(start, fs + [f]) == ApplyPlain(s.db.data, order)
            && AllActions(fs + [f]) == AllActions(fs) + pending
  {
    hide RunFlushes, SoundStore, PushAll, Enumerates, ApplyPlain;
    FlushRuns(kinds, start, fs, s.db.data, Flush(pending, order, false));
  }

  lemma FlushedAccounts(kinds: Key -> Kind, start: Store, s: SS.Stage, fs: seq<Flush>, pending: seq<StorageAction>, b: Block)
    requires Accounts(start, s, fs, pending) && Listed(s, b)
    requires SoundStore(kinds, start, AllActions(fs) + pending + b.ops)
    ensures SS.Immutable(s, b.point, b.ops, true, b.orders).Ok?
    ensures var fs' := fs + [Flush(pending, b.orders.pending, false)];
            && Accounts(start, SS.Immutable(s, b.point, b.ops, true, b.orders).value, fs', b.ops)
            && AllActions(fs') == AllActions(fs) + pending
  {
    hide RunFlushes, SoundStore, ValidFlush, PushAll, Enumerates, ApplyPlain;
    SoundPrefix(kinds, start, AllActions(fs) + pending, b.ops);
    PendingRuns(kinds, start, s, fs, pending, b.orders.pending);
    var data := ApplyPlain(s.db.data, b.orders.pending).value;
    Merges(kinds, start, fs + [Flush(pending, b.orders.pending, false)], data, b.ops);
  }

  lemma NothingPending(s: SS.Stage, o: SS.Orders)
    requires Enumerates(o.pending, s.batcher.actions)
    ensures SS.FlushPending(s, o) == ApplyPlain(s.db.data, o.pending)
  {
    if s.batcher.actions == map[] {
      assert forall a :: a in o.pending ==> a.key in s.batcher.actions;
    }
  }

  lemma MutableAccounts(kinds: Key -> Kind, start: Store, s: SS.Stage, fs: seq<Flush>, pending: seq<StorageAction>, b: Block)
    requires Accounts(start, s, fs, pending) && Listed(s, b)
    requires SoundStore(kinds, start, AllActions(fs) + pending + b.ops)
    ensures SS.Mutable(s, b.point, b.ops, b.orders).Ok?
    ensures var fs' := fs + [Flush(pending, b.orders.pending, false)] + [Flush(b.ops, b.orders.block, true)];
            && Accounts(start, SS.Mutable(s, b.point, b.ops, b.orders).value, fs', [])
            && AllActions(fs') == AllActions(fs) + pending + b.ops
  {
    hide RunFlushes, SoundStore, Enumerates, ApplyPlain, ApplyInverse, SS.MutableMeta;
    SoundPrefix(kinds, start, AllActions(fs) + pending, b.ops);
    PendingRuns(kinds, start, s, fs, pending, b.orders.pending);
    NothingPending(s, b.orders);
    var mid, data := fs + [Flush(pending, b.orders.pending, false)], ApplyPlain(s.db.data, b.orders.pending).value;
    FlushRuns(kinds, start, mid, data, Flush(b.ops, b.orders.block, true));
  }

  lemma StepAccounts(c: SS.Config, kinds: Key -> Kind, start: Store, s: SS.Stage, fs: seq<Flush>,
                     pending: seq<StorageAction>, b: Block)
    returns (fs': seq<Flush>, pending': seq<StorageAction>)
    requires Accounts(start, s, fs, pending) && Listed(s, b)
    requires SoundStore(kinds, start, AllActions(fs) + pending + b.ops)
    ensures StepBlock(c, s, b).Ok? && Accounts(start, StepBlock(c, s, b).value, fs', pending')
    ensures AllActions(fs') + pending' == AllActions(fs) + pending + b.ops
  {
    hide Accounts, Listed, SoundStore, SS.Mutable, SS.Immutable, AllActions;
    if b.mutable {
      MutableAccounts(kinds, start, s, fs, pending, b);
      fs', pending' := fs + [Flush(pending, b.orders.pending, false)] + [Flush(b.ops, b.orders.block, true)], [];
      assert AllActions(fs') + [] == AllActions(fs');
    } else if SS.FlushDue(s.batcher, b.ops, c.maxLen, c.maxBytes) {
      FlushedAccounts(kinds, start, s, fs, pending, b);
      fs', pending' := fs + [Flush(pending, b.orders.pending, false)], b.ops;
    } else {
      BatchedAccounts(kinds, start, s, fs, pending, b);
      fs', pending' := fs, pending + b.ops;
      assert AllActions(fs) + (pending + b.ops) == AllActions(fs) + pending + b.ops;
    }
  }

  /** A sound sync never panics, and its flushes with what is pending account for every action in order. */
  lemma {:induction false} RunAccounts(c: SS.Config, kinds: Key -> Kind, s: SS.Stage, blocks: seq<Block>)
    returns (fs: seq<Flush>, pending: seq<StorageAction>)
    requires s.batcher.actions == map[] && ListedRun(c, s, blocks) && SoundStore(kinds, s.db.data, Ops(blocks))
    ensures RunBlocks(c, s, blocks).Ok? && Accounts(s.db.data, RunBlocks(c, s, blocks).value, fs, pending)
    ensures AllActions(fs) + pending == Ops(blocks)
    decreases |blocks|
  {
    if blocks == [] {
      fs, pending := [], [];
    } else {
      hide Accounts, SoundStore, StepBlock, AllActions;
      var n := |blocks| - 1;
      SoundPrefix(kinds, s.db.data, Ops(blocks[..n]), blocks[n].ops);
      fs, pending := RunAccounts(c, kinds, s, blocks[..n]);
      fs, pending := StepAccounts(c, kinds, s.db.data, RunBlocks(c, s, blocks[..n]).value, fs, pending, blocks[n]);
    }
  }

  /**
   * However the blocks are batched, flushed and applied, the store with the pending batch flushed in any
   * order is the one that executing all actions one by one gives, with an absent counter read as zero;
   * nothing panics on the way. After a mutable block nothing is pending, so the store is that one as it is.
   */
  lemma SyncIsOneByOne(c: SS.Config, kinds: Key -> Kind, s: SS.Stage, blocks: seq<Block>, order: seq<StorageAction>)
    requires s.batcher.actions == map[] && ListedRun(c, s, blocks) && SoundStore(kinds, s.db.data, Ops(blocks))
    requires RunBlocks(c, s, blocks).Ok? ==> Enumerates(order, RunBlocks(c, s, blocks).value.batcher.actions)
    ensures RunBlocks(c, s, blocks).Ok? && RunPlain(s.db.data, Ops(blocks)).Ok?
    ensures var now, all := RunBlocks(c, s, blocks).value, RunPlain(s.db.data, Ops(blocks)).value;
            && ApplyPlain(now.db.data, order).Ok? && EquivalentStores(kinds, all, ApplyPlain(now.db.data, order).value)
            && (blocks != [] && blocks[|blocks| - 1].mutable ==>
                  now.batcher.actions == map[] && EquivalentStores(kinds, all, now.db.data))
  {
    var start := s.db.data;
    var fs, pending := RunAccounts(c, kinds, s, blocks);
    var now := RunBlocks(c, s, blocks).value;
    var last := fs + [Flush(pending, order, false)];
    PendingRuns(kinds, start, now, fs, pending, order);
    assert EquivalentStores(kinds, start, start);
    BatchConfluence(kinds, start, start, last);
    if blocks != [] && blocks[|blocks| - 1].mutable {
      MutableLeavesNothing(RunBlocks(c, s, blocks[..|blocks| - 1]).value, blocks[|blocks| - 1]);
      NothingPending(now, SS.Orders(order, []));
    }
  }

  lemma MutableLeavesNothing(s: SS.Stage, b: Block)
    requires SS.Mutable(s, b.point, b.ops, b.orders).Ok?
    ensures SS.Mutable(s, b.point, b.ops, b.orders).value.batcher.actions == map[]
  {
  }

  // ---- When a flush is due ----

  function Weight(ops: seq<StorageAction>): nat {
    if ops == [] then 0 else Size(ops[0]) + Weight(ops[1..])
  }

  lemma {:induction false} WeightIsSize(ops: seq<StorageAction>)
    ensures SizeOf(ops) == Weight(ops)
    decreases |ops|
  {
    if |ops| > 1 {
      var n := |ops| - 1;
      WeightIsSize(ops[1..]);
      WeightIsSize(ops[..n]);
      WeightIsSize(ops[1..n]);
      assert ops[1..][..n - 1] == ops[1..n] && ops[..n][1..] == ops[1..n];
      assert ops[1..][n - 1] == ops[n];
      assert Weight(ops[..n]) == Size(ops[0]) + Weight(ops[1..n]);
    } else if |ops| == 1 {
      assert ops[..0] == [] && ops[1..] == [];
    }
  }

  /**
   * A batch is flushed exactly if the next block would take it over half the byte limit or it has the most
   * blocks it may have: batches are neither too large nor cut short.
   */
  lemma FlushedWhenFull(c: SS.Config, s: SS.Stage, b: Block)
    requires !b.mutable && StepBlock(c, s, b).Ok?
    ensures var full := 2 * (s.batcher.bytes + Weight(b.ops)) > c.maxBytes || s.batcher.len >= c.maxLen;
            var next := StepBlock(c, s, b).value;
            && next.batcher.len == (if full then 1 else s.batcher.len + 1)
            && next.batcher.bytes == (if full then 0 else s.batcher.bytes) + Weight(b.ops)
            && (full ==> next.last == Some(b.point)) && (!full ==> next.db == s.db && next.last == s.last)
  {
    WeightIsSize(b.ops);
    hide SizeOf, Weight, PushAll, ApplyPlain;
  }
}
