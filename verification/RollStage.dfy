/** The stage that feeds the chain database, with its one-way switch to mutable mode. */
module RollStage {
  import opened Wrappers
  import opened Bytes
  import opened Ledger
  import opened OrderedTable
  import opened ChainDb
  import opened ChainRuns
  import opened WriteAheadLog

  /** Events carry the node's tip slot (zero for the origin). */
  datatype PullEvent =
    | RollForward(block: Block, tip: U64)
    | RollBack(slot: U64, hash: Bytes, tip: U64)
    | RollBackOrigin(tip: U64)

  function EventSlot(e: PullEvent): U64 {
    match e
    case RollForward(b, _) => b.slot
    case RollBack(slot, _, _) => slot
    case RollBackOrigin(_) => 0
  }

  /** Near enough to the tip; the addition wraps like the source's `u64`. */
  predicate Near(after: Option<U64>, slot: U64, tip: U64) {
    after.Some? &&
    (if slot + after.value < TWO_64 then slot + after.value else slot + after.value - TWO_64) > tip
  }

  /** Fewer than `after` slots from the tip. */
  predicate Close(after: Option<U64>, e: PullEvent) {
    after.Some? &&
    match e
    case RollForward(b, tip) => tip < b.slot + after.value
    case RollBack(slot, _, tip) => tip < slot + after.value
    case RollBackOrigin(tip) => tip < after.value
  }

  /** The switch is decided by closeness to the tip, unless the wrapped sum does not exceed the tip any more. */
  lemma NearIsCloseIff(after: U64, e: PullEvent)
    ensures (Near(Some(after), EventSlot(e), e.tip) <==> Close(Some(after), e))
            <==> EventSlot(e) + after < 0x1_0000_0000_0000_0000 || e.tip < EventSlot(e) + after - 0x1_0000_0000_0000_0000
  {
  }

  function Perform(s: Tables, after: Option<U64>, e: PullEvent, mutable: bool): Result<Tables, DbError> {
    match e
    case RollForward(b, _) => ApplyBlock(s, after, b, mutable)
    case RollBack(slot, hash, _) => Rollback(s, slot, hash, mutable)
    case RollBackOrigin(_) => RollbackToOrigin(s, mutable)
  }

  class Stage {
    const chainDb: ChainDb
    var mutable: bool

    constructor (db: ChainDb)
      ensures chainDb == db && !mutable
    {
      chainDb, mutable := db, false;
    }

    method Execute(e: PullEvent) returns (error: Option<DbError>)
      modifies this, chainDb
      ensures mutable == (old(mutable) || Near(chainDb.immutableAfterSlots, EventSlot(e), e.tip))
      ensures Follows(old(chainDb.View()),
                Perform(old(chainDb.View()), chainDb.immutableAfterSlots, e, mutable), chainDb.View(), error)
    {
      if !mutable {
        if Near(chainDb.immutableAfterSlots, EventSlot(e), e.tip) {
          mutable := true;
        }
      }
      match e
      case RollForward(b, _) => error := chainDb.ApplyBlockWithContext(b, mutable);
      case RollBack(slot, hash, _) => error := chainDb.RollbackTo(slot, hash, mutable);
      case RollBackOrigin(_) => error := chainDb.RollbackOrigin(mutable);
    }
  }

  // ---- Runs ----

  /** The database, the mode, and the chain that the events describe. */
  datatype World = World(tables: Tables, mutable: bool, chain: seq<Block>)

  function UpTo(chain: seq<Block>, slot: nat, hash: Bytes): seq<Block> {
    if chain == [] then []
    else if chain[|chain| - 1].slot == slot && chain[|chain| - 1].hash == hash then chain
    else UpTo(chain[..|chain| - 1], slot, hash)
  }

  function NextChain(chain: seq<Block>, e: PullEvent): seq<Block> {
    match e
    case RollForward(b, _) => chain + [b]
    case RollBack(slot, hash, _) => UpTo(chain, slot, hash)
    case RollBackOrigin(_) => []
  }

  /** An operation that fails leaves the tables and so the chain; the mode may still have switched. */
  function Step(after: Option<U64>, w: World, e: PullEvent): World {
    var mutable := w.mutable || Near(after, EventSlot(e), e.tip);
    match Perform(w.tables, after, e, mutable)
    case Failure(_) => w.(mutable := mutable)
    case Success(t) => World(t, mutable, NextChain(w.chain, e))
  }

  function Run(after: Option<U64>, w: World, es: seq<PullEvent>): World {
    if es == [] then w else Step(after, Run(after, w, es[..|es| - 1]), es[|es| - 1])
  }

  /** The stage is mutable after a run iff it was, or some event came within `after` slots of its tip. */
  lemma {:induction false} MutableIff(after: U64, w: World, es: seq<PullEvent>)
    requires forall i :: 0 <= i < |es| ==> EventSlot(es[i]) + after < 0x1_0000_0000_0000_0000
    ensures Run(Some(after), w, es).mutable <==> w.mutable || exists i :: 0 <= i < |es| && Close(Some(after), es[i])
    decreases |es|
  {
    hide Perform;
    if es != [] {
      var n := |es| - 1;
      assert forall i :: 0 <= i < n ==> es[..n][i] == es[i];
      MutableIff(after, w, es[..n]);
      NearIsCloseIff(after, es[n]);
      hide Near, Close;
      if i :| 0 <= i < |es| && Close(Some(after), es[i]) {
        assert i < n ==> Close(Some(after), es[..n][i]);
      }
    }
  }

  /** Blocks on offer are ledger-valid next blocks, unless they do not even link to the last hash. */
  predicate Offered(genesis: Genesis, w: World, e: PullEvent) {
    e.RollForward? ==>
      ValidChain(genesis, w.chain + [e.block]) || (w.tables.lastHash.Some? && e.block.previous != w.tables.lastHash)
  }

  predicate OfferedAll(genesis: Genesis, after: Option<U64>, w: World, es: seq<PullEvent>) {
    es != [] ==>
      OfferedAll(genesis, after, w, es[..|es| - 1]) &&
      Offered(genesis, Run(after, w, es[..|es| - 1]), es[|es| - 1])
  }

  ghost predicate Good(genesis: Genesis, w: World) {
    && Invariant(w.tables, genesis, w.chain)
    && (exists after :: LogInvariant(w.tables.log, w.tables.nextWalSeq, genesis, w.chain, after))
    && (!w.mutable ==> w.tables.log == [])
  }

  lemma {:induction false} UpToFinds(chain: seq<Block>, slot: nat, hash: Bytes)
    ensures UpTo(chain, slot, hash) == [] ==> forall i :: !OnChain(chain, i, slot, hash)
    ensures UpTo(chain, slot, hash) != [] ==>
              var n := |UpTo(chain, slot, hash)|;
              n <= |chain| && UpTo(chain, slot, hash) == chain[..n] && OnChain(chain, n - 1, slot, hash)
  {
    if chain != [] {
      var before := chain[..|chain| - 1];
      UpToFinds(before, slot, hash);
      if UpTo(chain, slot, hash) == [] {
        forall i: nat ensures !OnChain(chain, i, slot, hash) {
          assert OnChain(chain, i, slot, hash) ==> i < |before| && OnChain(before, i, slot, hash);
        }
      }
    }
  }

  lemma {:induction false} ImmutableUndoKeepsLog(s: Tables, es: seq<Entry<Block>>)
    ensures var r := UndoBlocks(s, es, false);
            r.Success? ==> r.value.log == s.log && r.value.nextWalSeq == s.nextWalSeq
    decreases |es|
  {
    if es != [] {
      var e := es[|es| - 1];
      var next := UndoBlock(s, e.key, e.value, false);
      if next.Success? {
        ImmutableUndoKeepsLog(next.value, es[..|es| - 1]);
      }
    }
  }

  /** Immutable events log nothing; a block still uses up a sequence number. */
  lemma ImmutableKeepsLog(s: Tables, after: Option<U64>, e: PullEvent)
    ensures var r := Perform(s, after, e, false);
            r.Success? ==> r.value.log == s.log && r.value.nextWalSeq == s.nextWalSeq + if e.RollForward? then 1 else 0
  {
    match e
    case RollForward(b, _) =>
    case RollBack(slot, hash, _) =>
      var found := From(s.blocks, slot);
      if found != [] { ImmutableUndoKeepsLog(s, found[1..]); }
    case RollBackOrigin(_) => ImmutableUndoKeepsLog(s, s.blocks);
  }

  /** One event: the chain database invariant and the log invariant, and how the log moves. */
  lemma StepKeepsGood(genesis: Genesis, after: Option<U64>, w: World, e: PullEvent)
    requires Good(genesis, w) && Offered(genesis, w, e)
    ensures Good(genesis, Step(after, w, e))
    ensures w.tables.log != [] ==> Step(after, w, e).tables.log != []
    ensures w.tables.log != [] ==>
              var s, s' := w.tables, Step(after, w, e).tables;
              Grows(s.log, s.nextWalSeq, s'.log, s'.nextWalSeq)
  {
    hide LogInvariant, Invariant, ApplyBlock, Rollback, RollbackToOrigin, ValidChain;
    var mutable := w.mutable || Near(after, EventSlot(e), e.tip);
    var r := Perform(w.tables, after, e, mutable);
    match r
    case Failure(_) =>
      assert GrowsBy(w.tables.log, w.tables.nextWalSeq, w.tables.log, w.tables.nextWalSeq, 0);
    case Success(t) =>
      PerformKeepsInvariant(genesis, after, w, e, mutable);
      if mutable {
        PerformKeepsLog(genesis, after, w, e);
      } else {
        ImmutableKeepsLog(w.tables, after, e);
        EmptyLog(genesis, w, t, NextChain(w.chain, e));
      }
  }

  lemma EmptyLog(genesis: Genesis, w: World, t: Tables, chain: seq<Block>)
    requires Good(genesis, w) && w.tables.log == t.log == [] && t.nextWalSeq >= w.tables.nextWalSeq
    ensures exists after :: LogInvariant(t.log, t.nextWalSeq, genesis, chain, after)
  {
    assert LogInvariant(t.log, t.nextWalSeq, genesis, chain, []);
  }

  lemma PerformKeepsInvariant(genesis: Genesis, after: Option<U64>, w: World, e: PullEvent, mutable: bool)
    requires Good(genesis, w) && Offered(genesis, w, e) && Perform(w.tables, after, e, mutable).Success?
    ensures Invariant(Perform(w.tables, after, e, mutable).value, genesis, NextChain(w.chain, e))
    ensures e.RollForward? ==> ValidChain(genesis, w.chain + [e.block])
    ensures e.RollBack? ==> NextChain(w.chain, e) != []
  {
    hide LogInvariant, Invariant, Rollback, RollbackToOrigin, ValidChain, ApplyTxs, Resolve, LogAfterApply;
    match e
    case RollForward(b, _) => ApplyKeepsInvariant(w.tables, genesis, w.chain, after, b, mutable);
    case RollBack(slot, hash, _) =>
      RollbackIsExact(w.tables, genesis, w.chain, slot, hash, mutable);
      UpToFinds(w.chain, slot, hash);
    case RollBackOrigin(_) => OriginIsExact(w.tables, genesis, w.chain, mutable);
  }

  lemma PerformKeepsLog(genesis: Genesis, prune: Option<U64>, w: World, e: PullEvent)
    requires Good(genesis, w) && Offered(genesis, w, e) && Perform(w.tables, prune, e, true).Success?
    ensures var s, t := w.tables, Perform(w.tables, prune, e, true).value;
            && t.log != [] && Grows(s.log, s.nextWalSeq, t.log, t.nextWalSeq)
            && exists after :: LogInvariant(t.log, t.nextWalSeq, genesis, NextChain(w.chain, e), after)
  {
    hide LogInvariant, Invariant, ApplyBlock, Rollback, RollbackToOrigin, ValidChain, Grows;
    PerformKeepsInvariant(genesis, prune, w, e, true);
    var after :| LogInvariant(w.tables.log, w.tables.nextWalSeq, genesis, w.chain, after);
    var t := Perform(w.tables, prune, e, true).value;
    var after';
    match e {
      case RollForward(b, _) =>
        after' := ApplyKeepsLog(w.tables, genesis, w.chain, after, prune, b);
      case RollBack(slot, hash, _) =>
        UpToFinds(w.chain, slot, hash);
        after' := RollbackKeepsLog(w.tables, genesis, w.chain, after, |UpTo(w.chain, slot, hash)| - 1);
      case RollBackOrigin(_) =>
        after' := OriginKeepsLog(w.tables, genesis, w.chain, after);
    }
    assert LogInvariant(t.log, t.nextWalSeq, genesis, NextChain(w.chain, e), after');
  }

  /**
   * Chain database invariant over runs: after any events, with any mode switch, the outputs are the
   * genesis outputs folded through the current chain, the block and resolver tables list that chain,
   * the last hash is its tip, and the log is one contiguous interval ending at the last number used.
   */
  lemma {:induction false} RunKeepsGood(genesis: Genesis, after: Option<U64>, w: World, es: seq<PullEvent>)
    requires Good(genesis, w) && OfferedAll(genesis, after, w, es)
    ensures Good(genesis, Run(after, w, es))
    decreases |es|
  {
    hide Good, Step, Offered;
    if es != [] {
      RunKeepsGood(genesis, after, w, es[..|es| - 1]);
      StepKeepsGood(genesis, after, Run(after, w, es[..|es| - 1]), es[|es| - 1]);
    }
  }

  /** A database opened on the tables of a valid chain starts good. */
  lemma OpenedIsGood(genesis: Genesis, chain: seq<Block>)
    requires ValidChain(genesis, chain)
    ensures Good(genesis, World(Opened(BlockTable(chain), ResolverTable(genesis, chain), Unspent(genesis, chain)), false, chain))
  {
    hide Unspent, ValidChain, ResolverTable;
    var t := Opened(BlockTable(chain), ResolverTable(genesis, chain), Unspent(genesis, chain));
    assert LogInvariant(t.log, t.nextWalSeq, genesis, chain, []);
  }

  /** On the current chain a rollback can only fail by naming a point that is not on it. */
  lemma RollbackNeverMissesData(genesis: Genesis, w: World, slot: nat, hash: Bytes, mutable: bool)
    requires Good(genesis, w)
    ensures var r := Rollback(w.tables, slot, hash, mutable);
            r.Failure? ==> r.error == InvalidRollbackPoint && forall i :: !OnChain(w.chain, i, slot, hash)
    ensures RollbackToOrigin(w.tables, mutable).Success?
  {
    hide Invariant, Rollback, RollbackToOrigin;
    RollbackIsExact(w.tables, genesis, w.chain, slot, hash, mutable);
    OriginIsExact(w.tables, genesis, w.chain, mutable);
  }

  /**
   * Log replay over runs: after any events, a consumer that holds the chain ending at any point the
   * search finds, on an abandoned fork too, gets to the current chain by playing the later entries.
   */
  lemma ReplayAfterRun(genesis: Genesis, after: Option<U64>, start: World, es: seq<PullEvent>,
                       slot: nat, hash: Bytes, book: map<Bytes, Block>, client: seq<Block>)
    requires Good(genesis, start) && OfferedAll(genesis, after, start, es)
    requires var w := Run(after, start, es);
             FindWalSeq(w.tables.log, slot, hash).Some? && Identified(book, w.chain) && LogIdentified(book, w.tables.log)
    requires ValidChain(genesis, client) && Tip(client) == Some(hash) && Identified(book, client)
    ensures var w := Run(after, start, es);
            var later := From(w.tables.log, FindWalSeq(w.tables.log, slot, hash).value);
            later != [] && PlayAll(client, later[1..]) == Some(w.chain)
  {
    RunKeepsGood(genesis, after, start, es);
    var w := Run(after, start, es);
    var chains :| LogInvariant(w.tables.log, w.tables.nextWalSeq, genesis, w.chain, chains);
    hide Run, Good, LogInvariant, FindWalSeq, PlayAll, From, ValidChain, Identified;
    ReplayFromFound(w.tables.log, w.tables.nextWalSeq, genesis, w.chain, chains, slot, hash, book, client);
  }

  // ---- A run after which a point on the chain is not found ----

  /** Tables of blocks without transactions. */
  function Plain(blocks: seq<Block>): (seq<Entry<Block>>, seq<Entry<BlockResolver>>) {
    (BlockTable(blocks), seq(|blocks|, i requires 0 <= i < |blocks| => Entry(blocks[i].slot, BlockResolver(blocks[i].hash, map[]))))
  }

  lemma PlainGrows(blocks: seq<Block>, b: Block)
    ensures Plain(blocks + [b]).0 == Plain(blocks).0 + [Entry(b.slot, b)]
    ensures Plain(blocks + [b]).1 == Plain(blocks).1 + [Entry(b.slot, BlockResolver(b.hash, map[]))]
  {
    assert Plain(blocks + [b]).0 == Plain(blocks).0 + [Entry(b.slot, b)];
    assert Plain(blocks + [b]).1 == Plain(blocks).1 + [Entry(b.slot, BlockResolver(b.hash, map[]))];
  }

  function PlainWorld(blocks: seq<Block>, log: seq<Entry<Log>>, next: nat): World {
    World(Tables(Plain(blocks).0, Plain(blocks).1, map[], log, next, Tip(blocks)), true, blocks)
  }

  lemma PlainApply(after: U64, blocks: seq<Block>, log: seq<Entry<Log>>, next: nat, b: Block, mutable: bool)
    requires b.txs == [] && 0 < b.slot < after && b.slot + after < TWO_64
    requires blocks == [] || b.previous == Tip(blocks)
    requires forall i :: 0 <= i < |blocks| ==> blocks[i].slot < b.slot
    requires forall i :: 0 <= i < |log| ==> log[i].key < next
    ensures Step(Some(after), PlainWorld(blocks, log, next).(mutable := mutable), RollForward(b, 0))
            == PlainWorld(blocks + [b], log + [Entry(next, Apply(b, map[]))], next + 1)
  {
    var s := PlainWorld(blocks, log, next).tables;
    assert Resolve(s.txos, b) == map[] && ApplyTxs(s.txos, b.txs, b.slot) == map[];
    assert WithoutFlags(map[]) == map[];
    UpsertAtEnd(s.blocks, b.slot, b);
    UpsertAtEnd(s.resolvers, b.slot, BlockResolver(b.hash, map[]));
    UpsertAtEnd(s.log, next, Apply(b, map[]));
    PlainGrows(blocks, b);
  }

  lemma PlainUndoLast(a: Block, b: Block, log: seq<Entry<Log>>, next: nat)
    requires b.txs == [] && a.slot < b.slot && forall i :: 0 <= i < |log| ==> log[i].key < next
    ensures UndoBlocks(PlainWorld([a, b], log, next).tables, [Entry(b.slot, b)], true)
            == Success(PlainWorld([a], log + [Entry(next, Undone(b))], next + 1).tables.(lastHash := Some(b.hash)))
  {
    var s := PlainWorld([a, b], log, next).tables;
    var e, r := Entry(b.slot, b), Entry(b.slot, BlockResolver(b.hash, map[]));
    assert s.blocks == Plain([a]).0 + [e] && s.resolvers == Plain([a]).1 + [r];
    RemoveAtEnd(Plain([a]).0, e);
    RemoveAtEnd(Plain([a]).1, r);
    UpsertAtEnd(log, next, Undone(b));
    var undone := UndoBlock(s, b.slot, b, true);
    assert undone == Success(PlainWorld([a], log + [Entry(next, Undone(b))], next + 1).tables.(lastHash := Some(b.hash)));
    assert [e][..0] == [];
    assert UndoBlocks(undone.value, [e][..0], true) == undone;
  }

  lemma PlainBack(after: U64, a: Block, b: Block, log: seq<Entry<Log>>, next: nat)
    requires b.txs == [] && a.slot < b.slot && forall i :: 0 <= i < |log| ==> log[i].key < next
    ensures Step(Some(after), PlainWorld([a, b], log, next), RollBack(a.slot, a.hash, 0))
            == PlainWorld([a], log + [Entry(next, Undone(b)), Entry(next + 1, Mark(a))], next + 2)
  {
    var s := PlainWorld([a, b], log, next).tables;
    RollbackUnfolds(s, 0, true);
    assert s.blocks[1..] == [Entry(b.slot, b)];
    PlainUndoLast(a, b, log, next);
    var popped := log + [Entry(next, Undone(b))];
    UpsertAtEnd(popped, next + 1, Mark(a));
    assert popped + [Entry(next + 1, Mark(a))] == log + [Entry(next, Undone(b)), Entry(next + 1, Mark(a))];
    assert [a, b][..1] == [a];
    UpToFinds([a, b], a.slot, a.hash);
    assert UpTo([a, b][..1], a.slot, a.hash) == [a];
  }

  lemma RunFour(after: Option<U64>, w: World, a: PullEvent, b: PullEvent, c: PullEvent, d: PullEvent)
    ensures Run(after, w, [a, b, c, d]) == Step(after, Step(after, Step(after, Step(after, w, a), b), c), d)
  {
    hide Step;
    assert [a, b, c, d][..3] == [a, b, c] && [a, b, c][..2] == [a, b] && [a, b][..1] == [a] && [a][..0] == [];
    assert Run(after, w, [a, b, c]) == Step(after, Run(after, w, [a, b]), c);
    assert Run(after, w, [a, b]) == Step(after, Run(after, w, [a]), b);
    assert Run(after, w, [a]) == Step(after, Run(after, w, []), a);
  }

  /**
   * A database is opened empty, follows `a` and `b`, rolls back to `a` and takes `c` at a slot not above
   * that of `b`: then `c` is the tip and in the log, and the search does not find it.
   */
  lemma RollbackHidesLaterPoint(after: U64, a: Block, b: Block, c: Block)
    requires a.txs == [] && b.txs == [] && c.txs == [] && b.previous == Some(a.hash) == c.previous
    requires 0 < a.slot < c.slot <= b.slot < after && b.slot + after < TWO_64 && b.hash != c.hash
    ensures var blank := World(Opened([], [], map[]), false, []);
            var es := [RollForward(a, 0), RollForward(b, 0), RollBack(a.slot, a.hash, 0), RollForward(c, 0)];
            var w := Run(Some(after), blank, es);
            && w.chain == [a, c]
            && (exists i :: 0 <= i < |w.tables.log| && IsPoint(w.tables.log[i].value, c.slot, c.hash))
            && FindWalSeq(w.tables.log, c.slot, c.hash) == None
  {
    var log := ForkLog(a, b, c);
    ForkRun(after, a, b, c);
    hide Run, Opened;
    HiddenBehind(log[0], log[1], log[2], log[3], log[4], c.slot, c.hash);
    assert log == [log[0], log[1], log[2], log[3], log[4]];
    assert IsPoint(log[4].value, c.slot, c.hash);
  }

  function ForkLog(a: Block, b: Block, c: Block): seq<Entry<Log>> {
    [Entry(1, Apply(a, map[])), Entry(2, Apply(b, map[])), Entry(3, Undone(b)), Entry(4, Mark(a)), Entry(5, Apply(c, map[]))]
  }

  lemma ForkRun(after: U64, a: Block, b: Block, c: Block)
    requires a.txs == [] && b.txs == [] && c.txs == [] && b.previous == Some(a.hash) == c.previous
    requires 0 < a.slot < c.slot <= b.slot < after && b.slot + after < TWO_64
    ensures var es := [RollForward(a, 0), RollForward(b, 0), RollBack(a.slot, a.hash, 0), RollForward(c, 0)];
            Run(Some(after), World(Opened([], [], map[]), false, []), es) == PlainWorld([a, c], ForkLog(a, b, c), 6)
  {
    var blank := World(Opened([], [], map[]), false, []);
    RunFour(Some(after), blank, RollForward(a, 0), RollForward(b, 0), RollBack(a.slot, a.hash, 0), RollForward(c, 0));
    var log := ForkLog(a, b, c);
    ForkThere(after, a, b, c);
    ForkBack(after, a, b, c);
    hide *;
  }

  lemma ForkThere(after: U64, a: Block, b: Block, c: Block)
    requires a.txs == [] && b.txs == [] && b.previous == Some(a.hash)
    requires 0 < a.slot < b.slot < after && b.slot + after < TWO_64
    ensures var blank := World(Opened([], [], map[]), false, []);
            Step(Some(after), Step(Some(after), blank, RollForward(a, 0)), RollForward(b, 0))
            == PlainWorld([a, b], ForkLog(a, b, c)[..2], 3)
  {
    var log := ForkLog(a, b, c);
    var blank := World(Opened([], [], map[]), false, []);
    assert log[..0] == [] && blank == PlainWorld([], log[..0], 1).(mutable := false);
    hide Step, Opened, PlainWorld;
    ForkApply(after, [], log, 0, a, false);
    assert [] + [a] == [a] && [a] + [b] == [a, b];
    ForkApply(after, [a], log, 1, b, true);
    PlainKeeps([a], log[..1], 2);
  }

  lemma ForkBack(after: U64, a: Block, b: Block, c: Block)
    requires b.txs == [] && c.txs == [] && c.previous == Some(a.hash)
    requires 0 < a.slot < b.slot && a.slot < c.slot < after && c.slot + after < TWO_64
    ensures var back := Step(Some(after), PlainWorld([a, b], ForkLog(a, b, c)[..2], 3), RollBack(a.slot, a.hash, 0));
            Step(Some(after), back, RollForward(c, 0))
            == PlainWorld([a, c], ForkLog(a, b, c), 6)
  {
    var log := ForkLog(a, b, c);
    hide Step;
    PlainBack(after, a, b, log[..2], 3);
    assert log[..2] + [log[2], log[3]] == log[..4] && log[..5] == log && [a] + [c] == [a, c];
    ForkApply(after, [a], log, 4, c, true);
    PlainKeeps([a], log[..4], 5);
  }

  lemma ForkApply(after: U64, blocks: seq<Block>, log: seq<Entry<Log>>, n: nat, b: Block, mutable: bool)
    requires b.txs == [] && 0 < b.slot < after && b.slot + after < TWO_64
    requires blocks == [] || b.previous == Tip(blocks)
    requires forall i :: 0 <= i < |blocks| ==> blocks[i].slot < b.slot
    requires n < |log| && log[n] == Entry(n + 1, Apply(b, map[])) && forall i :: 0 <= i < n ==> log[i].key == i + 1
    ensures Step(Some(after), PlainWorld(blocks, log[..n], n + 1).(mutable := mutable), RollForward(b, 0))
            == PlainWorld(blocks + [b], log[..n + 1], n + 2)
  {
    hide Step, PlainWorld;
    PlainApply(after, blocks, log[..n], n + 1, b, mutable);
    assert log[..n] + [log[n]] == log[..n + 1];
  }

  lemma PlainKeeps(blocks: seq<Block>, log: seq<Entry<Log>>, next: nat)
    ensures PlainWorld(blocks, log, next).(mutable := true) == PlainWorld(blocks, log, next)
  {
  }

  lemma HiddenBehind(x: Entry<Log>, y: Entry<Log>, u: Entry<Log>, v: Entry<Log>, z: Entry<Log>, slot: nat, hash: Bytes)
    requires IsPoint(z.value, slot, hash) && LogSlot(x.value) < slot <= LogSlot(y.value) && !IsPoint(y.value, slot, hash)
    requires !IsPoint(x.value, slot, hash)
    ensures IsPoint([x, y, u, v, z][4].value, slot, hash) && FindWalSeq([x, y, u, v, z], slot, hash) == None
  {
    assert [x, y, u, v, z][1..] == [y, u, v, z];
  }
}
