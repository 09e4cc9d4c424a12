/** The compressor's chain database: four tables that move together on apply and rollback. */
module ChainDb {
  import opened Wrappers
  import opened Bytes
  import opened Ledger
  import opened OrderedTable

  datatype DbError =
    | PreviousHashMismatch
    | MissingTxo
    | MissingResolver
    | ResolverHashMismatch
    | InvalidRollbackPoint

  /** Write-ahead log entries. A block stands for its slot, hash and body. */
  datatype Log =
    | Apply(block: Block, resolver: Txos)
    | Undone(block: Block)
    | Mark(block: Block)
    | ToOrigin

  datatype BlockResolver = BlockResolver(hash: Bytes, resolver: Resolver)

  datatype Tables = Tables(
    blocks: seq<Entry<Block>>,
    resolvers: seq<Entry<BlockResolver>>,
    txos: Txos,
    log: seq<Entry<Log>>,
    nextWalSeq: nat,
    lastHash: Option<Bytes>)

  function LogSlot(l: Log): nat {
    if l.ToOrigin? then 0 else l.block.slot
  }

  function WithoutFlags(r: Resolver): Txos {
    map k | k in r :: r[k].body
  }

  /** Entries below a slot are dropped from the front until the first one that is not. */
  function Prune(log: seq<Entry<Log>>, before: nat): (r: seq<Entry<Log>>)
    ensures |r| <= |log| && r == log[|log| - |r|..]
  {
    if log == [] || LogSlot(log[0].value) >= before then log else Prune(log[1..], before)
  }

  method PruneLog(log: seq<Entry<Log>>, before: nat) returns (r: seq<Entry<Log>>)
    ensures r == Prune(log, before)
  {
    r := log;
    for i := 0 to |log|
      invariant r == log[i..]
      invariant Prune(log[i..], before) == Prune(log, before)
    {
      if LogSlot(log[i].value) >= before {
        return;
      }
      r := Remove(r, log[i].key);
    }
  }

  // ---- The three operations on the tables ----

  function LogAfterApply(s: Tables, after: Option<U64>, b: Block, mutable: bool): seq<Entry<Log>>
    requires Resolvable(s.txos, b)
  {
    if !mutable then s.log
    else
      var log := Upsert(s.log, s.nextWalSeq, Apply(b, WithoutFlags(Resolve(s.txos, b))));
      if after.Some? && b.slot >= after.value then Prune(log, b.slot - after.value) else log
  }

  function ApplyBlock(s: Tables, after: Option<U64>, b: Block, mutable: bool): Result<Tables, DbError> {
    if s.lastHash.Some? && b.previous != s.lastHash then Failure(PreviousHashMismatch)
    else if !Resolvable(s.txos, b) then Failure(MissingTxo)
    else
      Success(Tables(
        Upsert(s.blocks, b.slot, b),
        Upsert(s.resolvers, b.slot, BlockResolver(b.hash, Resolve(s.txos, b))),
        ApplyTxs(s.txos, b.txs, b.slot),
        LogAfterApply(s, after, b, mutable),
        s.nextWalSeq + 1,
        Some(b.hash)))
  }

  function Append(s: Tables, l: Log): Tables {
    s.(log := Upsert(s.log, s.nextWalSeq, l), nextWalSeq := s.nextWalSeq + 1)
  }

  function UndoBlock(s: Tables, slot: nat, b: Block, mutable: bool): Result<Tables, DbError> {
    var logged := if mutable then Append(s, Undone(b)) else s;
    match Find(s.resolvers, slot)
    case None => Failure(MissingResolver)
    case Some(r) =>
      if r.hash != b.hash then Failure(ResolverHashMismatch)
      else
        match UndoTxs(Undo(s.txos, r.resolver), b.txs)
        case None => Failure(MissingTxo)
        case Some(u) =>
          Success(logged.(
            blocks := Remove(s.blocks, slot),
            resolvers := Remove(s.resolvers, slot),
            txos := u.txos))
  }

  /** Undo the given blocks, the last one first. */
  function UndoBlocks(s: Tables, es: seq<Entry<Block>>, mutable: bool): Result<Tables, DbError>
    decreases |es|
  {
    if es == [] then Success(s)
    else
      var e := es[|es| - 1];
      var next :- UndoBlock(s, e.key, e.value, mutable);
      UndoBlocks(next, es[..|es| - 1], mutable)
  }

  function Rollback(s: Tables, slot: nat, hash: Bytes, mutable: bool): Result<Tables, DbError> {
    var found := From(s.blocks, slot);
    if found == [] || found[0].key != slot || found[0].value.hash != hash then Failure(InvalidRollbackPoint)
    else
      var undone :- UndoBlocks(s, found[1..], mutable);
      var marked := if mutable then Append(undone, Mark(found[0].value)) else undone;
      Success(marked.(lastHash := Some(hash)))
  }

  function RollbackToOrigin(s: Tables, mutable: bool): Result<Tables, DbError> {
    var undone :- UndoBlocks(s, s.blocks, mutable);
    var marked := if mutable then Append(undone, ToOrigin) else undone;
    Success(marked.(lastHash := None))
  }

  // ---- The database object ----

  class ChainDb {
    const immutableAfterSlots: Option<U64>
    var blocks: seq<Entry<Block>>
    var resolvers: seq<Entry<BlockResolver>>
    var txos: Txos
    var log: seq<Entry<Log>>
    var nextWalSeq: nat
    var lastBlockHash: Option<Bytes>

    function View(): Tables
      reads this
    {
      Tables(blocks, resolvers, txos, log, nextWalSeq, lastBlockHash)
    }

    /** Opening clears the log and takes the last hash from the block table. */
    constructor (after: Option<U64>, blocks: seq<Entry<Block>>, resolvers: seq<Entry<BlockResolver>>, txos: Txos)
      ensures immutableAfterSlots == after
      ensures View() == Opened(blocks, resolvers, txos)
    {
      immutableAfterSlots := after;
      this.blocks, this.resolvers, this.txos := blocks, resolvers, txos;
      log, nextWalSeq := [], 1;
      lastBlockHash := if blocks == [] then None else Some(blocks[|blocks| - 1].value.hash);
    }

    method ApplyBlockWithContext(b: Block, mutable: bool) returns (error: Option<DbError>)
      modifies this
      ensures Follows(old(View()), ApplyBlock(old(View()), immutableAfterSlots, b, mutable), View(), error)
    {
      hide ApplyTxs, Resolve, Resolvable, Upsert, Prune, WithoutFlags;
      if lastBlockHash.Some? {
        if b.previous != lastBlockHash {
          return Some(PreviousHashMismatch);
        }
      }
      var resolver := ResolveBlockTxInputs(txos, b);
      if resolver.None? {
        return Some(MissingTxo);
      }
      var staged := log;
      if mutable {
        staged := Upsert(staged, nextWalSeq, Apply(b, WithoutFlags(resolver.value)));
      }
      var stagedTxos := StageTxs(txos, b.txs, b.slot);
      if mutable && immutableAfterSlots.Some? && b.slot >= immutableAfterSlots.value {
        staged := PruneLog(staged, b.slot - immutableAfterSlots.value);
      }
      blocks := Upsert(blocks, b.slot, b);
      resolvers := Upsert(resolvers, b.slot, BlockResolver(b.hash, resolver.value));
      txos := stagedTxos;
      log := staged;
      nextWalSeq := nextWalSeq + 1;
      lastBlockHash := Some(b.hash);
      error := None;
    }

    method RollbackTo(slot: U64, hash: Bytes, mutable: bool) returns (error: Option<DbError>)
      modifies this
      ensures Follows(old(View()), Rollback(old(View()), slot, hash, mutable), View(), error)
    {
      var found := From(blocks, slot);
      if found == [] || found[0].key != slot || found[0].value.hash != hash {
        return Some(InvalidRollbackPoint);
      }
      var staged := Unwind(View(), found[1..], mutable);
      if staged.Failure? {
        return Some(staged.error);
      }
      var s := staged.value;
      if mutable {
        s := Append(s, Mark(found[0].value));
      }
      Commit(s, Some(hash));
      error := None;
    }

    method RollbackOrigin(mutable: bool) returns (error: Option<DbError>)
      modifies this
      ensures Follows(old(View()), RollbackToOrigin(old(View()), mutable), View(), error)
    {
      var staged := Unwind(View(), blocks, mutable);
      if staged.Failure? {
        return Some(staged.error);
      }
      var s := staged.value;
      if mutable {
        s := Append(s, ToOrigin);
      }
      Commit(s, None);
      error := None;
    }

    method Commit(s: Tables, hash: Option<Bytes>)
      modifies this
      ensures View() == s.(lastHash := hash)
    {
      blocks, resolvers, txos, log := s.blocks, s.resolvers, s.txos, s.log;
      nextWalSeq, lastBlockHash := s.nextWalSeq, hash;
    }
  }

  function Opened(blocks: seq<Entry<Block>>, resolvers: seq<Entry<BlockResolver>>, txos: Txos): Tables {
    Tables(blocks, resolvers, txos, [], 1,
      if blocks == [] then None else Some(blocks[|blocks| - 1].value.hash))
  }

  /** A failed operation reports its error and leaves every table as it was. */
  predicate Follows(before: Tables, spec: Result<Tables, DbError>, after: Tables, error: Option<DbError>) {
    match spec
    case Success(s) => error.None? && after == s
    case Failure(e) => error == Some(e) && after == before
  }

  /** The rollback loop: entries in reverse, everything staged on a copy. */
  method Unwind(s: Tables, es: seq<Entry<Block>>, mutable: bool) returns (r: Result<Tables, DbError>)
    ensures r == UndoBlocks(s, es, mutable)
  {
    var staged := s;
    assert es[..|es|] == es;
    for i := |es| downto 0
      invariant UndoBlocks(staged, es[..i], mutable) == UndoBlocks(s, es, mutable)
    {
      assert es[..i + 1][..i] == es[..i];
      var slot, b := es[i].key, es[i].value;
      var resolver := Find(staged.resolvers, slot);
      if resolver.None? {
        return Failure(MissingResolver);
      }
      if resolver.value.hash != b.hash {
        return Failure(ResolverHashMismatch);
      }
      var u := UnstageTxs(staged.txos, resolver.value.resolver, b.txs);
      if u.None? {
        return Failure(MissingTxo);
      }
      var logged := if mutable then Append(staged, Undone(b)) else staged;
      staged := logged.(
        blocks := Remove(staged.blocks, slot),
        resolvers := Remove(staged.resolvers, slot),
        txos := u.value.txos);
    }
    r := Success(staged);
  }
}
