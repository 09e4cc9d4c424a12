/** Every reachable chain database is the fold of one ledger-valid chain, and names its tip. */
module ChainRuns {
  import opened Wrappers
  import opened Bytes
  import opened Ledger
  import opened OrderedTable
  import opened ChainDb

  // ---- The reference: a list of blocks and the outputs it leaves unspent ----

  /** Where a chain starts: the outputs that exist, and the previous hash of its first block. */
  datatype Genesis = Genesis(txos: Txos, root: Option<Bytes>)

  function Unspent(genesis: Genesis, chain: seq<Block>): Txos {
    if chain == [] then genesis.txos
    else
      var b := chain[|chain| - 1];
      ApplyTxs(Unspent(genesis, chain[..|chain| - 1]), b.txs, b.slot)
  }

  function Tip(chain: seq<Block>): Option<Bytes> {
    if chain == [] then None else Some(chain[|chain| - 1].hash)
  }

  /** Blocks are ledger-valid where they stand, linked by hash, with strictly increasing slots. */
  predicate ValidChain(genesis: Genesis, chain: seq<Block>) {
    chain != [] ==>
      var before, b := chain[..|chain| - 1], chain[|chain| - 1];
      && ValidChain(genesis, before)
      && ValidBlock(Unspent(genesis, before), b)
      && (before != [] ==> before[|before| - 1].slot < b.slot)
      && b.previous == (if before == [] then genesis.root else Tip(before))
      && Some(b.hash) != genesis.root
  }

  function BlockTable(chain: seq<Block>): (r: seq<Entry<Block>>)
    ensures |r| == |chain|
  {
    seq(|chain|, i requires 0 <= i < |chain| => Entry(chain[i].slot, chain[i]))
  }

  function ResolverTable(genesis: Genesis, chain: seq<Block>): seq<Entry<BlockResolver>>
    requires ValidChain(genesis, chain)
  {
    if chain == [] then []
    else
      var before, b := chain[..|chain| - 1], chain[|chain| - 1];
      ResolverTable(genesis, before) + [Entry(b.slot, BlockResolver(b.hash, Resolve(Unspent(genesis, before), b)))]
  }

  ghost predicate Holds(s: Tables, genesis: Genesis, chain: seq<Block>) {
    && ValidChain(genesis, chain)
    && s.blocks == BlockTable(chain)
    && s.resolvers == ResolverTable(genesis, chain)
    && s.txos == Unspent(genesis, chain)
  }

  /** The invariant: all tables are functions of the current chain. */
  ghost predicate Invariant(s: Tables, genesis: Genesis, chain: seq<Block>) {
    Holds(s, genesis, chain) && s.lastHash == Tip(chain)
  }

  // ---- Slots of a valid chain ----

  lemma {:induction false} ValidPrefix(genesis: Genesis, chain: seq<Block>, n: nat)
    requires ValidChain(genesis, chain) && n <= |chain|
    ensures ValidChain(genesis, chain[..n])
    decreases |chain|
  {
    if n < |chain| {
      ValidPrefix(genesis, chain[..|chain| - 1], n);
      assert chain[..|chain| - 1][..n] == chain[..n];
    } else {
      assert chain[..n] == chain;
    }
  }

  lemma {:induction false} SlotsIncrease(genesis: Genesis, chain: seq<Block>, i: nat, j: nat)
    requires ValidChain(genesis, chain) && i < j < |chain|
    ensures chain[i].slot < chain[j].slot
    decreases |chain|
  {
    var before := chain[..|chain| - 1];
    if j < |chain| - 1 {
      SlotsIncrease(genesis, before, i, j);
    } else if i < |before| - 1 {
      SlotsIncrease(genesis, before, i, |before| - 1);
    }
  }

  lemma BlockTableSorted(genesis: Genesis, chain: seq<Block>)
    requires ValidChain(genesis, chain)
    ensures Sorted(BlockTable(chain))
  {
    forall i, j | 0 <= i < j < |chain| ensures chain[i].slot < chain[j].slot {
      SlotsIncrease(genesis, chain, i, j);
    }
  }

  /** Block and resolver tables have the same slots and hashes, position by position. */
  lemma {:induction false} TablesPair(genesis: Genesis, chain: seq<Block>)
    requires ValidChain(genesis, chain)
    ensures |ResolverTable(genesis, chain)| == |chain|
    ensures forall i :: 0 <= i < |chain| ==>
              ResolverTable(genesis, chain)[i].key == chain[i].slot &&
              ResolverTable(genesis, chain)[i].value.hash == chain[i].hash
  {
    if chain != [] {
      TablesPair(genesis, chain[..|chain| - 1]);
    }
  }

  // ---- Apply ----

  lemma AllBelow(genesis: Genesis, chain: seq<Block>, b: Block)
    requires ValidChain(genesis, chain + [b])
    ensures ValidChain(genesis, chain)
    ensures forall i :: 0 <= i < |chain| ==> chain[i].slot < b.slot
  {
    var all := chain + [b];
    assert all[..|chain|] == chain;
    forall i | 0 <= i < |chain| ensures chain[i].slot < b.slot {
      SlotsIncrease(genesis, all, i, |chain|);
    }
  }

  /** All tables of a chain in terms of the chain without its last block. */
  lemma Extend(genesis: Genesis, chain: seq<Block>, b: Block)
    requires ValidChain(genesis, chain + [b])
    ensures ValidChain(genesis, chain) && ValidBlock(Unspent(genesis, chain), b)
    ensures b.previous == (if chain == [] then genesis.root else Tip(chain))
    ensures BlockTable(chain + [b]) == BlockTable(chain) + [Entry(b.slot, b)]
    ensures ResolverTable(genesis, chain + [b]) ==
            ResolverTable(genesis, chain) + [Entry(b.slot, BlockResolver(b.hash, Resolve(Unspent(genesis, chain), b)))]
    ensures Unspent(genesis, chain + [b]) == ApplyTxs(Unspent(genesis, chain), b.txs, b.slot)
    ensures forall i :: 0 <= i < |chain| ==> BlockTable(chain)[i].key < b.slot
    ensures |ResolverTable(genesis, chain)| == |chain|
    ensures forall i :: 0 <= i < |chain| ==> ResolverTable(genesis, chain)[i].key < b.slot
  {
    hide ApplyTxs, Resolve, Resolvable, ValidTxs;
    var all := chain + [b];
    assert all[..|chain|] == chain;
    AllBelow(genesis, chain, b);
    TablesPair(genesis, chain);
  }

  lemma ApplyKeepsInvariant(s: Tables, genesis: Genesis, chain: seq<Block>, after: Option<U64>, b: Block, mutable: bool)
    requires Invariant(s, genesis, chain) && ValidChain(genesis, chain + [b])
    ensures ApplyBlock(s, after, b, mutable).Success?
    ensures Invariant(ApplyBlock(s, after, b, mutable).value, genesis, chain + [b])
  {
    hide ApplyTxs, Resolve, Resolvable, LogAfterApply, ValidChain, Unspent, ResolverTable, BlockTable, Upsert, ValidTxs;
    Extend(genesis, chain, b);
    UpsertAtEnd(s.blocks, b.slot, b);
    UpsertAtEnd(s.resolvers, b.slot, BlockResolver(b.hash, Resolve(s.txos, b)));
  }

  // ---- Undo ----

  lemma UndoKeepsHolds(s: Tables, genesis: Genesis, chain: seq<Block>, mutable: bool)
    requires Holds(s, genesis, chain) && chain != []
    ensures var b := chain[|chain| - 1];
            var r := UndoBlock(s, b.slot, b, mutable);
            && r.Success? && Holds(r.value, genesis, chain[..|chain| - 1])
            && r.value.log == (if mutable then Append(s, Undone(b)).log else s.log)
            && r.value.nextWalSeq == (if mutable then s.nextWalSeq + 1 else s.nextWalSeq)
  {
    hide ApplyTxs, Resolve, Resolvable, UndoTxs, ValidTxs, ValidChain, Unspent, ResolverTable, BlockTable, Find, Remove;
    var before, b := chain[..|chain| - 1], chain[|chain| - 1];
    assert before + [b] == chain;
    Extend(genesis, before, b);
    UndoBlockRestores(Unspent(genesis, before), b);
    RemoveAtEnd(BlockTable(before), Entry(b.slot, b));
    RemoveAtEnd(ResolverTable(genesis, before), Entry(b.slot, BlockResolver(b.hash, Resolve(Unspent(genesis, before), b))));
  }

  /** Undoing a suffix of the chain never fails and leaves the rest. */
  lemma {:induction false} UndoSuffix(s: Tables, genesis: Genesis, chain: seq<Block>, n: nat, mutable: bool)
    requires Holds(s, genesis, chain) && n <= |chain|
    ensures var r := UndoBlocks(s, BlockTable(chain)[n..], mutable);
            r.Success? && Holds(r.value, genesis, chain[..n])
    decreases |chain|
  {
    hide UndoBlock, Holds;
    var es := BlockTable(chain)[n..];
    if n == |chain| {
      assert chain[..n] == chain;
    } else {
      var before := chain[..|chain| - 1];
      UndoKeepsHolds(s, genesis, chain, mutable);
      assert es[..|es| - 1] == BlockTable(before)[n..];
      UndoSuffix(UndoBlock(s, chain[|chain| - 1].slot, chain[|chain| - 1], mutable).value, genesis, before, n, mutable);
      assert before[..n] == chain[..n];
    }
  }

  /** The position of a point on the chain. */
  ghost predicate OnChain(chain: seq<Block>, i: nat, slot: nat, hash: Bytes) {
    i < |chain| && chain[i].slot == slot && chain[i].hash == hash
  }

  /**
   * Rolling back to a point on the chain succeeds and leaves the chain up to it; any other point is
   * rejected as invalid. No other error is possible.
   */
  lemma RollbackIsExact(s: Tables, genesis: Genesis, chain: seq<Block>, slot: nat, hash: Bytes, mutable: bool)
    requires Invariant(s, genesis, chain)
    ensures forall i :: OnChain(chain, i, slot, hash) ==>
              Rollback(s, slot, hash, mutable).Success? &&
              Invariant(Rollback(s, slot, hash, mutable).value, genesis, chain[..i + 1])
    ensures (forall i :: !OnChain(chain, i, slot, hash)) ==>
              Rollback(s, slot, hash, mutable) == Failure(InvalidRollbackPoint)
  {
    BlockTableSorted(genesis, chain);
    forall i | OnChain(chain, i, slot, hash)
      ensures Rollback(s, slot, hash, mutable).Success? &&
              Invariant(Rollback(s, slot, hash, mutable).value, genesis, chain[..i + 1])
    {
      RollbackOnChain(s, genesis, chain, i, mutable);
    }
    var found := From(s.blocks, slot);
    FromIsSuffix(s.blocks, slot);
    if found != [] {
      var n := |chain| - |found|;
      assert found[0] == s.blocks[n];
      assert found[0].key == slot && found[0].value.hash == hash ==> OnChain(chain, n, slot, hash);
    }
  }

  lemma RollbackUnfolds(s: Tables, i: nat, mutable: bool)
    requires Sorted(s.blocks) && i < |s.blocks|
    ensures var e := s.blocks[i];
            var undone := UndoBlocks(s, s.blocks[i + 1..], mutable);
            Rollback(s, e.key, e.value.hash, mutable) ==
            if undone.Failure? then undone
            else
              var s' := if mutable then Append(undone.value, Mark(e.value)) else undone.value;
              Success(s'.(lastHash := Some(e.value.hash)))
  {
    hide UndoBlocks, From, Sorted;
    FromAt(s.blocks, i);
    assert s.blocks[i..][1..] == s.blocks[i + 1..];
  }

  lemma RollbackOnChain(s: Tables, genesis: Genesis, chain: seq<Block>, i: nat, mutable: bool)
    requires Invariant(s, genesis, chain) && i < |chain|
    ensures var r := Rollback(s, chain[i].slot, chain[i].hash, mutable);
            r.Success? && Invariant(r.value, genesis, chain[..i + 1])
  {
    hide UndoBlocks, ValidChain, ResolverTable, Unspent, Rollback, Sorted;
    BlockTableSorted(genesis, chain);
    RollbackUnfolds(s, i, mutable);
    UndoSuffix(s, genesis, chain, i + 1, mutable);
  }

  lemma OriginIsExact(s: Tables, genesis: Genesis, chain: seq<Block>, mutable: bool)
    requires Invariant(s, genesis, chain)
    ensures RollbackToOrigin(s, mutable).Success?
    ensures Invariant(RollbackToOrigin(s, mutable).value, genesis, [])
  {
    hide UndoBlocks;
    assert s.blocks[0..] == s.blocks;
    UndoSuffix(s, genesis, chain, 0, mutable);
    assert chain[..0] == [];
  }

  // ---- Chains are determined by their tip ----

  /** Hashes identify blocks: every block of the chain is the one its hash stands for. */
  ghost predicate Identified(book: map<Bytes, Block>, chain: seq<Block>) {
    forall i :: 0 <= i < |chain| ==> Get(book, chain[i].hash) == Some(chain[i])
  }

  lemma TipIsNotRoot(genesis: Genesis, chain: seq<Block>)
    requires ValidChain(genesis, chain) && chain != []
    ensures Tip(chain) != genesis.root
  {
  }

  lemma {:induction false} SameTipSameChain(genesis: Genesis, book: map<Bytes, Block>, a: seq<Block>, b: seq<Block>)
    requires ValidChain(genesis, a) && ValidChain(genesis, b) && Identified(book, a) && Identified(book, b)
    requires Tip(a) == Tip(b)
    ensures a == b
    decreases |a|
  {
    if a != [] {
      hide ValidChain, Unspent, ValidBlock, BlockTable, ResolverTable;
      var x, y := a[..|a| - 1], b[..|b| - 1];
      var last := a[|a| - 1];
      assert Some(last) == Get(book, last.hash) == Some(b[|b| - 1]);
      assert a == x + [last] && b == y + [last];
      Extend(genesis, x, last);
      Extend(genesis, y, last);
      if x != [] { TipIsNotRoot(genesis, x); }
      if y != [] { TipIsNotRoot(genesis, y); }
      SameTipSameChain(genesis, book, x, y);
    }
  }
}
