/** The write-ahead log: what its entries mean to a consumer that replays them. */
module WriteAheadLog {
  import opened Wrappers
  import opened Bytes
  import opened Ledger
  import opened OrderedTable
  import opened ChainDb
  import opened ChainRuns

  // ---- Replay ----

  /** A consumer's view of one entry as a step on its own chain; none if the entry does not fit. */
  function Play(chain: seq<Block>, l: Log): Option<seq<Block>> {
    match l
    case Apply(b, _) => if chain == [] || b.previous == Tip(chain) then Some(chain + [b]) else None
    case Undone(b) => if chain != [] && chain[|chain| - 1] == b then Some(chain[..|chain| - 1]) else None
    case Mark(b) => if chain != [] && chain[|chain| - 1] == b then Some(chain) else None
    case ToOrigin => if chain == [] then Some([]) else None
  }

  function PlayAll(chain: seq<Block>, log: seq<Entry<Log>>): Option<seq<Block>>
    decreases |log|
  {
    if log == [] then Some(chain)
    else
      match Play(chain, log[0].value)
      case None => None
      case Some(next) => PlayAll(next, log[1..])
  }

  // ---- The log of a database, with the chain after each entry ----

  predicate Names(l: Log, chain: seq<Block>) {
    match l
    case Apply(b, _) => chain != [] && chain[|chain| - 1] == b
    case Mark(b) => chain != [] && chain[|chain| - 1] == b
    case Undone(_) => true
    case ToOrigin => chain == []
  }

  /** An apply entry carries exactly the outputs its block needs, as they were just before it. */
  ghost predicate Supplied(genesis: Genesis, l: Log, chain: seq<Block>) {
    l.Apply? ==> chain != [] && Supplies(Unspent(genesis, chain[..|chain| - 1]), l.block, l.resolver)
  }

  ghost predicate LogInvariant(log: seq<Entry<Log>>, next: nat, genesis: Genesis, chain: seq<Block>, after: seq<seq<Block>>) {
    && |after| == |log| < next
    && (forall i :: 0 <= i < |log| ==> log[i].key == next - |log| + i)
    && (forall i :: 0 <= i < |log| ==> Names(log[i].value, after[i]) && ValidChain(genesis, after[i]))
    && (forall i :: 0 <= i < |log| ==> Supplied(genesis, log[i].value, after[i]))
    && (forall i :: 0 < i < |log| ==> Play(after[i - 1], log[i].value) == Some(after[i]))
    && (log != [] ==> after[|log| - 1] == chain)
  }

  /** A step drops some of the oldest entries and appends new ones, one per sequence number. */
  ghost predicate Grows(log: seq<Entry<Log>>, next: nat, log': seq<Entry<Log>>, next': nat) {
    exists k: nat :: GrowsBy(log, next, log', next', k)
  }

  ghost predicate GrowsBy(log: seq<Entry<Log>>, next: nat, log': seq<Entry<Log>>, next': nat, k: nat) {
    k <= |log| && log[k..] <= log' && next <= next' && |log'| + k == |log| + (next' - next)
  }

  lemma {:induction false} AppendKeepsLog(s: Tables, genesis: Genesis, chain: seq<Block>, after: seq<seq<Block>>, l: Log, chain': seq<Block>)
    requires LogInvariant(s.log, s.nextWalSeq, genesis, chain, after)
    requires ValidChain(genesis, chain') && Names(l, chain') && Play(chain, l) == Some(chain') && Supplied(genesis, l, chain')
    ensures Append(s, l).log == s.log + [Entry(s.nextWalSeq, l)]
    ensures LogInvariant(Append(s, l).log, s.nextWalSeq + 1, genesis, chain', after + [chain'])
  {
    hide ValidChain, Names, Play, Supplied;
    UpsertAtEnd(s.log, s.nextWalSeq, l);
    var log, all := s.log + [Entry(s.nextWalSeq, l)], after + [chain'];
    forall i | 0 < i < |log| ensures Play(all[i - 1], log[i].value) == Some(all[i]) {
      if i < |s.log| {
        assert Play(after[i - 1], s.log[i].value) == Some(after[i]);
      }
    }
  }

  lemma {:induction false} SuffixKeepsLog(log: seq<Entry<Log>>, next: nat, genesis: Genesis, chain: seq<Block>, after: seq<seq<Block>>, n: nat)
    requires LogInvariant(log, next, genesis, chain, after) && n <= |log|
    ensures LogInvariant(log[n..], next, genesis, chain, after[n..])
  {
    hide ValidChain, Names, Play, Supplied;
    var l, a := log[n..], after[n..];
    forall i | 0 < i < |l| ensures Play(a[i - 1], l[i].value) == Some(a[i]) {
      assert Play(after[n + i - 1], log[n + i].value) == Some(after[n + i]);
    }
  }

  /** The entry's block, or the origin, lies before a slot. */
  predicate Below(l: Log, slot: nat) {
    if l.ToOrigin? then 0 < slot else l.block.slot < slot
  }

  /** Pruning never removes an entry that is young enough, or anything after it. */
  lemma {:induction false} PruneKeepsYoung(log: seq<Entry<Log>>, before: nat, i: nat)
    requires i < |log| && !Below(log[i].value, before)
    ensures |Prune(log, before)| >= |log| - i
  {
    if i > 0 {
      PruneKeepsYoung(log[1..], before, i - 1);
    }
  }

  /** And it removes all leading entries that are not. */
  lemma {:induction false} PruneDropsOld(log: seq<Entry<Log>>, before: nat)
    ensures Prune(log, before) != [] ==> !Below(Prune(log, before)[0].value, before)
    ensures forall i :: 0 <= i < |log| - |Prune(log, before)| ==> Below(log[i].value, before)
  {
    if log != [] {
      PruneDropsOld(log[1..], before);
      assert forall i :: 0 < i < |log| ==> log[i] == log[1..][i - 1];
    }
  }

  /**
   * After a mutable apply the log starts at most the configured number of slots below the block, and no
   * entry within those slots was dropped.
   */
  lemma {:induction false} AppliedLogIsYoung(s: Tables, prune: U64, b: Block)
    requires ApplyBlock(s, Some(prune), b, true).Success? && forall i :: 0 <= i < |s.log| ==> s.log[i].key < s.nextWalSeq
    ensures var log := ApplyBlock(s, Some(prune), b, true).value.log;
            log != [] && b.slot >= prune ==> !Below(log[0].value, b.slot - prune)
    ensures var log := ApplyBlock(s, Some(prune), b, true).value.log;
            forall i :: 0 <= i < |s.log| && (b.slot < prune || !Below(s.log[i].value, b.slot - prune)) ==> s.log[i] in log
  {
    var all := AppliedLog(s, prune, b);
    hide ApplyBlock, Prune;
    PruneDropsOld(all, if b.slot >= prune then b.slot - prune else 0);
    forall i | 0 <= i < |s.log| && (b.slot < prune || !Below(s.log[i].value, b.slot - prune))
      ensures s.log[i] in ApplyBlock(s, Some(prune), b, true).value.log
    {
      assert all[i] == s.log[i];
      if b.slot >= prune {
        StaysAfterPruning(all, b.slot - prune, i);
      }
    }
  }

  lemma {:induction false} AppliedLog(s: Tables, prune: U64, b: Block) returns (all: seq<Entry<Log>>)
    requires ApplyBlock(s, Some(prune), b, true).Success? && forall i :: 0 <= i < |s.log| ==> s.log[i].key < s.nextWalSeq
    ensures |all| == |s.log| + 1 && all[..|s.log|] == s.log
    ensures ApplyBlock(s, Some(prune), b, true).value.log == if b.slot >= prune then Prune(all, b.slot - prune) else all
  {
    var l := Apply(b, WithoutFlags(Resolve(s.txos, b)));
    UpsertAtEnd(s.log, s.nextWalSeq, l);
    hide Resolve, Resolvable, ApplyTxs, Upsert, Prune, WithoutFlags;
    all := s.log + [Entry(s.nextWalSeq, l)];
  }

  lemma {:induction false} StaysAfterPruning(log: seq<Entry<Log>>, before: nat, i: nat)
    requires i < |log| && !Below(log[i].value, before)
    ensures log[i] in Prune(log, before)
  {
    PruneKeepsYoung(log, before, i);
    var kept := Prune(log, before);
    hide Prune;
    assert log[i] == kept[i - (|log| - |kept|)];
  }

  lemma {:induction false} ApplyAppends(s: Tables, genesis: Genesis, chain: seq<Block>, prune: Option<U64>, b: Block) returns (l: Log)
    requires Invariant(s, genesis, chain) && ValidChain(genesis, chain + [b])
    ensures l.Apply? && l.block == b && Play(chain, l) == Some(chain + [b]) && Supplied(genesis, l, chain + [b])
    ensures var r := ApplyBlock(s, prune, b, true);
            && r.Success? && r.value.nextWalSeq == s.nextWalSeq + 1
            && r.value.log == (if prune.Some? && b.slot >= prune.value
                               then Prune(Append(s, l).log, b.slot - prune.value) else Append(s, l).log)
  {
    ApplyKeepsInvariant(s, genesis, chain, prune, b, true);
    assert (chain + [b])[..|chain|] == chain;
    ResolveSupplies(s.txos, b);
    hide Invariant, ValidBlock, ApplyTxs, Resolve, Prune, Upsert, Supplies;
    l := Apply(b, WithoutFlags(Resolve(s.txos, b)));
  }

  lemma {:induction false} ApplyKeepsLog(s: Tables, genesis: Genesis, chain: seq<Block>, after: seq<seq<Block>>, prune: Option<U64>, b: Block)
    returns (after': seq<seq<Block>>)
    requires Invariant(s, genesis, chain) && LogInvariant(s.log, s.nextWalSeq, genesis, chain, after)
    requires ValidChain(genesis, chain + [b])
    ensures var r := ApplyBlock(s, prune, b, true);
            r.Success? && r.value.log != [] &&
            LogInvariant(r.value.log, r.value.nextWalSeq, genesis, chain + [b], after') &&
            Grows(s.log, s.nextWalSeq, r.value.log, r.value.nextWalSeq)
  {
    hide LogInvariant, Invariant, ValidChain, ApplyBlock, Play, Append, Prune, Grows, Supplied, Upsert;
    var l := ApplyAppends(s, genesis, chain, prune, b);
    AppendKeepsLog(s, genesis, chain, after, l, chain + [b]);
    var log := s.log + [Entry(s.nextWalSeq, l)];
    var before := if prune.Some? && b.slot >= prune.value then b.slot - prune.value else 0;
    PruneNothing(log);
    assert ApplyBlock(s, prune, b, true).value.log == Prune(log, before);
    assert log[|log| - 1].value == l && !Below(l, before);
    after' := PrunedKeepsLog(log, s.nextWalSeq + 1, genesis, chain + [b], after + [chain + [b]], before);
    PrunedGrows(s.log, s.nextWalSeq, l, before);
  }

  lemma {:induction false} PrunedKeepsLog(log: seq<Entry<Log>>, next: nat, genesis: Genesis, chain: seq<Block>, after: seq<seq<Block>>, before: nat)
    returns (after': seq<seq<Block>>)
    requires LogInvariant(log, next, genesis, chain, after)
    requires log != [] && !Below(log[|log| - 1].value, before)
    ensures Prune(log, before) != [] && LogInvariant(Prune(log, before), next, genesis, chain, after')
  {
    LogLength(log, next, genesis, chain, after);
    hide LogInvariant, Prune;
    PruneKeepsYoung(log, before, |log| - 1);
    var n := |log| - |Prune(log, before)|;
    SuffixKeepsLog(log, next, genesis, chain, after, n);
    after' := after[n..];
  }

  lemma PruneNothing(log: seq<Entry<Log>>)
    ensures Prune(log, 0) == log
  {
  }

  lemma {:induction false} PrunedGrows(log: seq<Entry<Log>>, next: nat, l: Log, before: nat)
    requires Prune(log + [Entry(next, l)], before) != []
    ensures Grows(log, next, Prune(log + [Entry(next, l)], before), next + 1)
  {
    var all := log + [Entry(next, l)];
    var pruned := Prune(all, before);
    hide Prune;
    var n := |all| - |pruned|;
    assert pruned == all[n..] == log[n..] + [Entry(next, l)];
    assert GrowsBy(log, next, pruned, next + 1, n);
  }

  lemma LogLength(log: seq<Entry<Log>>, next: nat, genesis: Genesis, chain: seq<Block>, after: seq<seq<Block>>)
    requires LogInvariant(log, next, genesis, chain, after)
    ensures |after| == |log|
  {
  }

  lemma HoldsValid(s: Tables, genesis: Genesis, chain: seq<Block>)
    requires Holds(s, genesis, chain)
    ensures ValidChain(genesis, chain) && s.blocks == BlockTable(chain)
  {
  }

  /** Undoing a suffix of the chain logs one popping entry per block. */
  lemma {:induction false} UndoKeepsLog(s: Tables, genesis: Genesis, chain: seq<Block>, after: seq<seq<Block>>, n: nat)
    returns (after': seq<seq<Block>>)
    requires Holds(s, genesis, chain) && n <= |chain|
    requires LogInvariant(s.log, s.nextWalSeq, genesis, chain, after)
    ensures var r := UndoBlocks(s, BlockTable(chain)[n..], true);
            r.Success? && LogInvariant(r.value.log, r.value.nextWalSeq, genesis, chain[..n], after') &&
            GrowsBy(s.log, s.nextWalSeq, r.value.log, r.value.nextWalSeq, 0)
    decreases |chain|
  {
    hide Holds, LogInvariant, UndoBlock, ValidChain, Append;
    var es := BlockTable(chain)[n..];
    if n == |chain| {
      assert chain[..n] == chain;
      after' := after;
    } else {
      var before, b := chain[..|chain| - 1], chain[|chain| - 1];
      UndoKeepsHolds(s, genesis, chain, true);
      HoldsValid(UndoBlock(s, b.slot, b, true).value, genesis, before);
      AppendKeepsLog(s, genesis, chain, after, Undone(b), before);
      assert es[..|es| - 1] == BlockTable(before)[n..];
      after' := UndoKeepsLog(UndoBlock(s, b.slot, b, true).value, genesis, before, after + [before], n);
      assert before[..n] == chain[..n];
    }
  }

  lemma RollbackKeepsLog(s: Tables, genesis: Genesis, chain: seq<Block>, after: seq<seq<Block>>, i: nat)
    returns (after': seq<seq<Block>>)
    requires Invariant(s, genesis, chain) && i < |chain|
    requires LogInvariant(s.log, s.nextWalSeq, genesis, chain, after)
    ensures var r := Rollback(s, chain[i].slot, chain[i].hash, true);
            r.Success? && r.value.log != [] &&
            LogInvariant(r.value.log, r.value.nextWalSeq, genesis, chain[..i + 1], after') &&
            Grows(s.log, s.nextWalSeq, r.value.log, r.value.nextWalSeq)
  {
    hide Rollback, UndoBlocks, ValidChain, Sorted, Holds, LogInvariant, Upsert;
    HoldsValid(s, genesis, chain);
    BlockTableSorted(genesis, chain);
    RollbackUnfolds(s, i, true);
    ValidPrefix(genesis, chain, i + 1);
    after' := UndoKeepsLog(s, genesis, chain, after, i + 1);
    var undone := UndoBlocks(s, s.blocks[i + 1..], true).value;
    AppendKeepsLog(undone, genesis, chain[..i + 1], after', Mark(chain[i]), chain[..i + 1]);
    after' := after' + [chain[..i + 1]];
    var r := Rollback(s, chain[i].slot, chain[i].hash, true).value;
    assert GrowsBy(s.log, s.nextWalSeq, r.log, r.nextWalSeq, 0);
  }

  lemma OriginKeepsLog(s: Tables, genesis: Genesis, chain: seq<Block>, after: seq<seq<Block>>)
    returns (after': seq<seq<Block>>)
    requires Invariant(s, genesis, chain)
    requires LogInvariant(s.log, s.nextWalSeq, genesis, chain, after)
    ensures var r := RollbackToOrigin(s, true);
            r.Success? && r.value.log != [] &&
            LogInvariant(r.value.log, r.value.nextWalSeq, genesis, [], after') &&
            Grows(s.log, s.nextWalSeq, r.value.log, r.value.nextWalSeq)
  {
    hide UndoBlocks;
    assert s.blocks[0..] == s.blocks && chain[..0] == [];
    after' := UndoKeepsLog(s, genesis, chain, after, 0);
    var undone := UndoBlocks(s, s.blocks, true).value;
    AppendKeepsLog(undone, genesis, [], after', ToOrigin, []);
    after' := after' + [[]];
    var r := RollbackToOrigin(s, true).value;
    assert GrowsBy(s.log, s.nextWalSeq, r.log, r.nextWalSeq, 0);
  }

  /** From the chain after any entry, playing the later entries gives the current chain. */
  lemma {:induction false} ReplayFromEntry(log: seq<Entry<Log>>, next: nat, genesis: Genesis, chain: seq<Block>,
                                           after: seq<seq<Block>>, i: nat)
    requires LogInvariant(log, next, genesis, chain, after) && i < |log|
    ensures PlayAll(after[i], log[i + 1..]) == Some(chain)
    decreases |log| - i
  {
    hide ValidChain, Names, Play;
    if i + 1 < |log| {
      assert Play(after[i], log[i + 1].value) == Some(after[i + 1]);
      ReplayFromEntry(log, next, genesis, chain, after, i + 1);
      assert log[i + 1..][1..] == log[i + 2..];
    }
  }

  // ---- Finding a point ----

  predicate IsPoint(l: Log, slot: nat, hash: Bytes) {
    (l.Apply? || l.Mark?) && l.block.slot == slot && l.block.hash == hash
  }

  function FindWalSeq(log: seq<Entry<Log>>, slot: nat, hash: Bytes): Option<nat> {
    if log == [] then None
    else if IsPoint(log[0].value, slot, hash) then Some(log[0].key)
    else if LogSlot(log[0].value) >= slot then None
    else FindWalSeq(log[1..], slot, hash)
  }

  /** The scan of the log from its start, giving up at the first entry at or beyond the slot. */
  method SearchLog(log: seq<Entry<Log>>, slot: nat, hash: Bytes) returns (found: Option<nat>)
    ensures found == FindWalSeq(log, slot, hash)
  {
    for i := 0 to |log|
      invariant FindWalSeq(log[i..], slot, hash) == FindWalSeq(log, slot, hash)
    {
      if IsPoint(log[i].value, slot, hash) {
        return Some(log[i].key);
      }
      if LogSlot(log[i].value) >= slot {
        return None;
      }
    }
    found := None;
  }

  ghost predicate FoundAt(log: seq<Entry<Log>>, i: nat, slot: nat, hash: Bytes) {
    && i < |log| && IsPoint(log[i].value, slot, hash)
    && forall j :: 0 <= j < i ==> Below(log[j].value, slot)
  }

  lemma {:induction false} FoundIsThere(log: seq<Entry<Log>>, slot: nat, hash: Bytes) returns (i: nat)
    requires FindWalSeq(log, slot, hash).Some?
    ensures FoundAt(log, i, slot, hash) && FindWalSeq(log, slot, hash) == Some(log[i].key)
  {
    i := 0;
    if !IsPoint(log[0].value, slot, hash) {
      var j := FoundIsThere(log[1..], slot, hash);
      i := j + 1;
      forall k | 0 <= k < i ensures Below(log[k].value, slot) {
        assert k > 0 ==> Below(log[1..][k - 1].value, slot);
      }
    }
  }

  lemma {:induction false} ThereIsFound(log: seq<Entry<Log>>, i: nat, slot: nat, hash: Bytes)
    requires FoundAt(log, i, slot, hash)
    ensures FindWalSeq(log, slot, hash) == Some(log[i].key)
  {
    if i > 0 {
      assert Below(log[0].value, slot);
      ThereIsFound(log[1..], i - 1, slot, hash);
    }
  }

  /** A point is found iff it is logged with only lower slots before it. */
  lemma FoundIff(log: seq<Entry<Log>>, slot: nat, hash: Bytes)
    ensures FindWalSeq(log, slot, hash).Some? <==> exists i: nat :: FoundAt(log, i, slot, hash)
  {
    if FindWalSeq(log, slot, hash).Some? {
      var i := FoundIsThere(log, slot, hash);
    }
    if i: nat :| FoundAt(log, i, slot, hash) {
      ThereIsFound(log, i, slot, hash);
    }
  }

  /** While slots only rise in the log, every applied or marked point is found. */
  lemma RisingLogIsComplete(log: seq<Entry<Log>>, i: nat)
    requires forall j, k :: 0 <= j < k < |log| ==> LogSlot(log[j].value) < LogSlot(log[k].value)
    requires i < |log| && (log[i].value.Apply? || log[i].value.Mark?)
    ensures FindWalSeq(log, log[i].value.block.slot, log[i].value.block.hash) == Some(log[i].key)
  {
    ThereIsFound(log, i, log[i].value.block.slot, log[i].value.block.hash);
  }

  // ---- Replay from a found point ----

  /** Hashes in the log stand for the blocks they name. */
  ghost predicate LogIdentified(book: map<Bytes, Block>, log: seq<Entry<Log>>) {
    forall i :: 0 <= i < |log| && !log[i].value.ToOrigin? ==>
      Get(book, log[i].value.block.hash) == Some(log[i].value.block)
  }

  /** The chain after each entry is made of blocks of the current chain and of the log. */
  lemma {:induction false} AfterIdentified(log: seq<Entry<Log>>, next: nat, genesis: Genesis, chain: seq<Block>,
                                           after: seq<seq<Block>>, book: map<Bytes, Block>, i: nat)
    requires LogInvariant(log, next, genesis, chain, after) && i < |log|
    requires Identified(book, chain) && LogIdentified(book, log)
    ensures Identified(book, after[i])
    decreases |log| - i
  {
    hide ValidChain, Names;
    if i + 1 < |log| {
      AfterIdentified(log, next, genesis, chain, after, book, i + 1);
      assert Play(after[i], log[i + 1].value) == Some(after[i + 1]);
      PlayIdentified(book, after[i], log[i + 1].value);
    }
  }

  lemma PlayIdentified(book: map<Bytes, Block>, chain: seq<Block>, l: Log)
    requires Play(chain, l).Some? && Identified(book, Play(chain, l).value)
    requires !l.ToOrigin? ==> Get(book, l.block.hash) == Some(l.block)
    ensures Identified(book, chain)
  {
    var played := Play(chain, l).value;
    forall i | 0 <= i < |chain| ensures Get(book, chain[i].hash) == Some(chain[i]) {
      if i < |played| {
        assert chain[i] == played[i];
      }
    }
  }

  /**
   * Log replay: for a point the search finds, even one on an abandoned fork, the chain ending at
   * that point plus the entries after it is the current chain.
   */
  lemma ReplayFromFound(log: seq<Entry<Log>>, next: nat, genesis: Genesis, chain: seq<Block>,
                        after: seq<seq<Block>>, slot: nat, hash: Bytes,
                        book: map<Bytes, Block>, client: seq<Block>)
    requires LogInvariant(log, next, genesis, chain, after)
    requires FindWalSeq(log, slot, hash).Some?
    requires ValidChain(genesis, client) && Tip(client) == Some(hash)
    requires Identified(book, client) && Identified(book, chain) && LogIdentified(book, log)
    ensures var later := From(log, FindWalSeq(log, slot, hash).value);
            later != [] && PlayAll(client, later[1..]) == Some(chain)
  {
    var i := FoundIsThere(log, slot, hash);
    AfterIdentified(log, next, genesis, chain, after, book, i);
    assert Names(log[i].value, after[i]);
    assert Sorted(log);
    ReplayFromEntry(log, next, genesis, chain, after, i);
    hide LogInvariant, Sorted, PlayAll, FindWalSeq, FoundAt;
    SameTipSameChain(genesis, book, client, after[i]);
    FromAt(log, i);
    assert log[i..][1..] == log[i + 1..];
  }
}
