/** Blocks, their transactions, and how the transaction output table moves forwards and backwards. */
module Ledger {
  import opened Wrappers
  import opened Bytes

  datatype TxoRef = TxoRef(tx: Bytes, index: U64)
  datatype TxoBody = TxoBody(slot: U64, era: nat, raw: Bytes)
  datatype Output = Output(index: U64, raw: Bytes)

  /** `needs` is everything a transaction refers to; `consumes` is what it spends. */
  datatype Tx = Tx(hash: Bytes, era: nat, produces: seq<Output>, consumes: seq<TxoRef>, needs: seq<TxoRef>)

  datatype Block = Block(slot: U64, hash: Bytes, height: U64, previous: Option<Bytes>, txs: seq<Tx>)

  type Txos = map<TxoRef, TxoBody>

  /** A resolved reference, and whether it was produced in the same block. */
  datatype Resolved = Resolved(body: TxoBody, inBlock: bool)

  type Resolver = map<TxoRef, Resolved>

  // ---- What transactions make, spend and need ----

  function Refs(refs: seq<TxoRef>): set<TxoRef> {
    set r | r in refs
  }

  function Made(tx: Tx, outputs: seq<Output>, slot: U64): Txos {
    if outputs == [] then map[]
    else
      var last := outputs[|outputs| - 1];
      Made(tx, outputs[..|outputs| - 1], slot)[TxoRef(tx.hash, last.index) := TxoBody(slot, tx.era, last.raw)]
  }

  function MadeIn(txs: seq<Tx>, slot: U64): Txos {
    if txs == [] then map[]
    else
      var tx := txs[|txs| - 1];
      MadeIn(txs[..|txs| - 1], slot) + Made(tx, tx.produces, slot)
  }

  function SpentIn(txs: seq<Tx>): set<TxoRef> {
    if txs == [] then {} else SpentIn(txs[..|txs| - 1]) + Refs(txs[|txs| - 1].consumes)
  }

  function NeededIn(txs: seq<Tx>): set<TxoRef> {
    if txs == [] then {} else NeededIn(txs[..|txs| - 1]) + Refs(txs[|txs| - 1].needs)
  }

  // ---- Forwards ----

  function ApplyTx(txos: Txos, tx: Tx, slot: U64): Txos {
    txos + Made(tx, tx.produces, slot) - Refs(tx.consumes)
  }

  function ApplyTxs(txos: Txos, txs: seq<Tx>, slot: U64): Txos {
    if txs == [] then txos
    else ApplyTx(ApplyTxs(txos, txs[..|txs| - 1], slot), txs[|txs| - 1], slot)
  }

  method StageTxs(table: Txos, txs: seq<Tx>, slot: U64) returns (txos: Txos)
    ensures txos == ApplyTxs(table, txs, slot)
  {
    txos := table;
    for i := 0 to |txs|
      invariant txos == ApplyTxs(table, txs[..i], slot)
    {
      var made := StageProduced(txos, txs[i], slot);
      txos := StageConsumed(made, txs[i].consumes);
      assert txs[..i + 1][..i] == txs[..i];
    }
    assert txs[..|txs|] == txs;
  }

  method StageProduced(table: Txos, tx: Tx, slot: U64) returns (txos: Txos)
    ensures txos == table + Made(tx, tx.produces, slot)
  {
    txos := table;
    for j := 0 to |tx.produces|
      invariant txos == table + Made(tx, tx.produces[..j], slot)
    {
      assert tx.produces[..j + 1][..j] == tx.produces[..j];
      txos := txos[TxoRef(tx.hash, tx.produces[j].index) := TxoBody(slot, tx.era, tx.produces[j].raw)];
    }
    assert tx.produces[..|tx.produces|] == tx.produces;
  }

  method StageConsumed(table: Txos, refs: seq<TxoRef>) returns (txos: Txos)
    ensures txos == table - Refs(refs)
  {
    txos := table;
    for j := 0 to |refs|
      invariant txos == table - Refs(refs[..j])
    {
      assert Refs(refs[..j + 1]) == Refs(refs[..j]) + {refs[j]};
      txos := txos - {refs[j]};
    }
    assert refs[..|refs|] == refs;
  }

  predicate Resolvable(txos: Txos, b: Block) {
    NeededIn(b.txs) <= txos.Keys + MadeIn(b.txs, b.slot).Keys
  }

  function Resolve(txos: Txos, b: Block): Resolver
    requires Resolvable(txos, b)
  {
    var made := MadeIn(b.txs, b.slot);
    map r | r in NeededIn(b.txs) :: if r in txos then Resolved(txos[r], false) else Resolved(made[r], true)
  }

  // ---- What resolving means, in terms of the block's transactions ----

  predicate Needs(b: Block, ref: TxoRef) {
    exists t :: 0 <= t < |b.txs| && ref in b.txs[t].needs
  }

  predicate Makes(tx: Tx, slot: U64, ref: TxoRef, body: TxoBody) {
    exists o :: 0 <= o < |tx.produces| && ref == TxoRef(tx.hash, tx.produces[o].index) && body == TxoBody(slot, tx.era, tx.produces[o].raw)
  }

  predicate MakesIn(b: Block, ref: TxoRef, body: TxoBody) {
    exists t :: 0 <= t < |b.txs| && Makes(b.txs[t], b.slot, ref, body)
  }

  /**
   * Exactly what some transaction needs, reference inputs included: unspent outputs as they are, the others
   * as a transaction of the block makes them.
   */
  ghost predicate Supplies(txos: Txos, b: Block, bodies: Txos) {
    && (forall ref :: ref in bodies <==> Needs(b, ref))
    && (forall ref :: ref in bodies ==> if ref in txos then bodies[ref] == txos[ref] else MakesIn(b, ref, bodies[ref]))
  }

  lemma {:induction false} NeededIff(txs: seq<Tx>, ref: TxoRef)
    ensures ref in NeededIn(txs) <==> exists t :: 0 <= t < |txs| && ref in txs[t].needs
  {
    if txs != [] {
      var before := txs[..|txs| - 1];
      NeededIff(before, ref);
      assert forall t :: 0 <= t < |before| ==> before[t] == txs[t];
      if t :| 0 <= t < |txs| && ref in txs[t].needs {
        assert t < |before| ==> ref in before[t].needs;
      }
    }
  }

  lemma {:induction false} MadeFrom(tx: Tx, outputs: seq<Output>, slot: U64, ref: TxoRef) returns (o: nat)
    requires ref in Made(tx, outputs, slot)
    ensures o < |outputs| && ref == TxoRef(tx.hash, outputs[o].index)
    ensures Made(tx, outputs, slot)[ref] == TxoBody(slot, tx.era, outputs[o].raw)
  {
    o := |outputs| - 1;
    if ref != TxoRef(tx.hash, outputs[o].index) {
      o := MadeFrom(tx, outputs[..o], slot, ref);
    }
  }

  lemma {:induction false} MadeInFrom(txs: seq<Tx>, slot: U64, ref: TxoRef) returns (t: nat)
    requires ref in MadeIn(txs, slot)
    ensures t < |txs| && Makes(txs[t], slot, ref, MadeIn(txs, slot)[ref])
  {
    t := |txs| - 1;
    if ref in Made(txs[t], txs[t].produces, slot) {
      var o := MadeFrom(txs[t], txs[t].produces, slot, ref);
    } else {
      t := MadeInFrom(txs[..t], slot, ref);
    }
  }

  /** The resolver supplies the block, and its flag says which outputs were not in the table. */
  lemma ResolveSupplies(txos: Txos, b: Block)
    requires Resolvable(txos, b)
    ensures Supplies(txos, b, map r | r in Resolve(txos, b) :: Resolve(txos, b)[r].body)
    ensures forall r :: r in Resolve(txos, b) ==> (Resolve(txos, b)[r].inBlock <==> r !in txos)
  {
    var res := Resolve(txos, b);
    forall ref ensures ref in res <==> Needs(b, ref) {
      NeededIff(b.txs, ref);
    }
    forall ref | ref in res && ref !in txos ensures MakesIn(b, ref, res[ref].body) {
      var t := MadeInFrom(b.txs, b.slot, ref);
    }
  }

  function Only(txos: Txos, refs: set<TxoRef>): Txos {
    map r | r in txos && r in refs :: txos[r]
  }

  /** All needed references from the table, or else from the block itself; none if one is nowhere. */
  method ResolveBlockTxInputs(txos: Txos, b: Block) returns (out: Option<Resolver>)
    ensures out == if Resolvable(txos, b) then Some(Resolve(txos, b)) else None
  {
    var inputs: set<TxoRef> := {};
    for i := 0 to |b.txs|
      invariant inputs == NeededIn(b.txs[..i])
    {
      assert b.txs[..i + 1][..i] == b.txs[..i];
      inputs := inputs + Refs(b.txs[i].needs);
    }
    assert b.txs[..|b.txs|] == b.txs;
    var inBlock := ProducedAndNeeded(b, inputs);
    out := LookUp(txos, inputs, inBlock, MadeIn(b.txs, b.slot));
  }

  method LookUp(txos: Txos, inputs: set<TxoRef>, produced: Txos, ghost made: Txos) returns (out: Option<Resolver>)
    requires produced == Only(made, inputs)
    ensures out.Some? <==> inputs <= txos.Keys + made.Keys
    ensures out.Some? ==>
              out.value == (map r | r in inputs :: if r in txos then Resolved(txos[r], false) else Resolved(made[r], true))
  {
    var inBlock := produced;
    var resolver: Resolver := map[];
    var left := inputs;
    while left != {}
      invariant left <= inputs
      invariant forall r :: r in left ==> Get(inBlock, r) == Get(made, r)
      invariant resolver.Keys == inputs - left
      invariant forall r :: r in resolver ==> r in txos || r in made
      invariant forall r :: r in resolver ==>
        resolver[r] == if r in txos then Resolved(txos[r], false) else Resolved(made[r], true)
    {
      var r :| r in left;
      if r in txos {
        resolver := resolver[r := Resolved(txos[r], false)];
      } else if r in inBlock {
        resolver := resolver[r := Resolved(inBlock[r], true)];
        inBlock := inBlock - {r};
      } else {
        assert r in inputs && Get(inBlock, r) == Get(made, r);
        return None;
      }
      left := left - {r};
    }
    assert inputs == resolver.Keys;
    out := Some(resolver);
  }

  method ProducedAndNeeded(b: Block, inputs: set<TxoRef>) returns (inBlock: Txos)
    ensures inBlock == Only(MadeIn(b.txs, b.slot), inputs)
  {
    inBlock := map[];
    for i := 0 to |b.txs|
      invariant inBlock == Only(MadeIn(b.txs[..i], b.slot), inputs)
    {
      assert b.txs[..i + 1][..i] == b.txs[..i];
      inBlock := ProducedByTx(inBlock, b.txs[i], b.slot, inputs, MadeIn(b.txs[..i], b.slot));
    }
    assert b.txs[..|b.txs|] == b.txs;
  }

  method ProducedByTx(table: Txos, tx: Tx, slot: U64, inputs: set<TxoRef>, ghost before: Txos) returns (inBlock: Txos)
    requires table == Only(before, inputs)
    ensures inBlock == Only(before + Made(tx, tx.produces, slot), inputs)
  {
    inBlock := table;
    assert before + Made(tx, [], slot) == before;
    for j := 0 to |tx.produces|
      invariant inBlock == Only(before + Made(tx, tx.produces[..j], slot), inputs)
    {
      assert tx.produces[..j + 1][..j] == tx.produces[..j];
      var ref, body := TxoRef(tx.hash, tx.produces[j].index), TxoBody(slot, tx.era, tx.produces[j].raw);
      ghost var made := before + Made(tx, tx.produces[..j], slot);
      assert before + Made(tx, tx.produces[..j + 1], slot) == made[ref := body];
      OnlyUpdate(made, inputs, ref, body);
      if ref in inputs {
        inBlock := inBlock[ref := body];
      }
    }
    assert tx.produces[..|tx.produces|] == tx.produces;
  }

  lemma OnlyUpdate(txos: Txos, refs: set<TxoRef>, r: TxoRef, body: TxoBody)
    ensures Only(txos[r := body], refs) == if r in refs then Only(txos, refs)[r := body] else Only(txos, refs)
  {
  }

  // ---- Backwards ----

  datatype Undo = Undo(txos: Txos, resolver: Resolver)

  predicate NoRepeats(refs: seq<TxoRef>) {
    refs != [] ==> refs[|refs| - 1] !in refs[..|refs| - 1] && NoRepeats(refs[..|refs| - 1])
  }

  /** Undoing takes each spent output out of the resolver, so a repeated or unknown one is an error. */
  predicate Undoable(resolver: Resolver, tx: Tx) {
    NoRepeats(tx.consumes) && Refs(tx.consumes) <= resolver.Keys
  }

  function Bodies(resolver: Resolver, refs: set<TxoRef>): Txos
    requires refs <= resolver.Keys
  {
    map r | r in refs :: resolver[r].body
  }

  function UndoTx(u: Undo, tx: Tx): Undo
    requires Undoable(u.resolver, tx)
  {
    Undo(
      u.txos + Bodies(u.resolver, Refs(tx.consumes)) - Made(tx, tx.produces, 0).Keys,
      u.resolver - Refs(tx.consumes))
  }

  function UndoTxs(u: Undo, txs: seq<Tx>): Option<Undo>
    decreases |txs|
  {
    if txs == [] then Some(u)
    else if Undoable(u.resolver, txs[|txs| - 1]) then UndoTxs(UndoTx(u, txs[|txs| - 1]), txs[..|txs| - 1])
    else None
  }

  lemma {:induction false} MadeKeys(tx: Tx, outputs: seq<Output>, slot: U64)
    ensures Made(tx, outputs, slot).Keys == set i | 0 <= i < |outputs| :: TxoRef(tx.hash, outputs[i].index)
  {
    if outputs != [] {
      MadeKeys(tx, outputs[..|outputs| - 1], slot);
    }
  }

  method UnstageTx(txos: Txos, resolver: Resolver, tx: Tx) returns (u: Option<Undo>)
    ensures u == if Undoable(resolver, tx) then Some(UndoTx(Undo(txos, resolver), tx)) else None
  {
    u := Reinsert(txos, resolver, tx.consumes);
    if u.Some? {
      var table := DeleteProduced(u.value.txos, tx);
      u := Some(Undo(table, u.value.resolver));
    }
  }

  method DeleteProduced(table: Txos, tx: Tx) returns (txos: Txos)
    ensures txos == table - Made(tx, tx.produces, 0).Keys
  {
    txos := table;
    for i := 0 to |tx.produces|
      invariant txos == table - Made(tx, tx.produces[..i], 0).Keys
    {
      assert tx.produces[..i + 1][..i] == tx.produces[..i];
      txos := txos - {TxoRef(tx.hash, tx.produces[i].index)};
    }
    assert tx.produces[..|tx.produces|] == tx.produces;
  }

  lemma OneMore(resolver: Resolver, refs: seq<TxoRef>, i: nat)
    requires i < |refs| && Refs(refs[..i]) <= resolver.Keys
    ensures Refs(refs[..i + 1]) == Refs(refs[..i]) + {refs[i]}
    ensures NoRepeats(refs[..i + 1]) <==> NoRepeats(refs[..i]) && refs[i] !in Refs(refs[..i])
    ensures refs[i] in resolver ==>
              Bodies(resolver, Refs(refs[..i + 1])) == Bodies(resolver, Refs(refs[..i]))[refs[i] := resolver[refs[i]].body]
  {
    assert refs[..i + 1] == refs[..i] + [refs[i]];
    assert refs[..i + 1][..i] == refs[..i];
    assert Refs(refs[..i + 1]) == Refs(refs[..i]) + {refs[i]};
  }

  lemma {:induction false} CannotReinsert(resolver: Resolver, refs: seq<TxoRef>, i: nat)
    requires i < |refs| && refs[i] !in resolver.Keys - Refs(refs[..i])
    ensures !(NoRepeats(refs) && Refs(refs) <= resolver.Keys)
    decreases |refs|
  {
    var n := |refs| - 1;
    if i < n {
      assert refs[..n][..i] == refs[..i];
      CannotReinsert(resolver, refs[..n], i);
      assert Refs(refs[..n]) <= Refs(refs);
    } else {
      assert refs[i] in Refs(refs);
    }
  }

  method Reinsert(txos: Txos, resolver: Resolver, refs: seq<TxoRef>) returns (u: Option<Undo>)
    ensures u.Some? <==> NoRepeats(refs) && Refs(refs) <= resolver.Keys
    ensures u.Some? ==> u.value == Undo(txos + Bodies(resolver, Refs(refs)), resolver - Refs(refs))
  {
    assert Refs(refs[..0]) == {} && NoRepeats(refs[..0]);
    assert txos == txos + Bodies(resolver, {}) && resolver == resolver - {};
    hide Refs, NoRepeats, Bodies;
    var table, left := txos, resolver;
    for i := 0 to |refs|
      invariant NoRepeats(refs[..i]) && Refs(refs[..i]) <= resolver.Keys
      invariant table == txos + Bodies(resolver, Refs(refs[..i]))
      invariant left == resolver - Refs(refs[..i])
    {
      OneMore(resolver, refs, i);
      if refs[i] !in left {
        CannotReinsert(resolver, refs, i);
        return None;
      }
      assert left[refs[i]] == resolver[refs[i]];
      table, left := table[refs[i] := left[refs[i]].body], left - {refs[i]};
    }
    assert refs[..|refs|] == refs;
    u := Some(Undo(table, left));
  }

  /** The transactions of a block, last one first. */
  method UnstageTxs(txos: Txos, resolver: Resolver, txs: seq<Tx>) returns (r: Option<Undo>)
    ensures r == UndoTxs(Undo(txos, resolver), txs)
  {
    var u := Undo(txos, resolver);
    assert txs[..|txs|] == txs;
    for i := |txs| downto 0
      invariant UndoTxs(u, txs[..i]) == UndoTxs(Undo(txos, resolver), txs)
    {
      assert txs[..i + 1][..i] == txs[..i];
      var next := UnstageTx(u.txos, u.resolver, txs[i]);
      if next.None? {
        return None;
      }
      u := next.value;
    }
    r := Some(u);
  }

  // ---- Ledger validity, and that going back undoes going forward ----

  predicate DistinctIndices(outputs: seq<Output>) {
    forall i, j :: 0 <= i < j < |outputs| ==> outputs[i].index != outputs[j].index
  }

  /** Outputs are new, inputs are unspent and not repeated, and everything spent is also needed. */
  predicate ValidTxs(txos: Txos, txs: seq<Tx>, slot: U64) {
    txs != [] ==>
      var before, tx := txs[..|txs| - 1], txs[|txs| - 1];
      && ValidTxs(txos, before, slot)
      && Made(tx, tx.produces, slot).Keys !! (txos.Keys + MadeIn(before, slot).Keys)
      && DistinctIndices(tx.produces)
      && NoRepeats(tx.consumes)
      && Refs(tx.consumes) <= ApplyTxs(txos, before, slot).Keys
      && Refs(tx.consumes) <= Refs(tx.needs)
  }

  predicate ValidBlock(txos: Txos, b: Block) {
    ValidTxs(txos, b.txs, b.slot) && Resolvable(txos, b)
  }

  function Known(txos: Txos, txs: seq<Tx>, slot: U64): Txos {
    MadeIn(txs, slot) + txos
  }

  /** Whatever is unspent at some point of a block still has the body it was made with. */
  lemma {:induction false} BodiesAreKnown(txos: Txos, txs: seq<Tx>, slot: U64)
    requires ValidTxs(txos, txs, slot)
    ensures SpentIn(txs) <= Known(txos, txs, slot).Keys
    ensures forall r :: r in ApplyTxs(txos, txs, slot) ==>
              r in Known(txos, txs, slot) && ApplyTxs(txos, txs, slot)[r] == Known(txos, txs, slot)[r]
    ensures SpentIn(txs) !! ApplyTxs(txos, txs, slot).Keys
  {
    if txs != [] {
      BodiesAreKnown(txos, txs[..|txs| - 1], slot);
    }
  }

  ghost predicate ResolvesSpent(res: Resolver, txos: Txos, txs: seq<Tx>, slot: U64) {
    forall r :: r in SpentIn(txs) ==> r in res && r in Known(txos, txs, slot) && res[r].body == Known(txos, txs, slot)[r]
  }

  lemma UndoOneTx(before: Txos, tx: Tx, slot: U64, res: Resolver)
    requires Refs(tx.consumes) <= res.Keys && Refs(tx.consumes) <= before.Keys
    requires forall r :: r in Refs(tx.consumes) ==> res[r].body == before[r]
    requires Made(tx, tx.produces, slot).Keys !! before.Keys
    ensures ApplyTx(before, tx, slot) + Bodies(res, Refs(tx.consumes)) - Made(tx, tx.produces, 0).Keys == before
  {
    MadeKeys(tx, tx.produces, slot);
    MadeKeys(tx, tx.produces, 0);
    var made, spent := Made(tx, tx.produces, slot), Refs(tx.consumes);
    assert (before + made - spent + Bodies(res, spent) - made.Keys).Keys == before.Keys;
  }

  lemma KnownGrows(txos: Txos, txs: seq<Tx>, slot: U64, r: TxoRef)
    requires txs != [] && ValidTxs(txos, txs, slot) && r in Known(txos, txs[..|txs| - 1], slot)
    ensures r in Known(txos, txs, slot) && Known(txos, txs, slot)[r] == Known(txos, txs[..|txs| - 1], slot)[r]
  {
  }

  lemma StillResolves(txos: Txos, txs: seq<Tx>, slot: U64, res: Resolver)
    requires txs != [] && ValidTxs(txos, txs, slot) && ResolvesSpent(res, txos, txs, slot)
    ensures ResolvesSpent(res - Refs(txs[|txs| - 1].consumes), txos, txs[..|txs| - 1], slot)
  {
    var before, tx := txs[..|txs| - 1], txs[|txs| - 1];
    BodiesAreKnown(txos, before, slot);
    hide Known;
    forall r | r in SpentIn(before)
      ensures r in res && r !in Refs(tx.consumes) && res[r].body == Known(txos, before, slot)[r]
    {
      KnownGrows(txos, txs, slot, r);
    }
  }

  lemma UndoLast(txos: Txos, txs: seq<Tx>, slot: U64, res: Resolver)
    requires txs != [] && ValidTxs(txos, txs, slot) && ResolvesSpent(res, txos, txs, slot)
    ensures Undoable(res, txs[|txs| - 1])
    ensures UndoTx(Undo(ApplyTxs(txos, txs, slot), res), txs[|txs| - 1]).txos == ApplyTxs(txos, txs[..|txs| - 1], slot)
  {
    var before, tx := txs[..|txs| - 1], txs[|txs| - 1];
    BodiesAreKnown(txos, before, slot);
    hide Made, Bodies, Known;
    var table := ApplyTxs(txos, before, slot);
    forall r | r in Refs(tx.consumes) ensures r in res && r in table && res[r].body == table[r] {
      assert r in SpentIn(txs);
      KnownGrows(txos, txs, slot, r);
    }
    UndoOneTx(table, tx, slot, res);
  }

  /** Undoing a valid block with the resolver built when it was applied restores the table. */
  lemma {:induction false} UndoTxsRestores(txos: Txos, txs: seq<Tx>, slot: U64, res: Resolver)
    requires ValidTxs(txos, txs, slot) && ResolvesSpent(res, txos, txs, slot)
    ensures var u := UndoTxs(Undo(ApplyTxs(txos, txs, slot), res), txs);
            u.Some? && u.value.txos == txos
    decreases |txs|
  {
    if txs != [] {
      UndoLast(txos, txs, slot, res);
      StillResolves(txos, txs, slot, res);
      UndoTxsRestores(txos, txs[..|txs| - 1], slot, res - Refs(txs[|txs| - 1].consumes));
    }
  }

  lemma {:induction false} SpentIsNeeded(txos: Txos, txs: seq<Tx>, slot: U64)
    requires ValidTxs(txos, txs, slot)
    ensures SpentIn(txs) <= NeededIn(txs)
  {
    if txs != [] {
      SpentIsNeeded(txos, txs[..|txs| - 1], slot);
    }
  }

  lemma UndoBlockRestores(txos: Txos, b: Block)
    requires ValidBlock(txos, b)
    ensures var u := UndoTxs(Undo(ApplyTxs(txos, b.txs, b.slot), Resolve(txos, b)), b.txs);
            u.Some? && u.value.txos == txos
  {
    SpentIsNeeded(txos, b.txs, b.slot);
    BodiesAreKnown(txos, b.txs, b.slot);
    UndoTxsRestores(txos, b.txs, b.slot, Resolve(txos, b));
  }
}
