/** The UTxO-by-address reducer and the index it builds. */
module UtxoIndex {
  import opened Wrappers
  import opened Bytes
  import opened Ledger
  import opened ChainRuns

  /** What is read from an output's bytes. */
  datatype Codec = Codec(address: Bytes -> Bytes, coin: Bytes -> U64)

  /** Index keys carry the address, the slot of creation and the reference. */
  datatype UtxoKey = UtxoKey(address: Bytes, slot: U64, ref: TxoRef)

  datatype UtxoOutput = Consumed(key: UtxoKey) | Produced(key: UtxoKey, raw: Bytes)

  type Index = map<UtxoKey, Bytes>

  datatype Config = Config(codec: Codec, filter: Option<set<Bytes>>)

  predicate Wanted(c: Config, address: Bytes) {
    c.filter.Some? ==> address in c.filter.value
  }

  function KeyOf(c: Config, ref: TxoRef, body: TxoBody): UtxoKey {
    UtxoKey(c.codec.address(body.raw), body.slot, ref)
  }

  // ---- The reducer ----

  /** References in `skip` are passed over, and so are repetitions and outputs the context lacks. */
  function ConsumedOutputs(c: Config, ctx: Txos, skip: set<TxoRef>, refs: seq<TxoRef>): seq<UtxoOutput> {
    if refs == [] then []
    else
      var before, r := refs[..|refs| - 1], refs[|refs| - 1];
      ConsumedOutputs(c, ctx, skip, before) +
      (if r in skip || r in before || r !in ctx || !Wanted(c, c.codec.address(ctx[r].raw)) then []
       else [Consumed(KeyOf(c, r, ctx[r]))])
  }

  function ProducedOutputs(c: Config, tx: Tx, outputs: seq<Output>, slot: U64, skip: set<TxoRef>): seq<UtxoOutput> {
    if outputs == [] then []
    else
      var last := outputs[|outputs| - 1];
      var ref := TxoRef(tx.hash, last.index);
      ProducedOutputs(c, tx, outputs[..|outputs| - 1], slot, skip) +
      (if ref in skip || !Wanted(c, c.codec.address(last.raw)) then []
       else [Produced(UtxoKey(c.codec.address(last.raw), slot, ref), last.raw)])
  }

  function TxsOutputs(c: Config, ctx: Txos, skip: set<TxoRef>, txs: seq<Tx>, slot: U64): seq<UtxoOutput> {
    if txs == [] then []
    else
      var tx := txs[|txs| - 1];
      TxsOutputs(c, ctx, skip, txs[..|txs| - 1], slot)
      + ConsumedOutputs(c, ctx, skip, tx.consumes)
      + ProducedOutputs(c, tx, tx.produces, slot, skip)
  }

  /** Outputs produced and consumed in the same block. */
  function Chained(b: Block): set<TxoRef> {
    SpentIn(b.txs) * MadeIn(b.txs, b.slot).Keys
  }

  /** A chained output is made by one transaction of the block and spent by one of the block. */
  lemma ChainedIff(b: Block, ref: TxoRef)
    ensures ref in Chained(b) <==>
            && (exists t :: 0 <= t < |b.txs| && ref in b.txs[t].consumes)
            && (exists t, o :: 0 <= t < |b.txs| && 0 <= o < |b.txs[t].produces| && ref == TxoRef(b.txs[t].hash, b.txs[t].produces[o].index))
  {
    SpentIff(b.txs, ref);
    MadeIff(b.txs, b.slot, ref);
  }

  lemma {:induction false} SpentIff(txs: seq<Tx>, ref: TxoRef)
    ensures ref in SpentIn(txs) <==> exists t :: 0 <= t < |txs| && ref in txs[t].consumes
  {
    if txs != [] {
      var before := txs[..|txs| - 1];
      SpentIff(before, ref);
      assert forall t :: 0 <= t < |before| ==> before[t] == txs[t];
      if t :| 0 <= t < |txs| && ref in txs[t].consumes {
        assert t < |before| ==> ref in before[t].consumes;
      }
    }
  }

  lemma {:induction false} MadeIff(txs: seq<Tx>, slot: U64, ref: TxoRef)
    ensures ref in MadeIn(txs, slot) <==>
            exists t, o :: 0 <= t < |txs| && 0 <= o < |txs[t].produces| && ref == TxoRef(txs[t].hash, txs[t].produces[o].index)
  {
    if txs != [] {
      var n := |txs| - 1;
      MadeIff(txs[..n], slot, ref);
      MadeKeys(txs[n], txs[n].produces, slot);
      if t, o :| 0 <= t < |txs| && 0 <= o < |txs[t].produces| && ref == TxoRef(txs[t].hash, txs[t].produces[o].index) {
        assert t < n ==> txs[..n][t] == txs[t];
      }
      if t, o :| 0 <= t < n && 0 <= o < |txs[..n][t].produces| && ref == TxoRef(txs[..n][t].hash, txs[..n][t].produces[o].index) {
        assert txs[..n][t] == txs[t];
      }
    }
  }

  method ReduceBlock(c: Config, ctx: Txos, b: Block) returns (outputs: seq<UtxoOutput>)
    ensures outputs == TxsOutputs(c, ctx, Chained(b), b.txs, b.slot)
  {
    var chained := ChainedRefs(b);
    outputs := [];
    for i := 0 to |b.txs|
      invariant outputs == TxsOutputs(c, ctx, Chained(b), b.txs[..i], b.slot)
    {
      assert b.txs[..i + 1][..i] == b.txs[..i];
      outputs := ReduceTx(c, ctx, chained, b.txs[i], b.slot, outputs);
    }
    assert b.txs[..|b.txs|] == b.txs;
  }

  method ChainedRefs(b: Block) returns (chained: set<TxoRef>)
    ensures chained == Chained(b)
  {
    var consumed, produced: set<TxoRef> := {}, {};
    for i := 0 to |b.txs|
      invariant consumed == SpentIn(b.txs[..i]) && produced == MadeIn(b.txs[..i], b.slot).Keys
    {
      assert b.txs[..i + 1][..i] == b.txs[..i];
      consumed := consumed + Refs(b.txs[i].consumes);
      produced := produced + (set j | 0 <= j < |b.txs[i].produces| :: TxoRef(b.txs[i].hash, b.txs[i].produces[j].index));
      MadeKeys(b.txs[i], b.txs[i].produces, b.slot);
    }
    assert b.txs[..|b.txs|] == b.txs;
    chained := consumed * produced;
  }

  method ReduceTx(c: Config, ctx: Txos, skip: set<TxoRef>, tx: Tx, slot: U64, before: seq<UtxoOutput>)
    returns (outputs: seq<UtxoOutput>)
    ensures outputs == before + ConsumedOutputs(c, ctx, skip, tx.consumes) + ProducedOutputs(c, tx, tx.produces, slot, skip)
  {
    outputs := before;
    for i := 0 to |tx.consumes|
      invariant outputs == before + ConsumedOutputs(c, ctx, skip, tx.consumes[..i])
    {
      assert tx.consumes[..i + 1][..i] == tx.consumes[..i];
      var r := tx.consumes[i];
      if r !in skip && r !in tx.consumes[..i] && r in ctx && Wanted(c, c.codec.address(ctx[r].raw)) {
        outputs := outputs + [Consumed(KeyOf(c, r, ctx[r]))];
      }
    }
    assert tx.consumes[..|tx.consumes|] == tx.consumes;
    ghost var consumed := outputs;
    for i := 0 to |tx.produces|
      invariant outputs == consumed + ProducedOutputs(c, tx, tx.produces[..i], slot, skip)
    {
      assert tx.produces[..i + 1][..i] == tx.produces[..i];
      var o := tx.produces[i];
      var ref := TxoRef(tx.hash, o.index);
      if ref !in skip && Wanted(c, c.codec.address(o.raw)) {
        outputs := outputs + [Produced(UtxoKey(c.codec.address(o.raw), slot, ref), o.raw)];
      }
    }
    assert tx.produces[..|tx.produces|] == tx.produces;
  }

  // ---- The index ----

  /** A consumed output deletes its key, a produced one sets it. */
  function Write(index: Index, o: UtxoOutput): Index {
    match o
    case Consumed(k) => index - {k}
    case Produced(k, raw) => index[k := raw]
  }

  function WriteAll(index: Index, outputs: seq<UtxoOutput>): Index {
    if outputs == [] then index else Write(WriteAll(index, outputs[..|outputs| - 1]), outputs[|outputs| - 1])
  }

  lemma {:induction false} WriteConcat(index: Index, a: seq<UtxoOutput>, b: seq<UtxoOutput>)
    ensures WriteAll(index, a + b) == WriteAll(WriteAll(index, a), b)
    decreases |b|
  {
    if b == [] {
      assert a + b == a;
    } else {
      var n := |b| - 1;
      assert (a + b)[..|a| + n] == a + b[..n];
      WriteConcat(index, a, b[..n]);
    }
  }

  /** The key names an unspent output by its own address, slot and reference, and its address is wanted. */
  predicate Listed(c: Config, txos: Txos, k: UtxoKey) {
    && k.ref in txos && k.address == c.codec.address(txos[k.ref].raw) && k.slot == txos[k.ref].slot
    && (c.filter.None? || k.address in c.filter.value)
  }

  /** The index is the projection of the outputs to the wanted addresses. */
  ghost predicate Projects(c: Config, index: Index, txos: Txos) {
    forall k :: Get(index, k) == if Listed(c, txos, k) then Some(txos[k.ref].raw) else None
  }

  lemma {:induction false} ConsumingProjects(c: Config, index: Index, txos: Txos, ctx: Txos, skip: set<TxoRef>, refs: seq<TxoRef>)
    requires Projects(c, index, txos) && NoRepeats(refs)
    requires forall r :: r in refs && r !in skip ==> r in txos && r in ctx && ctx[r] == txos[r]
    ensures Projects(c, WriteAll(index, ConsumedOutputs(c, ctx, skip, refs)), txos - (Refs(refs) - skip))
  {
    if refs == [] {
      assert txos - (Refs(refs) - skip) == txos;
    } else {
      var before, r := refs[..|refs| - 1], refs[|refs| - 1];
      ConsumingProjects(c, index, txos, ctx, skip, before);
      var outs := ConsumedOutputs(c, ctx, skip, before);
      var mid := WriteAll(index, outs);
      if r in skip {
        assert Refs(refs) - skip == Refs(before) - skip;
        assert outs + [] == outs;
      } else {
        assert Refs(refs) - skip == Refs(before) - skip + {r};
        RemoveOne(c, mid, txos - (Refs(before) - skip), r);
        assert txos - (Refs(before) - skip) - {r} == txos - (Refs(refs) - skip);
        if Wanted(c, c.codec.address(ctx[r].raw)) {
          assert (outs + [Consumed(KeyOf(c, r, ctx[r]))])[..|outs|] == outs;
        } else {
          assert outs + [] == outs;
        }
      }
    }
  }

  lemma RemoveOne(c: Config, index: Index, txos: Txos, r: TxoRef)
    requires Projects(c, index, txos) && r in txos
    ensures var k := KeyOf(c, r, txos[r]);
            Projects(c, if Wanted(c, k.address) then index - {k} else index, txos - {r})
  {
    var key := KeyOf(c, r, txos[r]);
    var next := if Wanted(c, key.address) then index - {key} else index;
    forall k ensures Get(next, k) == if Listed(c, txos - {r}, k) then Some((txos - {r})[k.ref].raw) else None {
      assert Get(index, k) == if Listed(c, txos, k) then Some(txos[k.ref].raw) else None;
    }
  }

  lemma AddOne(c: Config, index: Index, txos: Txos, r: TxoRef, body: TxoBody)
    requires Projects(c, index, txos) && r !in txos
    ensures var k := KeyOf(c, r, body);
            Projects(c, if Wanted(c, k.address) then index[k := body.raw] else index, txos[r := body])
  {
    var key := KeyOf(c, r, body);
    var next := if Wanted(c, key.address) then index[key := body.raw] else index;
    forall k ensures Get(next, k) == if Listed(c, txos[r := body], k) then Some(txos[r := body][k.ref].raw) else None {
      assert Get(index, k) == if Listed(c, txos, k) then Some(txos[k.ref].raw) else None;
    }
  }

  lemma LastOutputIsNew(tx: Tx, outputs: seq<Output>, slot: U64)
    requires outputs != [] && DistinctIndices(outputs)
    ensures var before, last := outputs[..|outputs| - 1], outputs[|outputs| - 1];
            var ref := TxoRef(tx.hash, last.index);
            && DistinctIndices(before) && ref !in Made(tx, before, slot)
            && Made(tx, outputs, slot) == Made(tx, before, slot)[ref := TxoBody(slot, tx.era, last.raw)]
  {
    MadeKeys(tx, outputs[..|outputs| - 1], slot);
  }

  lemma PlusLess(txos: Txos, made: Txos, skip: set<TxoRef>, r: TxoRef, body: TxoBody)
    ensures txos + (made[r := body] - skip) ==
            if r in skip then txos + (made - skip) else (txos + (made - skip))[r := body]
  {
  }

  lemma {:induction false} ProducingProjects(c: Config, index: Index, txos: Txos, tx: Tx, outputs: seq<Output>, slot: U64, skip: set<TxoRef>)
    requires Projects(c, index, txos) && DistinctIndices(outputs)
    requires Made(tx, outputs, slot).Keys !! txos.Keys
    ensures Projects(c, WriteAll(index, ProducedOutputs(c, tx, outputs, slot, skip)), txos + (Made(tx, outputs, slot) - skip))
  {
    if outputs == [] {
      assert txos + (Made(tx, outputs, slot) - skip) == txos;
    } else {
      var before, last := outputs[..|outputs| - 1], outputs[|outputs| - 1];
      LastOutputIsNew(tx, outputs, slot);
      hide Made, Projects, DistinctIndices;
      ProducingProjects(c, index, txos, tx, before, slot, skip);
      var ref, body := TxoRef(tx.hash, last.index), TxoBody(slot, tx.era, last.raw);
      var outs := ProducedOutputs(c, tx, before, slot, skip);
      var mid := txos + (Made(tx, before, slot) - skip);
      PlusLess(txos, Made(tx, before, slot), skip, ref, body);
      if ref in skip {
        assert outs + [] == outs;
      } else {
        AddOne(c, WriteAll(index, outs), mid, ref, body);
        if Wanted(c, c.codec.address(last.raw)) {
          assert (outs + [Produced(KeyOf(c, ref, body), last.raw)])[..|outs|] == outs;
        } else {
          assert outs + [] == outs;
        }
      }
    }
  }

  // ---- Blocks ----

  function ContextOf(txos: Txos, b: Block): Txos
    requires Resolvable(txos, b)
  {
    var r := Resolve(txos, b);
    map k | k in r :: r[k].body
  }

  /** One transaction, for outputs outside `skip`: first its inputs go, then its outputs come. */
  lemma TxProjects(c: Config, index: Index, txos: Txos, tx: Tx, ctx: Txos, skip: set<TxoRef>, slot: U64)
    requires Projects(c, index, txos - skip) && NoRepeats(tx.consumes) && DistinctIndices(tx.produces)
    requires Made(tx, tx.produces, slot).Keys !! txos.Keys && Refs(tx.consumes) <= txos.Keys
    requires forall r :: r in Refs(tx.consumes) ==> r in ctx && ctx[r] == txos[r]
    ensures var outs := ConsumedOutputs(c, ctx, skip, tx.consumes) + ProducedOutputs(c, tx, tx.produces, slot, skip);
            Projects(c, WriteAll(index, outs), ApplyTx(txos, tx, slot) - skip)
  {
    var consumed, produced := ConsumedOutputs(c, ctx, skip, tx.consumes), ProducedOutputs(c, tx, tx.produces, slot, skip);
    var spent, made := Refs(tx.consumes), Made(tx, tx.produces, slot);
    hide Made, Projects, DistinctIndices, NoRepeats, ConsumedOutputs, ProducedOutputs;
    var left := txos - skip - (spent - skip);
    ConsumingProjects(c, index, txos - skip, ctx, skip, tx.consumes);
    ProducingProjects(c, WriteAll(index, consumed), left, tx, tx.produces, slot, skip);
    WriteConcat(index, consumed, produced);
    assert left + (made - skip) == txos + made - spent - skip;
  }

  /** The context holds every output a block spends, with the body it had when it was spent. */
  ghost predicate Informs(ctx: Txos, txos: Txos, txs: seq<Tx>, slot: U64) {
    forall r :: r in SpentIn(txs) ==> r in ctx && r in Known(txos, txs, slot) && ctx[r] == Known(txos, txs, slot)[r]
  }

  lemma InformsBefore(ctx: Txos, txos: Txos, txs: seq<Tx>, slot: U64)
    requires txs != [] && ValidTxs(txos, txs, slot) && Informs(ctx, txos, txs, slot)
    ensures Informs(ctx, txos, txs[..|txs| - 1], slot)
    ensures var table := ApplyTxs(txos, txs[..|txs| - 1], slot);
            forall r :: r in Refs(txs[|txs| - 1].consumes) ==> r in ctx && r in table && ctx[r] == table[r]
  {
    var before, tx := txs[..|txs| - 1], txs[|txs| - 1];
    BodiesAreKnown(txos, before, slot);
    hide Made, Known, MadeIn, ApplyTx;
    forall r | r in SpentIn(txs) && r in Known(txos, before, slot) ensures ctx[r] == Known(txos, before, slot)[r] {
      KnownGrows(txos, txs, slot, r);
    }
  }

  lemma {:induction false} TxsProject(c: Config, index: Index, txos: Txos, txs: seq<Tx>, ctx: Txos, skip: set<TxoRef>, slot: U64)
    requires Projects(c, index, txos - skip) && ValidTxs(txos, txs, slot) && Informs(ctx, txos, txs, slot)
    ensures Projects(c, WriteAll(index, TxsOutputs(c, ctx, skip, txs, slot)), ApplyTxs(txos, txs, slot) - skip)
  {
    hide Made, Projects, Known, MadeIn, ConsumedOutputs, ProducedOutputs, ApplyTx, Informs;
    if txs != [] {
      var before, tx := txs[..|txs| - 1], txs[|txs| - 1];
      InformsBefore(ctx, txos, txs, slot);
      TxsProject(c, index, txos, before, ctx, skip, slot);
      FreshHere(txos, txs, slot);
      var outs := TxsOutputs(c, ctx, skip, before, slot);
      TxProjects(c, WriteAll(index, outs), ApplyTxs(txos, before, slot), tx, ctx, skip, slot);
      var mine := ConsumedOutputs(c, ctx, skip, tx.consumes) + ProducedOutputs(c, tx, tx.produces, slot, skip);
      WriteConcat(index, outs, mine);
      assert outs + mine == TxsOutputs(c, ctx, skip, txs, slot);
    }
  }

  lemma FreshHere(txos: Txos, txs: seq<Tx>, slot: U64)
    requires txs != [] && ValidTxs(txos, txs, slot)
    ensures var tx := txs[|txs| - 1];
            Made(tx, tx.produces, slot).Keys !! ApplyTxs(txos, txs[..|txs| - 1], slot).Keys
  {
    BodiesAreKnown(txos, txs[..|txs| - 1], slot);
  }

  lemma {:induction false} MadeAreNew(txos: Txos, txs: seq<Tx>, slot: U64)
    requires ValidTxs(txos, txs, slot)
    ensures MadeIn(txs, slot).Keys !! txos.Keys
  {
    if txs != [] {
      MadeAreNew(txos, txs[..|txs| - 1], slot);
    }
  }

  lemma ContextInforms(txos: Txos, b: Block)
    requires ValidBlock(txos, b)
    ensures Informs(ContextOf(txos, b), txos, b.txs, b.slot)
  {
    SpentIsNeeded(txos, b.txs, b.slot);
    BodiesAreKnown(txos, b.txs, b.slot);
  }

  /** A block keeps the index a projection, whichever of its chained outputs are passed over. */
  lemma BlockProjects(c: Config, index: Index, txos: Txos, b: Block, skip: set<TxoRef>)
    requires Projects(c, index, txos) && ValidBlock(txos, b) && skip <= Chained(b)
    ensures Projects(c, WriteAll(index, TxsOutputs(c, ContextOf(txos, b), skip, b.txs, b.slot)), ApplyTxs(txos, b.txs, b.slot))
  {
    MadeAreNew(txos, b.txs, b.slot);
    BodiesAreKnown(txos, b.txs, b.slot);
    assert txos - skip == txos;
    assert ApplyTxs(txos, b.txs, b.slot) - skip == ApplyTxs(txos, b.txs, b.slot);
    hide Projects, ValidTxs, Informs, ContextOf;
    ContextInforms(txos, b);
    TxsProject(c, index, txos, b.txs, ContextOf(txos, b), skip, b.slot);
  }

  /** Passing over outputs that are produced and consumed in one block changes nothing. */
  lemma ElisionIsInvisible(c: Config, index: Index, txos: Txos, b: Block)
    requires Projects(c, index, txos) && ValidBlock(txos, b)
    ensures var ctx := ContextOf(txos, b);
            WriteAll(index, TxsOutputs(c, ctx, Chained(b), b.txs, b.slot))
            == WriteAll(index, TxsOutputs(c, ctx, {}, b.txs, b.slot))
  {
    var ctx, table := ContextOf(txos, b), ApplyTxs(txos, b.txs, b.slot);
    var elided := WriteAll(index, TxsOutputs(c, ctx, Chained(b), b.txs, b.slot));
    var full := WriteAll(index, TxsOutputs(c, ctx, {}, b.txs, b.slot));
    BlockProjects(c, index, txos, b, Chained(b));
    BlockProjects(c, index, txos, b, {});
    hide WriteAll, TxsOutputs, ApplyTxs;
    forall k ensures Get(elided, k) == Get(full, k) {
      assert Get(elided, k) == if Listed(c, table, k) then Some(table[k.ref].raw) else None;
    }
    SameLookupsSameTable(elided, full);
  }

  function IndexAfter(c: Config, genesis: Genesis, chain: seq<Block>): Index
    requires ValidChain(genesis, chain)
  {
    if chain == [] then map[]
    else
      var before, b := chain[..|chain| - 1], chain[|chain| - 1];
      var ctx := ContextOf(Unspent(genesis, before), b);
      WriteAll(IndexAfter(c, genesis, before), TxsOutputs(c, ctx, Chained(b), b.txs, b.slot))
  }

  /** Index equals ledger: after any chain from an empty genesis the index is the unspent set by address. */
  lemma {:induction false} IndexEqualsLedger(c: Config, genesis: Genesis, chain: seq<Block>)
    requires genesis.txos == map[] && ValidChain(genesis, chain)
    ensures Projects(c, IndexAfter(c, genesis, chain), Unspent(genesis, chain))
  {
    if chain != [] {
      var before, b := chain[..|chain| - 1], chain[|chain| - 1];
      IndexEqualsLedger(c, genesis, before);
      hide Projects;
      BlockProjects(c, IndexAfter(c, genesis, before), Unspent(genesis, before), b, Chained(b));
    }
  }
}
