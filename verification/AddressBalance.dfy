/** The lovelace balance reducer, down to the counter the storage executor keeps. */
module AddressBalance {
  import opened Wrappers
  import opened Bytes
  import opened Ledger
  import opened ChainRuns
  import opened StorageActions
  import opened Executor
  import opened Confluence
  import UI = UtxoIndex

  datatype BalanceOutput = BalanceOutput(address: Bytes, amount: U64, increment: bool)

  // ---- The reducer ----

  function ConsumedOutputs(c: UI.Codec, ctx: Txos, refs: seq<TxoRef>): seq<BalanceOutput> {
    if refs == [] then []
    else
      var before, r := refs[..|refs| - 1], refs[|refs| - 1];
      ConsumedOutputs(c, ctx, before) +
      (if r in before || r !in ctx then []
       else [BalanceOutput(c.address(ctx[r].raw), c.coin(ctx[r].raw), false)])
  }

  function ProducedOutputs(c: UI.Codec, outputs: seq<Output>): seq<BalanceOutput> {
    if outputs == [] then []
    else
      var last := outputs[|outputs| - 1];
      ProducedOutputs(c, outputs[..|outputs| - 1]) + [BalanceOutput(c.address(last.raw), c.coin(last.raw), true)]
  }

  function TxsOutputs(c: UI.Codec, ctx: Txos, txs: seq<Tx>): seq<BalanceOutput> {
    if txs == [] then []
    else
      var tx := txs[|txs| - 1];
      TxsOutputs(c, ctx, txs[..|txs| - 1]) + ConsumedOutputs(c, ctx, tx.consumes) + ProducedOutputs(c, tx.produces)
  }

  /** The transactions the reducer's filter lets through; without a filter it lets all through. */
  function Matching(filter: Option<Tx -> bool>, txs: seq<Tx>): (r: seq<Tx>)
    ensures filter.None? ==> r == txs
  {
    if txs == [] then []
    else
      var tx := txs[|txs| - 1];
      Matching(filter, txs[..|txs| - 1]) + (if filter.None? || filter.value(tx) then [tx] else [])
  }

  /** The filter drops exactly the transactions it does not match, and keeps the order of the others. */
  lemma {:induction false} MatchingAt(filter: Option<Tx -> bool>, a: seq<Tx>, tx: Tx, b: seq<Tx>)
    ensures Matching(filter, a + [tx] + b) ==
            Matching(filter, a) + (if filter.None? || filter.value(tx) then [tx] else []) + Matching(filter, b)
    decreases |b|
  {
    if b == [] {
      assert a + [tx] + b == a + [tx] && (a + [tx])[..|a|] == a;
    } else {
      var n := |b| - 1;
      assert (a + [tx] + b)[..|a| + 1 + n] == a + [tx] + b[..n];
      MatchingAt(filter, a, tx, b[..n]);
    }
  }

  method ReduceBlock(c: UI.Codec, filter: Option<Tx -> bool>, ctx: Txos, b: Block) returns (outputs: seq<BalanceOutput>)
    ensures outputs == TxsOutputs(c, ctx, Matching(filter, b.txs))
    ensures filter.None? ==> outputs == TxsOutputs(c, ctx, b.txs)
  {
    hide TxsOutputs, ConsumedOutputs, ProducedOutputs;
    outputs := [];
    NoOutputs(c, ctx);
    for i := 0 to |b.txs|
      invariant outputs == TxsOutputs(c, ctx, Matching(filter, b.txs[..i]))
    {
      assert b.txs[..i + 1][..i] == b.txs[..i];
      if filter.None? || filter.value(b.txs[i]) {
        var consumed := ProcessConsumed(c, ctx, b.txs[i].consumes);
        var produced := ProcessProduced(c, b.txs[i].produces);
        outputs := outputs + consumed + produced;
        OneMoreTx(c, ctx, Matching(filter, b.txs[..i]), b.txs[i]);
      } else {
        assert Matching(filter, b.txs[..i]) + [] == Matching(filter, b.txs[..i]);
      }
    }
    assert b.txs[..|b.txs|] == b.txs;
  }

  lemma NoOutputs(c: UI.Codec, ctx: Txos)
    ensures TxsOutputs(c, ctx, []) == []
  {
  }

  lemma OneMoreTx(c: UI.Codec, ctx: Txos, txs: seq<Tx>, tx: Tx)
    ensures TxsOutputs(c, ctx, txs + [tx])
            == TxsOutputs(c, ctx, txs) + ConsumedOutputs(c, ctx, tx.consumes) + ProducedOutputs(c, tx.produces)
  {
    assert (txs + [tx])[..|txs|] == txs;
  }

  method ProcessConsumed(c: UI.Codec, ctx: Txos, refs: seq<TxoRef>) returns (outputs: seq<BalanceOutput>)
    ensures outputs == ConsumedOutputs(c, ctx, refs)
  {
    outputs := [];
    for j := 0 to |refs|
      invariant outputs == ConsumedOutputs(c, ctx, refs[..j])
    {
      assert refs[..j + 1][..j] == refs[..j];
      var r := refs[j];
      if r !in refs[..j] && r in ctx {
        outputs := outputs + [BalanceOutput(c.address(ctx[r].raw), c.coin(ctx[r].raw), false)];
      }
    }
    assert refs[..|refs|] == refs;
  }

  method ProcessProduced(c: UI.Codec, produces: seq<Output>) returns (outputs: seq<BalanceOutput>)
    ensures outputs == ProducedOutputs(c, produces)
  {
    outputs := [];
    for j := 0 to |produces|
      invariant outputs == ProducedOutputs(c, produces[..j])
    {
      assert produces[..j + 1][..j] == produces[..j];
      outputs := outputs + [BalanceOutput(c.address(produces[j].raw), c.coin(produces[j].raw), true)];
    }
    assert produces[..|produces|] == produces;
  }

  // ---- Storage actions, and one address's share of them ----

  function Op(key: Key, o: BalanceOutput): StorageAction {
    if o.increment then IncrementU64(key, o.amount) else DecrementU64(key, o.amount)
  }

  function Ops(keys: Bytes -> Key, outputs: seq<BalanceOutput>): seq<StorageAction> {
    if outputs == [] then []
    else
      var last := outputs[|outputs| - 1];
      Ops(keys, outputs[..|outputs| - 1]) + [Op(keys(last.address), last)]
  }

  function For(key: Key, a: Bytes, outputs: seq<BalanceOutput>): seq<StorageAction> {
    if outputs == [] then []
    else
      var last := outputs[|outputs| - 1];
      For(key, a, outputs[..|outputs| - 1]) + (if last.address == a then [Op(key, last)] else [])
  }

  lemma {:induction false} ShareOfKey(keys: Bytes -> Key, a: Bytes, outputs: seq<BalanceOutput>)
    requires forall b :: keys(b) == keys(a) ==> b == a
    ensures Project(Ops(keys, outputs), keys(a)) == For(keys(a), a, outputs)
  {
    if outputs != [] {
      var before, last := outputs[..|outputs| - 1], outputs[|outputs| - 1];
      ShareOfKey(keys, a, before);
      ProjectConcat(Ops(keys, before), [Op(keys(last.address), last)], keys(a));
      assert Project([Op(keys(last.address), last)], keys(a)) ==
             if last.address == a then [Op(keys(a), last)] else [];
    }
  }

  lemma {:induction false} ForConcat(key: Key, a: Bytes, x: seq<BalanceOutput>, y: seq<BalanceOutput>)
    ensures For(key, a, x + y) == For(key, a, x) + For(key, a, y)
    decreases |y|
  {
    if y == [] {
      assert x + y == x;
    } else {
      var n := |y| - 1;
      assert (x + y)[..|x| + n] == x + y[..n];
      ForConcat(key, a, x, y[..n]);
    }
  }

  /** Running two action lists after each other, from a known balance. */
  lemma {:induction false} BoundedConcat(balance: int, x: seq<StorageAction>, y: seq<StorageAction>)
    requires Bounded(Counter64, balance, x) && Bounded(Counter64, balance + Sum(x), y)
    ensures Bounded(Counter64, balance, x + y)
    ensures Sum(x + y) == Sum(x) + Sum(y)
    decreases |x|
  {
    if x == [] {
      assert x + y == y;
    } else {
      assert (x + y)[1..] == x[1..] + y;
      BoundedConcat(balance + Delta(x[0]), x[1..], y);
    }
  }

  // ---- Coins of a set of outputs ----

  function Worth(c: UI.Codec, a: Bytes, raw: Bytes): nat {
    if c.address(raw) == a then c.coin(raw) else 0
  }

  ghost function Coins(c: UI.Codec, a: Bytes, txos: Txos): nat {
    if txos == map[] then 0
    else
      var r :| r in txos;
      Worth(c, a, txos[r].raw) + Coins(c, a, txos - {r})
  }

  lemma {:induction false} CoinsWithout(c: UI.Codec, a: Bytes, txos: Txos, r: TxoRef)
    requires r in txos
    ensures Coins(c, a, txos) == Worth(c, a, txos[r].raw) + Coins(c, a, txos - {r})
    decreases |txos|
  {
    var p :| p in txos && Coins(c, a, txos) == Worth(c, a, txos[p].raw) + Coins(c, a, txos - {p});
    if p != r {
      CoinsWithout(c, a, txos - {p}, r);
      CoinsWithout(c, a, txos - {r}, p);
      assert txos - {p} - {r} == txos - {r} - {p};
    }
  }

  lemma CoinsWith(c: UI.Codec, a: Bytes, txos: Txos, r: TxoRef, body: TxoBody)
    requires r !in txos
    ensures Coins(c, a, txos[r := body]) == Coins(c, a, txos) + Worth(c, a, body.raw)
  {
    CoinsWithout(c, a, txos[r := body], r);
    assert txos[r := body] - {r} == txos;
  }

  // ---- Steps ----

  /** From balance `from` the outputs keep the counter in range and lead to balance `to`. */
  ghost predicate Moves(key: Key, a: Bytes, from: nat, outputs: seq<BalanceOutput>, to: nat) {
    Bounded(Counter64, from, For(key, a, outputs)) && from + Sum(For(key, a, outputs)) == to
  }

  lemma MovesConcat(key: Key, a: Bytes, from: nat, x: seq<BalanceOutput>, mid: nat, y: seq<BalanceOutput>, to: nat)
    requires Moves(key, a, from, x, mid) && Moves(key, a, mid, y, to)
    ensures Moves(key, a, from, x + y, to)
  {
    ForConcat(key, a, x, y);
    BoundedConcat(from, For(key, a, x), For(key, a, y));
  }

  lemma MovesNothing(key: Key, a: Bytes, from: nat)
    ensures Moves(key, a, from, [], from)
  {
  }

  lemma MovesOne(key: Key, a: Bytes, from: nat, o: BalanceOutput, to: nat)
    requires to < TWO_64
    requires to == (if o.address != a then from else if o.increment then from + o.amount else from - o.amount)
    ensures Moves(key, a, from, [o], to)
  {
    assert [o][..0] == [];
    assert For(key, a, [o]) == if o.address == a then [Op(key, o)] else [];
    if o.address == a {
      assert Sum([Op(key, o)]) == Delta(Op(key, o));
    }
  }

  lemma {:induction false} ConsumingMoves(c: UI.Codec, key: Key, a: Bytes, txos: Txos, ctx: Txos, refs: seq<TxoRef>)
    requires NoRepeats(refs) && Coins(c, a, txos) < TWO_64
    requires forall r :: r in refs ==> r in txos && r in ctx && ctx[r] == txos[r]
    ensures Coins(c, a, txos - Refs(refs)) <= Coins(c, a, txos)
    ensures Moves(key, a, Coins(c, a, txos), ConsumedOutputs(c, ctx, refs), Coins(c, a, txos - Refs(refs)))
  {
    if refs == [] {
      assert txos - Refs(refs) == txos;
    } else {
      var before, r := refs[..|refs| - 1], refs[|refs| - 1];
      ConsumingMoves(c, key, a, txos, ctx, before);
      var mid := txos - Refs(before);
      assert Refs(refs) == Refs(before) + {r};
      assert mid - {r} == txos - Refs(refs);
      CoinsWithout(c, a, mid, r);
      var o := BalanceOutput(c.address(ctx[r].raw), c.coin(ctx[r].raw), false);
      MovesOne(key, a, Coins(c, a, mid), o, Coins(c, a, mid - {r}));
      MovesConcat(key, a, Coins(c, a, txos), ConsumedOutputs(c, ctx, before), Coins(c, a, mid), [o], Coins(c, a, mid - {r}));
    }
  }

  lemma {:induction false} ProducingMoves(c: UI.Codec, key: Key, a: Bytes, txos: Txos, tx: Tx, outputs: seq<Output>, slot: U64)
    requires DistinctIndices(outputs) && Made(tx, outputs, slot).Keys !! txos.Keys
    requires Coins(c, a, txos + Made(tx, outputs, slot)) < TWO_64
    ensures Moves(key, a, Coins(c, a, txos), ProducedOutputs(c, outputs), Coins(c, a, txos + Made(tx, outputs, slot)))
  {
    if outputs == [] {
      assert txos + Made(tx, outputs, slot) == txos;
    } else {
      var before, last := outputs[..|outputs| - 1], outputs[|outputs| - 1];
      UI.LastOutputIsNew(tx, outputs, slot);
      var ref, body := TxoRef(tx.hash, last.index), TxoBody(slot, tx.era, last.raw);
      var mid := txos + Made(tx, before, slot);
      assert txos + Made(tx, outputs, slot) == mid[ref := body];
      CoinsWith(c, a, mid, ref, body);
      hide Made, DistinctIndices;
      ProducingMoves(c, key, a, txos, tx, before, slot);
      var o := BalanceOutput(c.address(last.raw), c.coin(last.raw), true);
      MovesOne(key, a, Coins(c, a, mid), o, Coins(c, a, mid[ref := body]));
      MovesConcat(key, a, Coins(c, a, txos), ProducedOutputs(c, before), Coins(c, a, mid), [o], Coins(c, a, mid[ref := body]));
    }
  }

  // ---- Blocks and chains ----

  /** After every transaction the address owns less than a 64-bit amount. */
  ghost predicate Fits(c: UI.Codec, a: Bytes, txos: Txos, txs: seq<Tx>, slot: U64) {
    Coins(c, a, ApplyTxs(txos, txs, slot)) < TWO_64 &&
    (txs != [] ==> Fits(c, a, txos, txs[..|txs| - 1], slot))
  }

  lemma TxMoves(c: UI.Codec, key: Key, a: Bytes, txos: Txos, tx: Tx, ctx: Txos, slot: U64)
    requires NoRepeats(tx.consumes) && DistinctIndices(tx.produces)
    requires Made(tx, tx.produces, slot).Keys !! txos.Keys && Refs(tx.consumes) <= txos.Keys
    requires forall r :: r in Refs(tx.consumes) ==> r in ctx && ctx[r] == txos[r]
    requires Coins(c, a, txos) < TWO_64 && Coins(c, a, ApplyTx(txos, tx, slot)) < TWO_64
    ensures Moves(key, a, Coins(c, a, txos), ConsumedOutputs(c, ctx, tx.consumes) + ProducedOutputs(c, tx.produces),
                  Coins(c, a, ApplyTx(txos, tx, slot)))
  {
    var left, made := txos - Refs(tx.consumes), Made(tx, tx.produces, slot);
    assert left + made == ApplyTx(txos, tx, slot);
    hide Moves, Made, NoRepeats, DistinctIndices, Coins;
    ConsumingMoves(c, key, a, txos, ctx, tx.consumes);
    ProducingMoves(c, key, a, left, tx, tx.produces, slot);
    MovesConcat(key, a, Coins(c, a, txos), ConsumedOutputs(c, ctx, tx.consumes), Coins(c, a, left),
                ProducedOutputs(c, tx.produces), Coins(c, a, left + made));
  }

  lemma {:induction false} TxsMove(c: UI.Codec, key: Key, a: Bytes, txos: Txos, txs: seq<Tx>, ctx: Txos, slot: U64)
    requires ValidTxs(txos, txs, slot) && Fits(c, a, txos, txs, slot) && UI.Informs(ctx, txos, txs, slot)
    ensures Moves(key, a, Coins(c, a, txos), TxsOutputs(c, ctx, txs), Coins(c, a, ApplyTxs(txos, txs, slot)))
  {
    hide Made, MadeIn, Known, ConsumedOutputs, ProducedOutputs, Coins, Moves, DistinctIndices, NoRepeats, ApplyTx, UI.Informs;
    if txs == [] {
      MovesNothing(key, a, Coins(c, a, txos));
    } else {
      var before, tx := txs[..|txs| - 1], txs[|txs| - 1];
      UI.InformsBefore(ctx, txos, txs, slot);
      UI.FreshHere(txos, txs, slot);
      TxsMove(c, key, a, txos, before, ctx, slot);
      var table := ApplyTxs(txos, before, slot);
      TxMoves(c, key, a, table, tx, ctx, slot);
      var mine := ConsumedOutputs(c, ctx, tx.consumes) + ProducedOutputs(c, tx.produces);
      MovesConcat(key, a, Coins(c, a, txos), TxsOutputs(c, ctx, before), Coins(c, a, table), mine, Coins(c, a, ApplyTxs(txos, txs, slot)));
      assert TxsOutputs(c, ctx, before) + mine == TxsOutputs(c, ctx, txs);
    }
  }

  lemma BlockMoves(c: UI.Codec, key: Key, a: Bytes, txos: Txos, b: Block)
    requires ValidBlock(txos, b) && Fits(c, a, txos, b.txs, b.slot)
    ensures Moves(key, a, Coins(c, a, txos), TxsOutputs(c, UI.ContextOf(txos, b), b.txs),
                  Coins(c, a, ApplyTxs(txos, b.txs, b.slot)))
  {
    hide ValidTxs, Moves, Fits, Coins, UI.ContextOf, UI.Informs;
    UI.ContextInforms(txos, b);
    TxsMove(c, key, a, txos, b.txs, UI.ContextOf(txos, b), b.slot);
  }

  function ChainOutputs(c: UI.Codec, genesis: Genesis, chain: seq<Block>): seq<BalanceOutput>
    requires ValidChain(genesis, chain)
  {
    if chain == [] then []
    else
      var before, b := chain[..|chain| - 1], chain[|chain| - 1];
      ChainOutputs(c, genesis, before) + TxsOutputs(c, UI.ContextOf(Unspent(genesis, before), b), b.txs)
  }

  ghost predicate ChainFits(c: UI.Codec, a: Bytes, genesis: Genesis, chain: seq<Block>) {
    chain != [] ==>
      var before, b := chain[..|chain| - 1], chain[|chain| - 1];
      ChainFits(c, a, genesis, before) && Fits(c, a, Unspent(genesis, before), b.txs, b.slot)
  }

  lemma {:induction false} ChainMoves(c: UI.Codec, key: Key, a: Bytes, genesis: Genesis, chain: seq<Block>)
    requires genesis.txos == map[] && ValidChain(genesis, chain) && ChainFits(c, a, genesis, chain)
    ensures Moves(key, a, 0, ChainOutputs(c, genesis, chain), Coins(c, a, Unspent(genesis, chain)))
  {
    if chain != [] {
      var before, b := chain[..|chain| - 1], chain[|chain| - 1];
      ChainMoves(c, key, a, genesis, before);
      hide Moves, Fits, Coins, ApplyTxs;
      var txos := Unspent(genesis, before);
      BlockMoves(c, key, a, txos, b);
      MovesConcat(key, a, 0, ChainOutputs(c, genesis, before), Coins(c, a, txos),
                  TxsOutputs(c, UI.ContextOf(txos, b), b.txs), Coins(c, a, Unspent(genesis, chain)));
    }
  }

  lemma {:induction false} AllCounters(key: Key, a: Bytes, outputs: seq<BalanceOutput>)
    ensures forall i :: 0 <= i < |For(key, a, outputs)| ==> KindOf(For(key, a, outputs)[i]) == Counter64
  {
    if outputs != [] {
      AllCounters(key, a, outputs[..|outputs| - 1]);
    }
  }

  /**
   * Balance equals ledger: over any chain from an empty genesis the executor runs an address's
   * increments and decrements without underflow or overflow, one by one, and the stored counter is
   * the sum of the coins the address has unspent.
   */
  lemma BalanceEqualsLedger(c: UI.Codec, keys: Bytes -> Key, a: Bytes, genesis: Genesis, chain: seq<Block>)
    requires genesis.txos == map[] && ValidChain(genesis, chain) && ChainFits(c, a, genesis, chain)
    requires forall b :: keys(b) == keys(a) ==> b == a
    ensures var ops := Project(Ops(keys, ChainOutputs(c, genesis, chain)), keys(a));
            var r := RunKey(None, ops);
            && Sound(Counter64, None, ops)
            && r.Ok? && CounterOk(Counter64, r.value)
            && Balance(Counter64, r.value) == Coins(c, a, Unspent(genesis, chain))
  {
    var outs := ChainOutputs(c, genesis, chain);
    ChainMoves(c, keys(a), a, genesis, chain);
    ShareOfKey(keys, a, outs);
    AllCounters(keys(a), a, outs);
    hide ToBigEndian, FromBigEndian, Pow256, RunKey, For, Ops, ChainOutputs, Coins;
    RunCounter(Counter64, None, For(keys(a), a, outs));
  }
}
