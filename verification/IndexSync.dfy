/** Reducer outputs through any sync: the stored UTxO index and balances are those of the ledger. */
module IndexSync {
  import opened Wrappers
  import opened Bytes
  import opened Ledger
  import opened ChainRuns
  import opened StorageActions
  import opened Database
  import opened Executor
  import opened Confluence
  import AB = AddressBalance
  import SB = SyncBatcher
  import SR = SyncRuns
  import SS = StorageStage
  import UI = UtxoIndex

  function ActionOf(keys: UI.UtxoKey -> Key, o: UI.UtxoOutput): StorageAction {
    match o
    case Consumed(k) => Delete(keys(k))
    case Produced(k, raw) => Set(keys(k), raw)
  }

  function ActionsOf(keys: UI.UtxoKey -> Key, outputs: seq<UI.UtxoOutput>): seq<StorageAction> {
    if outputs == [] then []
    else ActionsOf(keys, outputs[..|outputs| - 1]) + [ActionOf(keys, outputs[|outputs| - 1])]
  }

  /** The index actions of a whole chain, block by block as the reducer emits them. */
  function ChainActions(c: UI.Config, keys: UI.UtxoKey -> Key, genesis: Genesis, chain: seq<Block>): seq<StorageAction>
    requires ValidChain(genesis, chain)
  {
    if chain == [] then []
    else
      var before, b := chain[..|chain| - 1], chain[|chain| - 1];
      var ctx := UI.ContextOf(Unspent(genesis, before), b);
      ChainActions(c, keys, genesis, before) + ActionsOf(keys, UI.TxsOutputs(c, ctx, UI.Chained(b), b.txs, b.slot))
  }

  ghost predicate Injective(keys: UI.UtxoKey -> Key) {
    forall a, b :: keys(a) == keys(b) ==> a == b
  }

  /** The store holds the index under its keys. */
  ghost predicate Mirrors(keys: UI.UtxoKey -> Key, data: Store, index: UI.Index) {
    forall k :: Get(data, keys(k)) == Get(index, k)
  }

  lemma WriteMirrors(keys: UI.UtxoKey -> Key, data: Store, index: UI.Index, o: UI.UtxoOutput)
    requires Injective(keys) && Mirrors(keys, data, index)
    ensures RunPlain(data, [ActionOf(keys, o)]).Ok?
    ensures Mirrors(keys, RunPlain(data, [ActionOf(keys, o)]).value, UI.Write(index, o))
  {
    var op := ActionOf(keys, o);
    var next := Commit(data, op.key, PlainWrite(Get(data, op.key), op).value);
    assert RunPlain(data, [op]) == Ok(next) by {
      assert [op][1..] == [];
    }
    forall k ensures Get(next, keys(k)) == Get(UI.Write(index, o), k) {
      assert Get(data, keys(k)) == Get(index, k);
      assert keys(k) == keys(o.key) ==> k == o.key;
    }
  }

  lemma {:induction false} ActionsMirror(keys: UI.UtxoKey -> Key, data: Store, index: UI.Index, outputs: seq<UI.UtxoOutput>)
    requires Injective(keys) && Mirrors(keys, data, index)
    ensures RunPlain(data, ActionsOf(keys, outputs)).Ok?
    ensures Mirrors(keys, RunPlain(data, ActionsOf(keys, outputs)).value, UI.WriteAll(index, outputs))
  {
    if outputs != [] {
      hide Injective, Mirrors, RunPlain, UI.Write;
      var before, last := outputs[..|outputs| - 1], outputs[|outputs| - 1];
      ActionsMirror(keys, data, index, before);
      WriteMirrors(keys, RunPlain(data, ActionsOf(keys, before)).value, UI.WriteAll(index, before), last);
      RunPlainConcat(data, ActionsOf(keys, before), [ActionOf(keys, last)]);
    }
  }

  lemma {:induction false} ChainMirrors(c: UI.Config, keys: UI.UtxoKey -> Key, data: Store, genesis: Genesis, chain: seq<Block>)
    requires Injective(keys) && Mirrors(keys, data, map[]) && ValidChain(genesis, chain)
    ensures RunPlain(data, ChainActions(c, keys, genesis, chain)).Ok?
    ensures Mirrors(keys, RunPlain(data, ChainActions(c, keys, genesis, chain)).value, UI.IndexAfter(c, genesis, chain))
  {
    if chain != [] {
      hide Injective, Mirrors, RunPlain, UI.WriteAll, ActionsOf, UI.TxsOutputs, UI.ContextOf, UI.Chained;
      var before, b := chain[..|chain| - 1], chain[|chain| - 1];
      var outputs := UI.TxsOutputs(c, UI.ContextOf(Unspent(genesis, before), b), UI.Chained(b), b.txs, b.slot);
      ChainMirrors(c, keys, data, genesis, before);
      ActionsMirror(keys, RunPlain(data, ChainActions(c, keys, genesis, before)).value, UI.IndexAfter(c, genesis, before), outputs);
      RunPlainConcat(data, ChainActions(c, keys, genesis, before), ActionsOf(keys, outputs));
    }
  }

  /** What an index key must hold: the bytes of the unspent output it names, if its address is wanted. */
  function Ledgered(c: UI.Config, txos: Txos, k: UI.UtxoKey): Option<Value> {
    if UI.Listed(c, txos, k) then Some(txos[k.ref].raw) else None
  }

  /** One key's index actions, run on an absent value, end in what the ledger says. */
  lemma KeyEqualsLedger(c: UI.Config, keys: UI.UtxoKey -> Key, genesis: Genesis, chain: seq<Block>, k: UI.UtxoKey)
    requires Injective(keys) && genesis.txos == map[] && ValidChain(genesis, chain)
    ensures RunKey(None, Project(ChainActions(c, keys, genesis, chain), keys(k))) == Ok(Ledgered(c, Unspent(genesis, chain), k))
  {
    var ops := ChainActions(c, keys, genesis, chain);
    assert Mirrors(keys, map[], map[]);
    ChainMirrors(c, keys, map[], genesis, chain);
    UI.IndexEqualsLedger(c, genesis, chain);
    RunPlainAt(map[], ops, keys(k));
    hide ChainActions, RunPlain, UI.IndexAfter, Unspent, ValidChain, RunKey;
    assert Get(RunPlain(map[], ops).value, keys(k)) == Get(UI.IndexAfter(c, genesis, chain), k);
  }

  /** The blocks carry a chain's index actions; what else they do touches no index key. */
  ghost predicate Carries(c: UI.Config, keys: UI.UtxoKey -> Key, genesis: Genesis, chain: seq<Block>, blocks: seq<SR.Block>)
    requires ValidChain(genesis, chain)
  {
    forall k :: Project(SR.Ops(blocks), keys(k)) == Project(ChainActions(c, keys, genesis, chain), keys(k))
  }

  /**
   * The stored index equals the ledger: a valid chain is synced by any sequence of batched, flushed and
   * mutable blocks among the actions of other reducers, and once what is pending is flushed, every index
   * key holds the bytes of the unspent output it names, and no other index key is present.
   */
  lemma StoredIndexEqualsLedger(config: SS.Config, kinds: Key -> Kind, s: SS.Stage, blocks: seq<SR.Block>,
                                order: seq<StorageAction>, c: UI.Config, keys: UI.UtxoKey -> Key,
                                genesis: Genesis, chain: seq<Block>)
    requires s.batcher.actions == map[] && SR.ListedRun(config, s, blocks) && SoundStore(kinds, s.db.data, SR.Ops(blocks))
    requires SR.RunBlocks(config, s, blocks).Ok? ==> SB.Enumerates(order, SR.RunBlocks(config, s, blocks).value.batcher.actions)
    requires genesis.txos == map[] && ValidChain(genesis, chain) && Carries(c, keys, genesis, chain, blocks)
    requires Injective(keys) && forall k :: kinds(keys(k)) == Data && Get(s.db.data, keys(k)) == None
    ensures SR.RunBlocks(config, s, blocks).Ok?
    ensures var now := SR.RunBlocks(config, s, blocks).value;
            ApplyPlain(now.db.data, order).Ok? &&
            forall k :: Get(ApplyPlain(now.db.data, order).value, keys(k)) == Ledgered(c, Unspent(genesis, chain), k)
  {
    SR.SyncIsOneByOne(config, kinds, s, blocks, order);
    var data := ApplyPlain(SR.RunBlocks(config, s, blocks).value.db.data, order).value;
    var all := RunPlain(s.db.data, SR.Ops(blocks)).value;
    forall k ensures Get(data, keys(k)) == Ledgered(c, Unspent(genesis, chain), k) {
      KeyEqualsLedger(c, keys, genesis, chain, k);
      RunPlainAt(s.db.data, SR.Ops(blocks), keys(k));
      hide RunPlain, ApplyPlain, SR.RunBlocks, ChainActions, ValidChain, Unspent, RunKey, SoundStore;
      assert Equivalent(kinds(keys(k)), Get(all, keys(k)), Get(data, keys(k)));
    }
  }

  /** The same for a balance: through any sync the stored counter is the coins the address has unspent. */
  lemma StoredBalanceEqualsLedger(config: SS.Config, kinds: Key -> Kind, s: SS.Stage, blocks: seq<SR.Block>,
                                  order: seq<StorageAction>, c: UI.Codec, keys: Bytes -> Key, a: Bytes,
                                  genesis: Genesis, chain: seq<Block>)
    requires s.batcher.actions == map[] && SR.ListedRun(config, s, blocks) && SoundStore(kinds, s.db.data, SR.Ops(blocks))
    requires SR.RunBlocks(config, s, blocks).Ok? ==> SB.Enumerates(order, SR.RunBlocks(config, s, blocks).value.batcher.actions)
    requires genesis.txos == map[] && ValidChain(genesis, chain) && AB.ChainFits(c, a, genesis, chain)
    requires forall b :: keys(b) == keys(a) ==> b == a
    requires Project(SR.Ops(blocks), keys(a)) == Project(AB.Ops(keys, AB.ChainOutputs(c, genesis, chain)), keys(a))
    requires kinds(keys(a)) == Counter64 && Get(s.db.data, keys(a)) == None
    ensures SR.RunBlocks(config, s, blocks).Ok?
    ensures var now := SR.RunBlocks(config, s, blocks).value;
            && ApplyPlain(now.db.data, order).Ok?
            && var v := Get(ApplyPlain(now.db.data, order).value, keys(a));
            && CounterOk(Counter64, v) && Balance(Counter64, v) == AB.Coins(c, a, Unspent(genesis, chain))
  {
    SR.SyncIsOneByOne(config, kinds, s, blocks, order);
    AB.BalanceEqualsLedger(c, keys, a, genesis, chain);
    RunPlainAt(s.db.data, SR.Ops(blocks), keys(a));
    var data := ApplyPlain(SR.RunBlocks(config, s, blocks).value.db.data, order).value;
    var all := RunPlain(s.db.data, SR.Ops(blocks)).value;
    hide RunPlain, ApplyPlain, SR.RunBlocks, AB.ChainOutputs, ValidChain, Unspent, RunKey, AB.Coins, Balance, CounterOk;
    assert Equivalent(kinds(keys(a)), Get(all, keys(a)), Get(data, keys(a)));
  }
}
