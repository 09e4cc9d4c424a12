/** Merged, unordered, prefetched batches refine one-by-one execution. */
module Confluence {
  import opened Wrappers
  import opened Bytes
  import opened StorageActions
  import opened Database
  import opened Executor
  import opened SyncBatcher

  // ---- Counters ----

  predicate CounterOk(kind: Kind, v: Option<Value>) {
    v.None? || |v.value| >= Width(kind)
  }

  /** A counter's balance: an absent key reads as zero. */
  function Balance(kind: Kind, v: Option<Value>): (n: nat)
    requires CounterOk(kind, v)
    ensures n < Limit(kind)
  {
    Pow256Widths();
    if v.None? then 0 else Amount(v.value, Width(kind))
  }

  function Sum(ops: seq<StorageAction>): int {
    if ops == [] then 0 else Delta(ops[0]) + Sum(ops[1..])
  }

  /** Every prefix leaves a balance that is representable and not negative. */
  predicate Bounded(kind: Kind, balance: int, ops: seq<StorageAction>)
    decreases |ops|
  {
    ops == [] ||
    (0 <= balance + Delta(ops[0]) < Limit(kind) && Bounded(kind, balance + Delta(ops[0]), ops[1..]))
  }

  predicate Sound(kind: Kind, v: Option<Value>, ops: seq<StorageAction>) {
    && (forall i :: 0 <= i < |ops| ==> KindOf(ops[i]) == kind)
    && (kind != Data ==> CounterOk(kind, v) && Bounded(kind, Balance(kind, v), ops))
  }

  lemma AddReads(v: Option<Value>, d: nat, width: nat)
    requires v.None? || |v.value| >= width
    requires (if v.None? then 0 else Amount(v.value, width)) + d < Pow256(width)
    ensures AddWrite(v, d, width).Ok? && AddWrite(v, d, width).value.Put?
    ensures var b := AddWrite(v, d, width).value.value;
            |b| == width && b[..width] == b &&
            FromBigEndian(b) == (if v.None? then 0 else Amount(v.value, width)) + d
  {
  }

  lemma SubReads(v: Option<Value>, d: nat, width: nat, deleteAtZero: bool)
    requires v.Some? && |v.value| >= width && d <= Amount(v.value, width)
    ensures SubWrite(v, d, width, deleteAtZero).Ok?
    ensures var w := SubWrite(v, d, width, deleteAtZero).value;
            if w.Put? then
              |w.value| == width && w.value[..width] == w.value &&
              FromBigEndian(w.value) == Amount(v.value, width) - d
            else
              w.Remove? && d == Amount(v.value, width)
  {
  }

  lemma StepCounter(kind: Kind, v: Option<Value>, op: StorageAction)
    requires kind != Data && KindOf(op) == kind && CounterOk(kind, v)
    requires 0 <= Balance(kind, v) + Delta(op) < Limit(kind)
    ensures Step(v, op).Ok?
    ensures CounterOk(kind, Step(v, op).value)
    ensures Balance(kind, Step(v, op).value) == Balance(kind, v) + Delta(op)
  {
    hide ToBigEndian, FromBigEndian, Pow256;
    Pow256Widths();
    if Delta(op) > 0 {
      AddReads(v, Delta(op), Width(kind));
    } else if Delta(op) < 0 {
      SubReads(v, 0 - Delta(op), Width(kind), kind == Counter64);
    }
  }

  lemma {:induction false} RunCounter(kind: Kind, v: Option<Value>, ops: seq<StorageAction>)
    requires kind != Data && Sound(kind, v, ops)
    ensures RunKey(v, ops).Ok?
    ensures CounterOk(kind, RunKey(v, ops).value)
    ensures Balance(kind, RunKey(v, ops).value) == Balance(kind, v) + Sum(ops)
    decreases |ops|
  {
    hide ToBigEndian, FromBigEndian, Pow256;
    if ops != [] {
      StepCounter(kind, v, ops[0]);
      RunCounter(kind, Step(v, ops[0]).value, ops[1..]);
    }
  }

  /**
   * The merged delta is the signed balance change since the batch began, so no addition or
   * subtraction in `Merge` wraps, over any number of merged actions.
   */
  lemma {:induction false} MergedDeltaIsBalanceChange(kind: Kind, start: nat, acc: StorageAction, ops: seq<StorageAction>)
    requires kind != Data && KindOf(acc) == kind
    requires start < Limit(kind) && 0 <= start + Delta(acc) < Limit(kind)
    requires forall i :: 0 <= i < |ops| ==> KindOf(ops[i]) == kind && ops[i].key == acc.key
    requires Bounded(kind, start + Delta(acc), ops)
    ensures MergeFrom(acc, ops).Ok?
    ensures Delta(MergeFrom(acc, ops).value) == Delta(acc) + Sum(ops)
    ensures 0 <= start + Delta(MergeFrom(acc, ops).value) < Limit(kind)
    decreases |ops|
  {
    if ops != [] {
      MergeAddsDeltas(acc, ops[0]);
      MergedDeltaIsBalanceChange(kind, start, Merge(acc, ops[0]).value, ops[1..]);
    }
  }

  // ---- Set / Delete / Insert ----

  lemma {:induction false} DataMerge(v: Option<Value>, acc: StorageAction, ops: seq<StorageAction>)
    requires KindOf(acc) == Data
    requires forall i :: 0 <= i < |ops| ==> KindOf(ops[i]) == Data && ops[i].key == acc.key
    ensures MergeFrom(acc, ops).Ok?
    ensures Step(v, acc).Ok?
    ensures RunKey(Step(v, acc).value, ops) == Step(v, MergeFrom(acc, ops).value)
    decreases |ops|
  {
    if ops != [] {
      DataMerge(v, Merge(acc, ops[0]).value, ops[1..]);
    }
  }

  // ---- One key, one batch ----

  predicate Equivalent(kind: Kind, a: Option<Value>, b: Option<Value>) {
    if kind == Data then a == b
    else CounterOk(kind, a) && CounterOk(kind, b) && Balance(kind, a) == Balance(kind, b)
  }

  function StepMerged(v: Option<Value>, m: Option<StorageAction>, withInverse: bool): Outcome<Option<Value>> {
    if m.None? then Ok(v)
    else if withInverse then StepInverse(v, m.value)
    else Step(v, m.value)
  }

  lemma StepInverseCounter(kind: Kind, v: Option<Value>, op: StorageAction)
    requires kind != Data && KindOf(op) == kind && CounterOk(kind, v)
    requires 0 <= Balance(kind, v) + Delta(op) < Limit(kind)
    ensures StepInverse(v, op).Ok?
    ensures CounterOk(kind, StepInverse(v, op).value)
    ensures Balance(kind, StepInverse(v, op).value) == Balance(kind, v) + Delta(op)
  {
    hide ToBigEndian, FromBigEndian, Pow256;
    Pow256Widths();
    match op
    case IncrementU64(_, d) => AddReads(v, d, 8);
    case IncrementU128(_, d) => AddReads(v, d, 16);
    case DecrementU64(_, d) => if v.Some? { SubReads(v, d, 8, true); }
    case DecrementU128NoDelete(_, d) => if v.Some? { SubReads(v, d, 16, false); }
  }

  /** The two executors agree up to the zero the inverse one may store on an absent counter. */
  lemma ExecutorsAgree(kind: Kind, v: Option<Value>, op: StorageAction)
    requires KindOf(op) == kind
    requires kind != Data ==> CounterOk(kind, v) && 0 <= Balance(kind, v) + Delta(op) < Limit(kind)
    ensures Step(v, op).Ok? && StepInverse(v, op).Ok?
    ensures Equivalent(kind, Step(v, op).value, StepInverse(v, op).value)
  {
    if kind != Data {
      StepCounter(kind, v, op);
      StepInverseCounter(kind, v, op);
    }
  }

  lemma MergedDelta(kind: Kind, v: Option<Value>, ops: seq<StorageAction>, k: Key)
    requires kind != Data && Sound(kind, v, ops) && ops != []
    requires forall i :: 0 <= i < |ops| ==> ops[i].key == k
    ensures CounterOk(kind, v)
    ensures MergeFrom(ops[0], ops[1..]).Ok?
    ensures var m := MergeFrom(ops[0], ops[1..]).value;
            KindOf(m) == kind && Delta(m) == Sum(ops) && 0 <= Balance(kind, v) + Delta(m) < Limit(kind)
  {
    hide ToBigEndian, FromBigEndian, Pow256, Amount, Merge, MergeFrom, Balance, Delta, KindOf;
    var b := Balance(kind, v);
    assert 0 <= b + Delta(ops[0]) < Limit(kind) && Bounded(kind, b + Delta(ops[0]), ops[1..]);
    assert Sum(ops) == Delta(ops[0]) + Sum(ops[1..]);
    hide *;
    MergedDeltaIsBalanceChange(kind, b, ops[0], ops[1..]);
  }

  lemma CounterKeyConfluence(kind: Kind, v: Option<Value>, v': Option<Value>, ops: seq<StorageAction>, k: Key)
    requires kind != Data && Sound(kind, v, ops) && Equivalent(kind, v, v') && ops != []
    requires forall i :: 0 <= i < |ops| ==> ops[i].key == k
    ensures RunKey(v, ops).Ok?
    ensures MergeFrom(ops[0], ops[1..]).Ok?
    ensures var m := MergeFrom(ops[0], ops[1..]).value;
            0 <= Balance(kind, v') + Delta(m) < Limit(kind) && Step(v', m).Ok? &&
            Equivalent(kind, RunKey(v, ops).value, Step(v', m).value)
  {
    hide Step, RunKey, MergeFrom, Sound, Balance, Sum, Delta, Limit, CounterOk;
    RunCounter(kind, v, ops);
    MergedDelta(kind, v, ops, k);
    StepCounter(kind, v', MergeFrom(ops[0], ops[1..]).value);
  }

  lemma KeyConfluence(kind: Kind, v: Option<Value>, v': Option<Value>, ops: seq<StorageAction>, k: Key, inv: bool)
    requires Sound(kind, v, ops) && Equivalent(kind, v, v')
    requires forall i :: 0 <= i < |ops| ==> ops[i].key == k
    ensures RunKey(v, ops).Ok?
    ensures MergedKey(None, ops).Ok?
    ensures StepMerged(v', MergedKey(None, ops).value, inv).Ok?
    ensures Equivalent(kind, RunKey(v, ops).value, StepMerged(v', MergedKey(None, ops).value, inv).value)
  {
    if ops != [] {
      if kind == Data {
        DataMerge(v, ops[0], ops[1..]);
      } else {
        CounterKeyConfluence(kind, v, v', ops, k);
      }
      ExecutorsAgree(kind, v', MergeFrom(ops[0], ops[1..]).value);
    }
  }

  // ---- Whole stores, any number of batches ----

  ghost predicate EquivalentStores(kinds: Key -> Kind, s: Store, t: Store) {
    forall k :: Equivalent(kinds(k), Get(s, k), Get(t, k))
  }

  ghost predicate SoundStore(kinds: Key -> Kind, s: Store, ops: seq<StorageAction>) {
    forall k :: Sound(kinds(k), Get(s, k), Project(ops, k))
  }

  /**
   * Actions executed as one batch, the order the hash map gave the merged actions in, and whether
   * they run with inverses (a mutable block) or without (an immutable batch).
   */
  datatype Flush = Flush(actions: seq<StorageAction>, order: seq<StorageAction>, withInverse: bool)

  ghost predicate ValidFlush(f: Flush) {
    PushAll(map[], f.actions).Ok? ==> Enumerates(f.order, PushAll(map[], f.actions).value)
  }

  function ApplyFlush(s: Store, f: Flush): Outcome<Store> {
    if f.withInverse then
      var u :- ApplyInverse(s, f.order);
      Ok(u.data)
    else ApplyPlain(s, f.order)
  }

  function RunFlushes(s: Store, fs: seq<Flush>): Outcome<Store>
    decreases |fs|
  {
    if fs == [] then Ok(s)
    else
      var _ :- PushAll(map[], fs[0].actions);
      var next :- ApplyFlush(s, fs[0]);
      RunFlushes(next, fs[1..])
  }

  function AllActions(fs: seq<Flush>): seq<StorageAction> {
    if fs == [] then [] else fs[0].actions + AllActions(fs[1..])
  }

  /** A listed batch acts on every key with that key's merged action, in whatever order. */
  lemma BatchAt(t: Store, f: Flush, m: Batch)
    requires Keyed(m) && Enumerates(f.order, m)
    requires forall k :: StepMerged(Get(t, k), Get(m, k), f.withInverse).Ok?
    ensures ApplyFlush(t, f).Ok?
    ensures forall k :: StepMerged(Get(t, k), Get(m, k), f.withInverse) == Ok(Get(ApplyFlush(t, f).value, k))
  {
    if f.withInverse {
      InverseListAt(t, f, m);
    } else {
      PlainListAt(t, f, m);
    }
  }

  lemma PlainListAt(t: Store, f: Flush, m: Batch)
    requires Keyed(m) && Enumerates(f.order, m) && !f.withInverse
    requires forall k :: StepMerged(Get(t, k), Get(m, k), false).Ok?
    ensures ApplyFlush(t, f).Ok?
    ensures forall k :: StepMerged(Get(t, k), Get(m, k), false) == Ok(Get(ApplyFlush(t, f).value, k))
  {
    PrefetchTransparent(t, Prefetch(t, f.order, false), f.order);
    forall k ensures RunKey(Get(t, k), Project(f.order, k)) == StepMerged(Get(t, k), Get(m, k), false) {
      EnumerationAt(f.order, m, k);
    }
    forall k ensures RunKey(Get(t, k), Project(f.order, k)).Ok? {
      assert StepMerged(Get(t, k), Get(m, k), false).Ok?;
    }
    RunPlainDefined(t, f.order);
    forall k ensures StepMerged(Get(t, k), Get(m, k), false) == Ok(Get(ApplyFlush(t, f).value, k)) {
      RunPlainAt(t, f.order, k);
    }
  }

  lemma InverseListAt(t: Store, f: Flush, m: Batch)
    requires Keyed(m) && Enumerates(f.order, m) && f.withInverse
    requires forall k :: StepMerged(Get(t, k), Get(m, k), true).Ok?
    ensures ApplyFlush(t, f).Ok?
    ensures forall k :: StepMerged(Get(t, k), Get(m, k), true) == Ok(Get(ApplyFlush(t, f).value, k))
  {
    forall a | a in f.order ensures Get(m, a.key) == Some(a) && StepInverse(Get(t, a.key), a).Ok? {
      assert StepMerged(Get(t, a.key), Get(m, a.key), true).Ok?;
    }
    InverseBatchAt(t, Prefetch(t, f.order, true), f.order);
    forall k ensures StepMerged(Get(t, k), Get(m, k), true) == Ok(Get(ApplyFlush(t, f).value, k)) {
      if k in m {
        assert m[k] in f.order;
      }
    }
  }

  lemma OneFlush(kinds: Key -> Kind, s: Store, t: Store, f: Flush)
    requires EquivalentStores(kinds, s, t) && SoundStore(kinds, s, f.actions) && ValidFlush(f)
    ensures RunPlain(s, f.actions).Ok?
    ensures PushAll(map[], f.actions).Ok?
    ensures ApplyFlush(t, f).Ok?
    ensures EquivalentStores(kinds, RunPlain(s, f.actions).value, ApplyFlush(t, f).value)
  {
    var empty: Batch := map[];
    forall k
      ensures RunKey(Get(s, k), Project(f.actions, k)).Ok?
      ensures MergedKey(Get(empty, k), Project(f.actions, k)).Ok?
    {
      assert Sound(kinds(k), Get(s, k), Project(f.actions, k)) && Equivalent(kinds(k), Get(s, k), Get(t, k));
      KeyConfluence(kinds(k), Get(s, k), Get(t, k), Project(f.actions, k), k, f.withInverse);
    }
    RunPlainDefined(s, f.actions);
    PushAllDefined(empty, f.actions);
    var m := PushAll(empty, f.actions).value;
    forall k
      ensures StepMerged(Get(t, k), Get(m, k), f.withInverse).Ok?
      ensures Equivalent(kinds(k), Get(RunPlain(s, f.actions).value, k), StepMerged(Get(t, k), Get(m, k), f.withInverse).value)
    {
      assert Sound(kinds(k), Get(s, k), Project(f.actions, k)) && Equivalent(kinds(k), Get(s, k), Get(t, k));
      KeyConfluence(kinds(k), Get(s, k), Get(t, k), Project(f.actions, k), k, f.withInverse);
      PushAllAt(empty, f.actions, k);
      RunPlainAt(s, f.actions, k);
    }
    BatchAt(t, f, m);
  }

  lemma {:induction false} SoundSplit(kind: Kind, v: Option<Value>, a: seq<StorageAction>, b: seq<StorageAction>)
    requires Sound(kind, v, a + b)
    ensures Sound(kind, v, a)
    ensures RunKey(v, a).Ok? ==> Sound(kind, RunKey(v, a).value, b)
    decreases |a|
  {
    hide ToBigEndian, FromBigEndian, Pow256;
    assert forall i :: 0 <= i < |a| ==> a[i] == (a + b)[i];
    assert forall i :: 0 <= i < |b| ==> b[i] == (a + b)[|a| + i];
    if a == [] {
      assert a + b == b;
    } else if kind != Data {
      assert (a + b)[1..] == a[1..] + b;
      StepCounter(kind, v, a[0]);
      SoundSplit(kind, Step(v, a[0]).value, a[1..], b);
    }
  }

  /**
   * Any split of a sound action sequence into batches, each merged and executed in any order with
   * prefetched values, ends in the same store as one-by-one execution: exactly for
   * Set/Delete/Insert keys, with an absent counter read as zero for counter keys. No merge panics
   * and no executor fails on the way.
   */
  lemma {:induction false} BatchConfluence(kinds: Key -> Kind, s: Store, t: Store, fs: seq<Flush>)
    requires EquivalentStores(kinds, s, t)
    requires SoundStore(kinds, s, AllActions(fs))
    requires forall i :: 0 <= i < |fs| ==> ValidFlush(fs[i])
    ensures RunPlain(s, AllActions(fs)).Ok?
    ensures RunFlushes(t, fs).Ok?
    ensures EquivalentStores(kinds, RunPlain(s, AllActions(fs)).value, RunFlushes(t, fs).value)
    decreases |fs|
  {
    if fs != [] {
      var head, rest := fs[0].actions, AllActions(fs[1..]);
      forall k ensures Sound(kinds(k), Get(s, k), Project(head, k)) {
        assert Sound(kinds(k), Get(s, k), Project(head + rest, k));
        ProjectConcat(head, rest, k);
        SoundSplit(kinds(k), Get(s, k), Project(head, k), Project(rest, k));
      }
      OneFlush(kinds, s, t, fs[0]);
      var s', t' := RunPlain(s, head).value, ApplyFlush(t, fs[0]).value;
      forall k ensures Sound(kinds(k), Get(s', k), Project(rest, k)) {
        assert Sound(kinds(k), Get(s, k), Project(head + rest, k));
        ProjectConcat(head, rest, k);
        SoundSplit(kinds(k), Get(s, k), Project(head, k), Project(rest, k));
        RunPlainAt(s, head, k);
      }
      BatchConfluence(kinds, s', t', fs[1..]);
      RunPlainConcat(s, head, rest);
    }
  }

  // ---- Where merging is exact ----

  function Stored(kind: Kind, balance: nat): Option<Value>
    requires kind != Data && balance < Limit(kind)
  {
    Pow256Widths();
    if kind == Counter64 && balance == 0 then None else Some(ToBigEndian(balance, Width(kind)))
  }

  predicate Changes(ops: seq<StorageAction>) {
    ops != [] && (Delta(ops[0]) != 0 || Changes(ops[1..]))
  }

  /** After one real change a counter is stored in its one normal form. */
  lemma {:induction false} RunNormalises(kind: Kind, v: Option<Value>, ops: seq<StorageAction>)
    requires kind != Data && Sound(kind, v, ops)
    ensures 0 <= Balance(kind, v) + Sum(ops) < Limit(kind)
    ensures RunKey(v, ops) == Ok(if Changes(ops) then Stored(kind, Balance(kind, v) + Sum(ops)) else v)
    ensures !Changes(ops) ==> Sum(ops) == 0
    decreases |ops|
  {
    hide ToBigEndian, FromBigEndian, Pow256;
    if ops != [] {
      StepCounter(kind, v, ops[0]);
      RunNormalises(kind, Step(v, ops[0]).value, ops[1..]);
      if Delta(ops[0]) != 0 {
        StepNormalises(kind, v, ops[0]);
      } else {
        assert Step(v, ops[0]) == Ok(v);
      }
    }
  }

  lemma StepNormalises(kind: Kind, v: Option<Value>, op: StorageAction)
    requires kind != Data && KindOf(op) == kind && CounterOk(kind, v) && Delta(op) != 0
    requires 0 <= Balance(kind, v) + Delta(op) < Limit(kind)
    ensures Step(v, op) == Ok(Stored(kind, Balance(kind, v) + Delta(op)))
  {
    hide ToBigEndian, FromBigEndian, Pow256;
    Pow256Widths();
  }

  /** The stored form that a net-zero merge leaves alone but one-by-one execution rewrites. */
  function Lossy(kind: Kind): Option<Value> {
    if kind == Counter64 then Some(ToBigEndian(0, Width(kind))) else None
  }

  /**
   * With the plain executor presence of a counter key is also preserved exactly, except in one
   * case: the deltas cancel out, at least one was not zero, and the key held a stored zero (64-bit)
   * or was absent (128-bit, so the marker that an asset once existed is lost).
   */
  lemma NetZeroIsTheOnlyLoss(kind: Kind, v: Option<Value>, ops: seq<StorageAction>, k: Key)
    requires kind != Data && Sound(kind, v, ops) && ops != []
    requires forall i :: 0 <= i < |ops| ==> ops[i].key == k
    requires v.Some? ==> |v.value| == Width(kind)
    ensures MergeFrom(ops[0], ops[1..]).Ok?
    ensures RunKey(v, ops) == Step(v, MergeFrom(ops[0], ops[1..]).value) <==>
            !(v == Lossy(kind) && Sum(ops) == 0 && Changes(ops))
  {
    hide *;
    MergedDelta(kind, v, ops, k);
    RunNormalises(kind, v, ops);
    LossCase(kind, v, MergeFrom(ops[0], ops[1..]).value, Changes(ops));
  }

  lemma LossCase(kind: Kind, v: Option<Value>, m: StorageAction, changes: bool)
    requires kind != Data && KindOf(m) == kind
    requires v.Some? ==> |v.value| == Width(kind)
    requires 0 <= Balance(kind, v) + Delta(m) < Limit(kind)
    requires !changes ==> Delta(m) == 0
    ensures Ok(if changes then Stored(kind, Balance(kind, v) + Delta(m)) else v) == Step(v, m) <==>
            !(v == Lossy(kind) && Delta(m) == 0 && changes)
  {
    hide ToBigEndian, FromBigEndian, Pow256;
    if Delta(m) != 0 {
      StepNormalises(kind, v, m);
    } else {
      assert Step(v, m) == Ok(v);
      StoredForm(kind, v);
    }
  }

  lemma StoredForm(kind: Kind, v: Option<Value>)
    requires kind != Data
    requires v.Some? ==> |v.value| == Width(kind)
    ensures v == Stored(kind, Balance(kind, v)) <==> v != Lossy(kind)
  {
    Pow256Widths();
    if v.Some? {
      assert v.value[..Width(kind)] == v.value;
      FromBigEndianInjective(v.value, ToBigEndian(Balance(kind, v), Width(kind)));
    }
  }

  /** Where the executor with inverses, which writes zero deltas too, leaves another stored form. */
  predicate InverseLossy(v: Option<Value>, m: StorageAction, changes: bool)
    requires KindOf(m) != Data
  {
    Delta(m) == 0 &&
    match m
    case IncrementU64(_, _) => v == None || (v == Lossy(Counter64) && changes)
    case DecrementU64(_, _) => v == Lossy(Counter64) && !changes
    case IncrementU128(_, _) => v == None && !changes
    case DecrementU128NoDelete(_, _) => v == None && changes
  }

  /** The executor with inverses preserves presence exactly iff the merged action is not one of those. */
  lemma InverseNetZeroIsTheOnlyLoss(kind: Kind, v: Option<Value>, ops: seq<StorageAction>, k: Key)
    requires kind != Data && Sound(kind, v, ops) && ops != []
    requires forall i :: 0 <= i < |ops| ==> ops[i].key == k
    requires v.Some? ==> |v.value| == Width(kind)
    ensures MergeFrom(ops[0], ops[1..]).Ok? && KindOf(MergeFrom(ops[0], ops[1..]).value) == kind
    ensures var m := MergeFrom(ops[0], ops[1..]).value;
            RunKey(v, ops) == StepInverse(v, m) <==> !InverseLossy(v, m, Changes(ops))
  {
    hide *;
    MergedDelta(kind, v, ops, k);
    RunNormalises(kind, v, ops);
    InverseLossCase(kind, v, MergeFrom(ops[0], ops[1..]).value, Changes(ops));
  }

  lemma InverseLossCase(kind: Kind, v: Option<Value>, m: StorageAction, changes: bool)
    requires kind != Data && KindOf(m) == kind
    requires v.Some? ==> |v.value| == Width(kind)
    requires 0 <= Balance(kind, v) + Delta(m) < Limit(kind)
    requires !changes ==> Delta(m) == 0
    ensures Ok(if changes then Stored(kind, Balance(kind, v) + Delta(m)) else v) == StepInverse(v, m) <==>
            !InverseLossy(v, m, changes)
  {
    hide ToBigEndian, FromBigEndian, Pow256;
    InverseForm(kind, v, m);
    StoredForm(kind, v);
  }

  /** What that executor stores: the normal form, but a zero for a zero increment. */
  lemma InverseForm(kind: Kind, v: Option<Value>, m: StorageAction)
    requires kind != Data && KindOf(m) == kind
    requires v.Some? ==> |v.value| == Width(kind)
    requires 0 <= Balance(kind, v) + Delta(m) < Limit(kind)
    ensures StepInverse(v, m) == Ok(
              if m.IncrementU64? && Delta(m) == 0 then (if v.None? then Lossy(kind) else v)
              else if m.DecrementU128NoDelete? && v.None? then v
              else Stored(kind, Balance(kind, v) + Delta(m)))
  {
    hide ToBigEndian, FromBigEndian, Pow256;
    Pow256Widths();
    if v.Some? {
      assert v.value[..Width(kind)] == v.value;
      SameBytes(v.value, Width(kind));
    }
  }

  lemma SameBytes(b: Value, width: nat)
    requires |b| == width
    ensures ToBigEndian(FromBigEndian(b), width) == b
  {
    FromBigEndianInjective(b, ToBigEndian(FromBigEndian(b), width));
  }

  /** A batch that mints and burns one asset leaves no trace; block by block a zero stays behind. */
  lemma MintAndBurnVanishes(k: Key, n: U128)
    requires n > 0
    ensures var mint, burn := IncrementU128(k, n), DecrementU128NoDelete(k, n);
            Sound(Counter128, None, [mint, burn]) && MergeFrom(mint, [burn]).Ok? &&
            RunKey(None, [mint, burn]) == Ok(Stored(Counter128, 0)) &&
            Step(None, MergeFrom(mint, [burn]).value) == Ok(None)
  {
    var mint, burn := IncrementU128(k, n), DecrementU128NoDelete(k, n);
    assert [mint, burn][1..] == [burn] && [burn][1..] == [];
    assert Bounded(Counter128, 0, [mint, burn]);
    RunNormalises(Counter128, None, [mint, burn]);
    assert Sum([mint, burn]) == n + Sum([burn]) == 0;
    assert MergeFrom(mint, [burn]) == MergeFrom(Merge(mint, burn).value, []);
  }

  /** Receiving and spending in one mutable block leaves a stored zero; one by one nothing is left. */
  lemma ReceiveAndSpendLeavesZero(k: Key, n: U64)
    requires n > 0
    ensures var gain, spend := IncrementU64(k, n), DecrementU64(k, n);
            Sound(Counter64, None, [gain, spend]) && MergeFrom(gain, [spend]).Ok? &&
            RunKey(None, [gain, spend]) == Ok(None) &&
            StepInverse(None, MergeFrom(gain, [spend]).value) == Ok(Lossy(Counter64))
  {
    var gain, spend := IncrementU64(k, n), DecrementU64(k, n);
    assert [gain, spend][1..] == [spend] && [spend][1..] == [];
    assert Bounded(Counter64, 0, [gain, spend]);
    RunNormalises(Counter64, None, [gain, spend]);
    assert Sum([gain, spend]) == n + Sum([spend]) == 0;
    assert MergeFrom(gain, [spend]) == MergeFrom(Merge(gain, spend).value, []);
  }
}
