/**
 * Memory and metadata are newest-first prefixes of one undo history: what a reload gives back of it,
 * and how roll-forwards, roll-backs, collection and trimming keep both prefixes.
 */
module BufferAgreement {
  import opened Wrappers
  import opened Bytes
  import opened Points
  import opened StorageActions
  import opened Database
  import opened StorageStage
  import opened PersistentBuffer
  import opened RollbackExactness
  import opened Executor
  import SB = SyncBatcher
  import RB = RollbackBuffer

  // ---- Metadata that a reload can see ----

  function Visible(meta: Metadata): Metadata {
    WithoutSlots(meta, 0, 1)
  }

  ghost predicate SameVisible(a: Metadata, b: Metadata) {
    Visible(a) == Visible(b)
  }

  lemma SameVisibleAt(a: Metadata, b: Metadata)
    ensures SameVisible(a, b) <==> forall k: MetaKey :: k.slot > 0 ==> Get(a, k) == Get(b, k)
  {
    if SameVisible(a, b) {
      forall k: MetaKey | k.slot > 0 ensures Get(a, k) == Get(b, k) {
        assert Get(Visible(a), k) == Get(Visible(b), k);
      }
    }
    if forall k: MetaKey :: k.slot > 0 ==> Get(a, k) == Get(b, k) {
      assert forall k :: k in Visible(a) ==> Get(a, k) == Get(b, k);
      assert forall k :: k in Visible(b) ==> Get(a, k) == Get(b, k);
      assert Visible(a) == Visible(b);
    }
  }

  lemma VisiblePlus(a: Metadata, b: Metadata, x: Metadata)
    requires SameVisible(a, b)
    ensures SameVisible(a + x, b + x)
  {
    SameVisibleAt(a, b);
    SameVisibleAt(a + x, b + x);
    forall k: MetaKey | k.slot > 0 ensures Get(a + x, k) == Get(b + x, k) {
      assert Get(a, k) == Get(b, k);
    }
  }

  lemma VisibleWithout(a: Metadata, b: Metadata, from: nat, to: nat)
    requires SameVisible(a, b)
    ensures SameVisible(WithoutSlots(a, from, to), WithoutSlots(b, from, to))
  {
    SameVisibleAt(a, b);
    SameVisibleAt(WithoutSlots(a, from, to), WithoutSlots(b, from, to));
    forall k: MetaKey | k.slot > 0 ensures Get(WithoutSlots(a, from, to), k) == Get(WithoutSlots(b, from, to), k) {
      assert Get(a, k) == Get(b, k);
    }
  }

  // ---- Removing slots from a persisted history ----

  lemma EntrySlots(e: Entry, k: MetaKey)
    requires k in EntryMeta(e)
    ensures e.point.Specific? && k.slot == e.point.slot
  {
    MetaOfAt(e.point.slot, e.point.hash, e.result, k);
  }

  lemma WithoutEntry(rest: Metadata, e: Entry, from: nat, to: nat)
    ensures WithoutSlots(rest + EntryMeta(e), from, to) ==
            WithoutSlots(rest, from, to)
            + (if e.point.Specific? && from <= e.point.slot < to then map[] else EntryMeta(e))
  {
    forall k | k in EntryMeta(e) ensures e.point.Specific? && k.slot == e.point.slot {
      EntrySlots(e, k);
    }
  }

  lemma {:induction false} WithoutNothing(h: seq<Entry>, from: nat, to: nat)
    requires forall i :: 0 <= i < |h| ==> h[i].point.Origin? || !(from <= h[i].point.slot < to)
    ensures WithoutSlots(Persist(h), from, to) == Persist(h)
  {
    if h != [] {
      WithoutNothing(h[1..], from, to);
      WithoutEntry(Persist(h[1..]), h[0], from, to);
    }
  }

  lemma {:induction false} WithoutEverything(h: seq<Entry>, from: nat, to: nat)
    requires forall i :: 0 <= i < |h| ==> h[i].point.Origin? || from <= h[i].point.slot < to
    ensures WithoutSlots(Persist(h), from, to) == map[]
  {
    if h != [] {
      WithoutEverything(h[1..], from, to);
      WithoutEntry(Persist(h[1..]), h[0], from, to);
    }
  }

  /** How many entries, from the newest, reach back to slot `from`. */
  function Kept(h: seq<Entry>, from: nat): (n: nat)
    ensures n <= |h|
  {
    if h == [] || h[0].point.Origin? || h[0].point.slot < from then 0 else 1 + Kept(h[1..], from)
  }

  /** Collecting old slots keeps a prefix. */
  lemma {:induction false} CollectKeepsPrefix(h: seq<Entry>, from: nat)
    requires Chain(h)
    ensures WithoutSlots(Persist(h), 0, from) == Persist(h[..Kept(h, from)])
  {
    if Kept(h, from) == 0 {
      forall i | 0 <= i < |h| ensures h[i].point.Origin? || 0 <= h[i].point.slot < from {
        if i > 0 { assert Newer(h[0], h[i]); }
      }
      WithoutEverything(h, 0, from);
    } else {
      var n := Kept(h, from);
      ChainSlice(h, 1, |h|);
      assert h[1..|h|] == h[1..];
      CollectKeepsPrefix(h[1..], from);
      WithoutEntry(Persist(h[1..]), h[0], 0, from);
      assert h[..n][1..] == h[1..][..n - 1];
    }
  }

  /** What is recent enough is kept. */
  lemma {:induction false} KeptReaches(h: seq<Entry>, from: nat, i: nat)
    requires Chain(h) && i < |h| && h[i].point.Specific? && h[i].point.slot >= from
    ensures i < Kept(h, from)
  {
    if i > 0 {
      assert Newer(h[0], h[i]);
      assert h[1..] == h[1..|h|];
      ChainSlice(h, 1, |h|);
      KeptReaches(h[1..], from, i - 1);
    }
  }

  /**
   * Trimming after a slot keeps exactly the metadata at or below it, except that after the last slot of
   * all, where the addition wraps, it keeps nothing.
   */
  lemma TrimIsExactIff(meta: Metadata, slot: U64)
    ensures (forall k: MetaKey :: k in TrimMeta(meta, slot) <==> k in meta && k.slot <= slot)
            <==> slot < 0xFFFF_FFFF_FFFF_FFFF || meta == map[]
  {
    if slot == 0xFFFF_FFFF_FFFF_FFFF && meta != map[] {
      var k :| k in meta;
      assert k !in TrimMeta(meta, slot);
    }
  }

  /** Trimming slots after a point keeps what is at or below it. */
  lemma {:induction false} TrimKeepsSuffix(h: seq<Entry>, d: nat, from: nat, to: nat)
    requires d <= |h|
    requires forall i :: 0 <= i < d ==> h[i].point.Specific? && from <= h[i].point.slot < to
    requires forall i :: d <= i < |h| ==> h[i].point.Origin? || h[i].point.slot < from
    ensures WithoutSlots(Persist(h), from, to) == Persist(h[d..])
  {
    hide WithoutSlots, EntryMeta;
    if d == 0 {
      WithoutNothing(h, from, to);
      assert h[0..] == h;
    } else {
      assert forall i :: 0 <= i < |h[1..]| ==> h[1..][i] == h[i + 1];
      TrimKeepsSuffix(h[1..], d - 1, from, to);
      WithoutEntry(Persist(h[1..]), h[0], from, to);
      assert h[1..][d - 1..] == h[d..];
    }
  }

  // ---- Reloading ----

  /** Slot-zero keys come first and leave no trace. */
  lemma {:induction false} SlotZeroIsDropped(kvs: seq<KeyValue>, meta: Metadata, actions: seq<StorageAction>)
    returns (rest: seq<KeyValue>)
    requires Listing(kvs, meta)
    ensures Listing(rest, Visible(meta))
    ensures ParseFrom(Origin, actions, kvs) == ParseFrom(Origin, [], rest)
    decreases |kvs|
  {
    if kvs == [] {
      rest := [];
      assert forall k :: k in meta ==> Lists(kvs, k);
      assert Visible(meta) == map[];
    } else if kvs[0].key.slot == 0 {
      var smaller := meta - {kvs[0].key};
      TailIsListing(kvs, meta);
      rest := SlotZeroIsDropped(kvs[1..], smaller, actions + [LoadedAction(kvs[0])]);
      assert Visible(smaller) == Visible(meta);
    } else {
      rest := kvs;
      AllVisible(kvs, meta);
    }
  }

  lemma AllVisible(kvs: seq<KeyValue>, meta: Metadata)
    requires Listing(kvs, meta) && kvs != [] && kvs[0].key.slot > 0
    ensures Visible(meta) == meta
  {
    forall k | k in meta ensures k.slot > 0 {
      assert Lists(kvs, k);
      var i :| 0 <= i < |kvs| && kvs[i].key == k;
      assert i > 0 ==> KeyLess(kvs[0].key, kvs[i].key);
    }
  }

  lemma {:induction false} StoredKept(h: seq<Entry>)
    requires Chain(h)
    ensures Stored(h) == Stored(h[..Kept(h, 1)])
  {
    if h == [] {
    } else if Kept(h, 1) == 0 {
      assert |h| > 1 ==> Newer(h[0], h[1]);
      assert Stored(h[1..]) == [];
    } else {
      ChainSlice(h, 1, |h|);
      assert h[1..|h|] == h[1..];
      StoredKept(h[1..]);
      assert h[..Kept(h, 1)][1..] == h[1..][..Kept(h[1..], 1)];
    }
  }

  lemma {:induction false} KeptArePositive(h: seq<Entry>, i: nat)
    requires i < Kept(h, 1)
    ensures h[i].point.Specific? && h[i].point.slot > 0
  {
    if i > 0 { KeptArePositive(h[1..], i - 1); }
  }

  /**
   * Reload round trip: whatever order-preserving scan is parsed, and whatever slot-zero keys lie
   * around, the surviving entries of the persisted history come back, newest first, in order.
   */
  lemma ReloadGivesHistory(kvs: seq<KeyValue>, meta: Metadata, h: seq<Entry>)
    requires Listing(kvs, meta) && Chain(h) && SameVisible(meta, Persist(h))
    ensures Flip(ParseFrom(Origin, [], kvs)) == Stored(h)
  {
    var rest := SlotZeroIsDropped(kvs, meta, []);
    var kept := h[..Kept(h, 1)];
    ChainSlice(h, 0, Kept(h, 1));
    CollectKeepsPrefix(h, 1);
    HistoryIsListed(kept);
    ListingUnique(rest, HistoryListing(kept), Visible(meta));
    forall i | 0 <= i < |kept| ensures kept[i].point.Specific? && kept[i].point.slot > 0 {
      KeptArePositive(h, i);
    }
    ParseHistory(kept);
    StoredKept(h);
  }

  lemma {:induction false} PopulateTruncates(persisted: seq<Entry>)
    ensures Populate(persisted) == RB.Truncate(Flip(persisted))
  {
    if persisted != [] {
      PopulateTruncates(persisted[..|persisted| - 1]);
    }
  }

  /** An entry comes back unchanged iff none of its recorded previous values is empty. */
  lemma ReloadedUnchanged(actions: seq<StorageAction>)
    requires forall i :: 0 <= i < |actions| ==> actions[i].Set? || actions[i].Delete?
    ensures Normalised(actions) == actions
            <==> forall i :: 0 <= i < |actions| ==> actions[i] != Set(actions[i].key, [])
  {
    if i :| 0 <= i < |actions| && actions[i] == Set(actions[i].key, []) {
      assert Normalised(actions)[i] != actions[i];
    }
  }

  lemma {:induction false} InversesArePrevious(data: Store, fetched: Store, ops: seq<StorageAction>, a: StorageAction)
    requires DistinctKeys(ops)
    requires forall op :: op in ops ==> Get(fetched, op.key) == Get(data, op.key)
    requires ExecInverse(data, fetched, ops).Ok? && a in ExecInverse(data, fetched, ops).value.inverses
    ensures a == Restore(a.key, Get(data, a.key)) && exists op :: op in ops && op.key == a.key
    decreases |ops|
  {
    hide InverseWrite;
    var op := ops[0];
    assert op in ops;
    var u := InverseWrite(Get(fetched, op.key), op).value;
    NoInverseNoChange(Get(data, op.key), op);
    var next := Commit(data, op.key, u.write);
    forall x | x in ops[1..] ensures Get(fetched - {op.key}, x.key) == Get(next, x.key) && x.key != op.key {
      assert x in ops;
    }
    if !(u.inverse.Some? && a == u.inverse.value) {
      InversesArePrevious(next, fetched - {op.key}, ops[1..], a);
      var x :| x in ops[1..] && x.key == a.key;
      assert x in ops;
    }
  }

  /** Reloaded inverses never leave an empty value where they write. */
  lemma {:induction false} NormalisedLeavesNoEmptyValue(data: Store, ops: seq<StorageAction>, k: Key)
    requires Restores(ops) && forall a :: a in ops ==> a != Set(a.key, [])
    requires Get(data, k) != Some([]) || exists a :: a in ops && a.key == k
    ensures RunPlain(data, ops).Ok? ==> Get(RunPlain(data, ops).value, k) != Some([])
    decreases |ops|
  {
    if ops != [] {
      assert ops[0] in ops;
      var next := Commit(data, ops[0].key, PlainWrite(Get(data, ops[0].key), ops[0]).value);
      NormalisedLeavesNoEmptyValue(next, ops[1..], k);
    }
  }

  /**
   * Reloaded inverses undo a block exactly iff none of the previous values they restore is empty:
   * an empty value is persisted like a deletion, and comes back as one.
   */
  lemma ReloadedUndoIsExact(data: Store, ops: seq<StorageAction>)
    requires DistinctKeys(ops) && ApplyInverse(data, ops).Ok?
    ensures var u := ApplyInverse(data, ops).value;
            RunPlain(u.data, Reverse(Normalised(u.inverses))) == Ok(data)
            <==> forall a :: a in u.inverses ==> Get(data, a.key) != Some([])
  {
    var fetched := Prefetch(data, ops, true);
    var u := ApplyInverse(data, ops).value;
    InversesRestore(data, fetched, ops);
    forall a | a in u.inverses ensures a == Restore(a.key, Get(data, a.key)) {
      InversesArePrevious(data, fetched, ops, a);
    }
    hide ApplyInverse, RunPlain, Prefetch;
    if forall a :: a in u.inverses ==> Get(data, a.key) != Some([]) {
      KeptByReload(data, u.inverses);
    } else {
      var a :| a in u.inverses && Get(data, a.key) == Some([]);
      LostByReload(u.data, u.inverses, a);
    }
  }

  lemma KeptByReload(data: Store, inverses: seq<StorageAction>)
    requires forall a :: a in inverses ==> a == Restore(a.key, Get(data, a.key)) && Get(data, a.key) != Some([])
    ensures Normalised(inverses) == inverses
  {
    forall i | 0 <= i < |inverses| ensures Normalised(inverses)[i] == inverses[i] {
      assert inverses[i] in inverses;
    }
  }

  lemma LostByReload(data: Store, inverses: seq<StorageAction>, a: StorageAction)
    requires a in inverses
    ensures var back := RunPlain(data, Reverse(Normalised(inverses)));
            back.Ok? ==> Get(back.value, a.key) != Some([])
  {
    var i :| 0 <= i < |inverses| && inverses[i] == a;
    var back := Normalised(inverses);
    assert back[i] in back && back[i].key == a.key;
    NormalisedLeavesNoEmptyValue(data, Reverse(back), a.key);
  }

  // ---- The ideal history, kept forever and never truncated ----

  function SeedEntry(last: Option<Point>): Entry {
    if last.Some? && last.value.Specific? then RB.PointWithResult(last.value, [Delete([])])
    else RB.PointWithResult(Origin, [])
  }

  function Base(s: Stage, h: seq<Entry>): seq<Entry> {
    if s.buffer == [] then [SeedEntry(s.last)] else h
  }

  function Ideal(h: seq<Entry>, s: Stage, e: Event): seq<Entry>
    requires StepEvent(s, e).Ok?
  {
    match e
    case Forward(p, ops, o) => [RB.PointWithResult(p, PrepareMutable(s, p, ops, o).value.inverses)] + Base(s, h)
    case Backward(p) => match RB.Position(h, p) case None => h case Some(i) => h[i..]
  }

  /** Memory is a prefix of the history; only the oldest entry's never-executed result may differ. */
  ghost predicate Memory(buffer: seq<Entry>, h: seq<Entry>) {
    && |buffer| <= |h|
    && (forall i :: 0 <= i < |buffer| ==> buffer[i].point == h[i].point)
    && (forall i :: 0 <= i < |buffer| && i < |h| - 1 ==> buffer[i].result == h[i].result)
  }

  /** `m` entries of the history are in the metadata. */
  ghost predicate Agree(s: Stage, h: seq<Entry>, m: nat) {
    && Chain(h) && Memory(s.buffer, h) && (s.buffer == [] ==> h == [])
    && m <= |h| && SameVisible(s.db.meta, Persist(h[..m]))
  }

  /** Visible, and at most 640 slots below the highest slot applied. */
  predicate Recent(e: Entry, top: nat) {
    e.point.Specific? && e.point.slot > 0 && e.point.slot + 640 >= top
  }

  /**
   * No entry is above `top`, and every recent one is among the `m` persisted ones. Nothing is said once
   * the last slot of all was applied, as a roll-back to it trims everything.
   */
  ghost predicate Covered(h: seq<Entry>, m: nat, top: nat) {
    && (forall i :: 0 <= i < |h| && h[i].point.Specific? ==> h[i].point.slot <= top)
    && (top < 0xFFFF_FFFF_FFFF_FFFF ==> forall i :: 0 <= i < |h| && Recent(h[i], top) ==> i < m)
  }

  function Higher(top: nat, p: Point): nat {
    if p.Specific? && p.slot > top then p.slot else top
  }

  /** New points lie after the point they extend. */
  predicate Follows(s: Stage, h: seq<Entry>, p: Point) {
    p.Specific? && Base(s, h) != [] && Precedes(Base(s, h)[0].point, p)
  }

  lemma ChainPush(e: Entry, h: seq<Entry>)
    requires Chain(h) && h != [] && e.point.Specific? && Precedes(h[0].point, e.point)
    ensures Chain([e] + h)
  {
    var h' := [e] + h;
    forall i, j | 0 <= i < j < |h'| ensures Newer(h'[i], h'[j]) {
      if i > 0 {
        assert Newer(h[i - 1], h[j - 1]);
      } else if j > 1 {
        assert Newer(h[0], h[j - 1]);
      }
    }
  }

  lemma SeedVisible(s: Stage, h: seq<Entry>, m: nat)
    requires Agree(s, h, m)
    ensures SameVisible(s.db.meta + SeedMeta(s.buffer == [], s.last),
                        Persist(Base(s, h)[..if s.buffer == [] then 1 else m]))
  {
    hide MetaOf, Visible;
    if s.buffer == [] {
      var seed := SeedEntry(s.last);
      assert Base(s, h)[..1] == [seed] && [seed][1..] == [];
      assert SeedMeta(true, s.last) == EntryMeta(seed);
      assert h[..m] == [];
      VisiblePlus(s.db.meta, map[], EntryMeta(seed));
    } else {
      assert s.db.meta + SeedMeta(false, s.last) == s.db.meta;
    }
  }

  lemma EntryMetaOf(e: Entry)
    requires e.point.Specific?
    ensures EntryMeta(e) == MetaOf(e.point.slot, e.point.hash, e.result)
  {
  }

  lemma ForwardMeta(s: Stage, h: seq<Entry>, m: nat, p: Point, inverses: seq<StorageAction>) returns (m': nat)
    requires Agree(s, h, m) && Follows(s, h, p)
    ensures var h' := [RB.PointWithResult(p, inverses)] + Base(s, h);
            m' <= |h'| && SameVisible(MutableMeta(s, p, inverses), Persist(h'[..m']))
    ensures var h', n := [RB.PointWithResult(p, inverses)] + Base(s, h), if s.buffer == [] then 1 else m;
            m' == if p.slot < 640 then n + 1 else Kept(h'[..n + 1], p.slot - 640)
  {
    hide MetaOf, Visible, Kept, EntryMeta;
    var base, n := Base(s, h), if s.buffer == [] then 1 else m;
    var e := RB.PointWithResult(p, inverses);
    var h' := [e] + base;
    var seeded := s.db.meta + SeedMeta(s.buffer == [], s.last);
    SeedVisible(s, h, m);
    var written := seeded + EntryMeta(e);
    assert EntryMeta(e) == MetaOf(p.slot, p.hash, inverses) by { EntryMetaOf(e); }
    assert h'[..n + 1] == [e] + base[..n];
    assert h'[..n + 1][1..] == base[..n];
    VisiblePlus(seeded, Persist(base[..n]), EntryMeta(e));
    m' := n + 1;
    if p.slot >= GC_SLOTS {
      var from := p.slot - GC_SLOTS;
      ChainPush(e, base);
      ChainSlice(h', 0, n + 1);
      CollectKeepsPrefix(h'[..n + 1], from);
      VisibleWithout(written, Persist(h'[..n + 1]), 0, from);
      m' := Kept(h'[..n + 1], from);
      assert h'[..n + 1][..m'] == h'[..m'];
    }
  }

  /**
   * After a mutable block both copies are prefixes of the longer history, and the persisted one still
   * reaches back 640 slots from the highest slot applied.
   */
  lemma ForwardAgrees(s: Stage, h: seq<Entry>, m: nat, e: Event, top: nat) returns (m': nat)
    requires Agree(s, h, m) && Covered(h, m, top)
    requires e.Forward? && StepEvent(s, e).Ok? && Follows(s, h, e.point)
    ensures Agree(StepEvent(s, e).value, Ideal(h, s, e), m')
    ensures Covered(Ideal(h, s, e), m', Higher(top, e.point))
  {
    var inverses := PrepareMutable(s, e.point, e.ops, e.orders).value.inverses;
    m' := ForwardMeta(s, h, m, e.point, inverses);
    var entry := RB.PointWithResult(e.point, inverses);
    ChainPush(entry, Base(s, h));
    CoveredForward(Base(s, h), if s.buffer == [] then 1 else m, top, entry, m');
  }

  lemma CoveredForward(base: seq<Entry>, n: nat, top: nat, e: Entry, m: nat)
    requires Chain([e] + base) && e.point.Specific? && n <= |base| && (base == [] || |base| == n == 1 || Covered(base, n, top))
    requires m == if e.point.slot < 640 then n + 1 else Kept(([e] + base)[..n + 1], e.point.slot - 640)
    ensures Covered([e] + base, m, Higher(top, e.point))
  {
    var h, top' := [e] + base, Higher(top, e.point);
    forall i | 0 <= i < |h| && h[i].point.Specific? ensures h[i].point.slot <= top' {
      if i > 0 { assert Newer(h[0], h[i]); }
    }
    if top' < 0xFFFF_FFFF_FFFF_FFFF {
      forall i | 0 <= i < |h| && Recent(h[i], top') ensures i < m {
        assert i > 0 ==> h[i] == base[i - 1];
        assert i < n + 1;
        if e.point.slot >= 640 {
          ChainSlice(h, 0, n + 1);
          assert h[0..n + 1] == h[..n + 1];
          KeptReaches(h[..n + 1], e.point.slot - 640, i);
        }
      }
    }
  }

  lemma BackMeta(s: Stage, h: seq<Entry>, m: nat, i: nat) returns (m': nat)
    requires Agree(s, h, m) && i < |h|
    ensures m' <= |h[i..]| && SameVisible(TrimMeta(s.db.meta, SlotOrDefault(h[i].point)), Persist(h[i..][..m']))
    ensures 0 < SlotOrDefault(h[i].point) < 0xFFFF_FFFF_FFFF_FFFF && i <= m ==> m' == m - i
  {
    hide MetaOf, Visible, Persist;
    var g := h[..m];
    var slot := SlotOrDefault(h[i].point);
    var from := AfterSlot(slot);
    VisibleWithout(s.db.meta, Persist(g), from, TWO_64);
    if slot + 1 == TWO_64 || slot == 0 {
      NothingVisible(s.db.meta, from);
      m' := 0;
      assert h[i..][..0] == [];
    } else {
      var d := if m <= i then m else i;
      forall j | 0 <= j < d ensures g[j].point.Specific? && from <= g[j].point.slot < TWO_64 {
        assert Newer(h[j], h[i]);
      }
      forall j | d <= j < m ensures g[j].point.Origin? || g[j].point.slot < from {
        if j > i { assert Newer(h[i], h[j]); }
      }
      TrimKeepsSuffix(g, d, from, TWO_64);
      m' := m - d;
      assert g[d..] == h[i..][..m'];
    }
  }

  lemma NothingVisible(meta: Metadata, from: nat)
    requires from <= 1
    ensures SameVisible(WithoutSlots(meta, from, TWO_64), Persist([]))
  {
    assert Visible(WithoutSlots(meta, from, TWO_64)) == map[];
  }

  /** A roll-back keeps both copies prefixes of what is left, and loses no recent persisted entry. */
  lemma BackAgrees(s: Stage, h: seq<Entry>, m: nat, p: Point, top: nat) returns (m': nat)
    requires Agree(s, h, m) && Covered(h, m, top) && Back(s, p).Ok?
    ensures Agree(Back(s, p).value, Ideal(h, s, Backward(p)), m')
    ensures Covered(Ideal(h, s, Backward(p)), m', top)
  {
    hide ApplyPlain, WithoutSlots, Persist, Visible, UndoList;
    var i := RB.Position(s.buffer, p).value;
    SamePosition(s.buffer, h, p);
    m' := BackMeta(s, h, m, i);
    assert h[i..] == h[i..|h|];
    ChainSlice(h, i, |h|);
    CoveredBack(h, m, top, i, m');
  }

  lemma CoveredBack(h: seq<Entry>, m: nat, top: nat, i: nat, m': nat)
    requires Chain(h) && i < |h| && Covered(h, m, top)
    requires 0 < SlotOrDefault(h[i].point) < 0xFFFF_FFFF_FFFF_FFFF && i <= m ==> m' == m - i
    ensures Covered(h[i..], m', top)
  {
    var g := h[i..];
    if top < 0xFFFF_FFFF_FFFF_FFFF {
      forall j | 0 <= j < |g| && Recent(g[j], top) ensures j < m' {
        assert g[j] == h[i + j];
        if j > 0 { assert Newer(h[i], h[i + j]); }
      }
    }
  }
}
