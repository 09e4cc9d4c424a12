/**
 * Runs with restarts at any moment. Rollbacks restore recorded snapshots byte for byte if no restart
 * met an entry that restores an empty value; in any case only keys with an empty value can be missing.
 */
module RestartRuns {
  import opened Wrappers
  import opened Bytes
  import opened Points
  import opened StorageActions
  import opened Database
  import opened Executor
  import opened StorageStage
  import opened PersistentBuffer
  import opened RollbackExactness
  import opened BufferAgreement
  import SB = SyncBatcher
  import RB = RollbackBuffer

  // ---- Stores that are alike ----

  /** `x` is `y`; unless exactness is asked for, keys with an empty value in `y` may be absent. */
  ghost predicate Like(exact: bool, x: Store, y: Store) {
    forall k: Key :: Get(x, k) == Get(y, k) || (!exact && Get(x, k).None? && Get(y, k) == Some([]))
  }

  lemma LikeChain(exact: bool, x: Store, y: Store, z: Store)
    requires Like(exact, x, y) && Like(exact, y, z)
    ensures Like(exact, x, z)
  {
    forall k: Key ensures Get(x, k) == Get(z, k) || (!exact && Get(x, k).None? && Get(z, k) == Some([])) {
      assert Get(x, k) == Get(y, k) || (!exact && Get(x, k).None? && Get(y, k) == Some([]));
    }
  }

  lemma NothingToLose(exact: bool, x: Store, y: Store)
    requires Like(exact, x, y) && (exact || forall k: Key :: Get(y, k) != Some([]))
    ensures x == y
  {
    forall k: Key ensures Get(x, k) == Get(y, k) {
    }
    SameEverywhere(x, y);
  }

  lemma SameEverywhere(x: Store, y: Store)
    requires forall k: Key :: Get(x, k) == Get(y, k)
    ensures x == y
  {
    assert forall k :: k in x ==> Get(x, k) == Get(y, k);
    assert forall k :: k in y ==> Get(x, k) == Get(y, k);
  }

  /** `b` is `a` with some restorations of empty values turned into deletions. */
  ghost predicate Faded(exact: bool, b: seq<StorageAction>, a: seq<StorageAction>) {
    && |b| == |a| && Restores(a)
    && forall i :: 0 <= i < |a| ==> b[i] == a[i] || (!exact && a[i] == Set(a[i].key, []) && b[i] == Delete(a[i].key))
  }

  lemma {:induction false} RunLike(exact: bool, x: Store, y: Store, b: seq<StorageAction>, a: seq<StorageAction>)
    requires Like(exact, x, y) && Faded(exact, b, a)
    ensures RunPlain(x, b).Ok? && RunPlain(y, a).Ok?
    ensures Like(exact, RunPlain(x, b).value, RunPlain(y, a).value)
    decreases |a|
  {
    if a != [] {
      assert a[0] in a;
      var k := a[0].key;
      var x', y' := Commit(x, k, PlainWrite(Get(x, k), b[0]).value), Commit(y, k, PlainWrite(Get(y, k), a[0]).value);
      assert Like(exact, x', y');
      assert Faded(exact, b[1..], a[1..]);
      RunLike(exact, x', y', b[1..], a[1..]);
    }
  }

  lemma {:induction false} ReversedFades(exact: bool, b: seq<StorageAction>, a: seq<StorageAction>)
    requires Faded(exact, b, a)
    ensures Faded(exact, Reverse(b), Reverse(a))
  {
    if a != [] {
      assert a[0] in a;
      assert Faded(exact, b[1..], a[1..]);
      ReversedFades(exact, b[1..], a[1..]);
    }
  }

  lemma NormalisedFades(exact: bool, a: seq<StorageAction>)
    requires Restores(a) && (exact ==> Normalised(a) == a)
    ensures Faded(exact, Normalised(a), a)
  {
    forall i | 0 <= i < |a|
      ensures Normalised(a)[i] == a[i] || (!exact && a[i] == Set(a[i].key, []) && Normalised(a)[i] == Delete(a[i].key))
    {
      assert a[i] in a;
    }
  }

  // ---- Undoing up to lost values ----

  ghost predicate UndoesLike(exact: bool, e: Entry, newer: Store, older: Store) {
    && Restores(e.result)
    && RunPlain(newer, Reverse(e.result)).Ok?
    && Like(exact, RunPlain(newer, Reverse(e.result)).value, older)
  }

  ghost predicate Leads(exact: bool, buffer: seq<Entry>, h: seq<Snapshot>) {
    && |buffer| <= |h|
    && (forall i :: 0 <= i < |buffer| ==> h[i].point == buffer[i].point)
    && (forall i :: 0 <= i < |buffer| - 1 ==> UndoesLike(exact, buffer[i], h[i].result, h[i + 1].result))
  }

  lemma LeadsSlice(exact: bool, buffer: seq<Entry>, h: seq<Snapshot>, i: nat)
    requires Leads(exact, buffer, h) && i <= |buffer|
    ensures Leads(exact, buffer[i..], h[i..])
  {
    hide UndoesLike;
    forall j | 0 <= j < |buffer[i..]| - 1 ensures UndoesLike(exact, buffer[i..][j], h[i..][j].result, h[i..][j + 1].result) {
      assert UndoesLike(exact, buffer[i + j], h[i + j].result, h[i + j + 1].result);
    }
  }

  /** One entry, started from a store that has lost something already. */
  lemma UndoOne(exact: bool, e: Entry, x: Store, newer: Store, older: Store)
    requires UndoesLike(exact, e, newer, older) && Like(exact, x, newer)
    ensures RunPlain(x, Reverse(e.result)).Ok? && Like(exact, RunPlain(x, Reverse(e.result)).value, older)
  {
    var undo := Reverse(e.result);
    RunLike(exact, x, newer, undo, undo);
    LikeChain(exact, RunPlain(x, undo).value, RunPlain(newer, undo).value, older);
  }

  lemma {:induction false} UndoLikeTo(exact: bool, buffer: seq<Entry>, h: seq<Snapshot>, i: nat, x: Store)
    requires Leads(exact, buffer, h) && i < |buffer| && Like(exact, x, h[0].result)
    ensures Restores(UndoList(buffer[..i])) && RunPlain(x, UndoList(buffer[..i])).Ok?
    ensures Like(exact, RunPlain(x, UndoList(buffer[..i])).value, h[i].result)
    decreases i
  {
    if i > 0 {
      assert UndoesLike(exact, buffer[0], h[0].result, h[1].result);
      UndoOne(exact, buffer[0], x, h[0].result, h[1].result);
      LeadsSlice(exact, buffer, h, 1);
      var next := RunPlain(x, Reverse(buffer[0].result)).value;
      UndoLikeTo(exact, buffer[1..], h[1..], i - 1, next);
      assert buffer[..i][0] == buffer[0] && buffer[..i][1..] == buffer[1..][..i - 1];
      RunPlainConcat(x, Reverse(buffer[0].result), UndoList(buffer[1..][..i - 1]));
    }
  }

  // ---- What a restart leaves of the histories ----

  /** The process restarts: memory is gone, the buffer is rebuilt from a scan of the metadata. */
  function Restarted(s: Stage, kvs: seq<KeyValue>, intersect: Option<Point>): Stage {
    Stage(s.db, EMPTY_BATCHER, Populate(ParseFrom(Origin, [], kvs)), intersect, None)
  }

  /** Snapshots of the points whose entries a reload brings back. */
  function Survivors(h: seq<Entry>, snapshots: seq<Snapshot>): seq<Snapshot> {
    if h == [] || snapshots == [] then []
    else (if Survives(h[0]) then [snapshots[0]] else []) + Survivors(h[1..], snapshots[1..])
  }

  ghost predicate Matches(exact: bool, undo: seq<Entry>, snapshots: seq<Snapshot>) {
    |undo| == |snapshots| && Leads(exact, undo, snapshots)
  }

  lemma MatchesPush(exact: bool, e: Entry, undo: seq<Entry>, newer: Snapshot, snapshots: seq<Snapshot>)
    requires Matches(exact, undo, snapshots) && newer.point == e.point
    requires undo != [] ==> UndoesLike(exact, e, newer.result, snapshots[0].result)
    ensures Matches(exact, [e] + undo, [newer] + snapshots)
  {
    hide UndoesLike;
    var u, h := [e] + undo, [newer] + snapshots;
    forall i | 0 <= i < |u| - 1 ensures UndoesLike(exact, u[i], h[i].result, h[i + 1].result) {
      if i > 0 {
        assert UndoesLike(exact, undo[i - 1], snapshots[i - 1].result, snapshots[i].result);
      }
    }
  }

  lemma {:induction false} SomeSurvivor(h: seq<Entry>) returns (i: nat)
    requires Stored(h) != []
    ensures i < |h| && Survives(h[i])
  {
    i := 0;
    if !Survives(h[0]) {
      i := SomeSurvivor(h[1..]);
      i := i + 1;
    }
  }

  /** An entry that is not brought back has no inverses, unless nothing older is brought back either. */
  lemma DroppedAreEmpty(h: seq<Entry>)
    requires Chain(h) && h != [] && !Survives(h[0]) && Stored(h[1..]) != []
    ensures h[0].result == []
  {
    var i := SomeSurvivor(h[1..]);
    assert Newer(h[0], h[i + 1]);
  }

  lemma NormalisedUndoes(exact: bool, e: Entry, newer: Store, older: Store)
    requires UndoesLike(exact, e, newer, older) && (exact ==> Normalised(e.result) == e.result)
    ensures UndoesLike(exact, RB.PointWithResult(e.point, Normalised(e.result)), newer, older)
  {
    var a, b := e.result, Normalised(e.result);
    NormalisedFades(exact, a);
    ReversedFades(exact, b, a);
    RunLike(exact, newer, newer, Reverse(b), Reverse(a));
    LikeChain(exact, RunPlain(newer, Reverse(b)).value, RunPlain(newer, Reverse(a)).value, older);
  }

  lemma LoosenOlder(exact: bool, e: Entry, newer: Store, older: Store, oldest: Store)
    requires UndoesLike(exact, e, newer, older) && Like(exact, older, oldest)
    ensures UndoesLike(exact, e, newer, oldest)
  {
    LikeChain(exact, RunPlain(newer, Reverse(e.result)).value, older, oldest);
  }

  /** A reload changes no entry, the never executed oldest one aside. */
  ghost predicate Unfading(h: seq<Entry>) {
    forall i :: 0 <= i < |h| - 1 ==> Normalised(h[i].result) == h[i].result
  }

  /** The entries that come back lead, up to lost values, from survivor to survivor. */
  lemma {:induction false} StoredMatches(exact: bool, h: seq<Entry>, snapshots: seq<Snapshot>)
    requires Chain(h) && Matches(exact, h, snapshots) && (exact ==> Unfading(h))
    ensures Matches(exact, Stored(h), Survivors(h, snapshots))
    ensures Stored(h) != [] ==> Like(exact, snapshots[0].result, Survivors(h, snapshots)[0].result)
  {
    if h != [] {
      hide UndoesLike, Normalised, Like;
      var rest, older := Stored(h[1..]), Survivors(h[1..], snapshots[1..]);
      assert h[1..] == h[1..|h|];
      ChainSlice(h, 1, |h|);
      LeadsSlice(exact, h, snapshots, 1);
      assert exact ==> forall i :: 0 <= i < |h[1..]| ==> h[1..][i] == h[i + 1];
      StoredMatches(exact, h[1..], snapshots[1..]);
      if |h| > 1 {
        assert UndoesLike(exact, h[0], snapshots[0].result, snapshots[1].result);
        if rest != [] {
          LoosenOlder(exact, h[0], snapshots[0].result, snapshots[1].result, older[0].result);
        }
      }
      StoredStep(exact, h, snapshots);
    }
  }

  lemma StoredStep(exact: bool, h: seq<Entry>, snapshots: seq<Snapshot>)
    requires Chain(h) && h != [] && |h| == |snapshots| && h[0].point == snapshots[0].point
    requires exact && |h| > 1 ==> Normalised(h[0].result) == h[0].result
    requires Matches(exact, Stored(h[1..]), Survivors(h[1..], snapshots[1..]))
    requires Stored(h[1..]) != [] ==> UndoesLike(exact, h[0], snapshots[0].result, Survivors(h[1..], snapshots[1..])[0].result)
    ensures Matches(exact, Stored(h), Survivors(h, snapshots))
    ensures Stored(h) != [] ==> Like(exact, snapshots[0].result, Survivors(h, snapshots)[0].result)
  {
    var rest, older := Stored(h[1..]), Survivors(h[1..], snapshots[1..]);
    if Survives(h[0]) {
      if rest != [] {
        NormalisedUndoes(exact, h[0], snapshots[0].result, older[0].result);
      }
      hide UndoesLike, Normalised;
      MatchesPush(exact, RB.PointWithResult(h[0].point, Normalised(h[0].result)), rest, snapshots[0], older);
    } else if rest != [] {
      DroppedAreEmpty(h);
      assert Reverse(h[0].result) == [];
    }
  }

  lemma {:induction false} StoredSplit(h: seq<Entry>, m: nat)
    requires m <= |h|
    ensures Stored(h) == Stored(h[..m]) + Stored(h[m..])
  {
    if m == 0 {
      assert h[0..] == h;
    } else {
      assert h[..m][1..] == h[1..][..m - 1] && h[1..][m - 1..] == h[m..];
      StoredSplit(h[1..], m - 1);
    }
  }

  lemma {:induction false} StoredBelow(h: seq<Entry>, e: Entry)
    requires forall i :: 0 <= i < |h| ==> Newer(e, h[i])
    ensures forall i :: 0 <= i < |Stored(h)| ==> Newer(e, Stored(h)[i])
  {
    if h != [] {
      StoredBelow(h[1..], e);
    }
  }

  lemma {:induction false} StoredChain(h: seq<Entry>)
    requires Chain(h)
    ensures Chain(Stored(h))
  {
    if h != [] {
      assert h[1..] == h[1..|h|];
      ChainSlice(h, 1, |h|);
      StoredChain(h[1..]);
      forall i | 0 <= i < |h[1..]| ensures Newer(h[0], h[1..][i]) {
        assert Newer(h[0], h[i + 1]);
      }
      StoredBelow(h[1..], h[0]);
      assert forall i :: 0 < i < |Stored(h)| && Survives(h[0]) ==> Stored(h)[i] == Stored(h[1..])[i - 1];
    }
  }

  lemma NormalisedPersists(e: Entry)
    ensures EntryMeta(RB.PointWithResult(e.point, Normalised(e.result))) == EntryMeta(e)
  {
    if e.point.Specific? {
      var a, b := EntryMeta(e), EntryMeta(RB.PointWithResult(e.point, Normalised(e.result)));
      forall k: MetaKey ensures Get(a, k) == Get(b, k) {
        MetaOfAt(e.point.slot, e.point.hash, e.result, k);
        MetaOfAt(e.point.slot, e.point.hash, Normalised(e.result), k);
      }
      assert forall k :: k in a ==> Get(a, k) == Get(b, k);
      assert forall k :: k in b ==> Get(a, k) == Get(b, k);
    }
  }

  lemma DroppedIsInvisible(rest: Metadata, e: Entry)
    requires !Survives(e)
    ensures SameVisible(rest + EntryMeta(e), rest)
  {
    SameVisibleAt(rest + EntryMeta(e), rest);
    forall k: MetaKey | k.slot > 0 ensures k !in EntryMeta(e) {
      if k in EntryMeta(e) {
        MetaOfAt(e.point.slot, e.point.hash, e.result, k);
      }
    }
  }

  lemma {:induction false} StoredIsVisible(h: seq<Entry>)
    ensures SameVisible(Persist(h), Persist(Stored(h)))
  {
    if h != [] {
      hide Visible, EntryMeta, Normalised;
      StoredIsVisible(h[1..]);
      if Survives(h[0]) {
        var e := RB.PointWithResult(h[0].point, Normalised(h[0].result));
        NormalisedPersists(h[0]);
        VisiblePlus(Persist(h[1..]), Persist(Stored(h[1..])), EntryMeta(e));
        assert Stored(h)[1..] == Stored(h[1..]);
      } else {
        DroppedIsInvisible(Persist(h[1..]), h[0]);
        assert Stored(h) == Stored(h[1..]);
      }
    }
  }

  lemma ReloadedBuffer(s: Stage, h: seq<Entry>, m: nat, kvs: seq<KeyValue>, intersect: Option<Point>)
    requires Agree(s, h, m) && Listing(kvs, s.db.meta)
    ensures Restarted(s, kvs, intersect).buffer == RB.Truncate(Stored(h[..m]))
  {
    hide Visible, ParseFrom, Populate, Flip, Listing, Stored, Chain, RB.Truncate;
    assert h[0..m] == h[..m];
    ChainSlice(h, 0, m);
    ReloadGivesHistory(kvs, s.db.meta, h[..m]);
    PopulateTruncates(ParseFrom(Origin, [], kvs));
  }

  lemma StoredMeta(meta: Metadata, h: seq<Entry>, m: nat)
    requires m <= |h| && SameVisible(meta, Persist(h[..m]))
    ensures |Stored(h[..m])| <= |Stored(h)| && Stored(h)[..|Stored(h[..m])|] == Stored(h[..m])
    ensures SameVisible(meta, Persist(Stored(h)[..|Stored(h[..m])|]))
  {
    hide Visible, Stored, Persist;
    StoredSplit(h, m);
    StoredIsVisible(h[..m]);
  }

  /** After a restart, memory and metadata are prefixes of the history as a reload brings it back. */
  lemma RestartAgrees(s: Stage, h: seq<Entry>, m: nat, kvs: seq<KeyValue>, intersect: Option<Point>, top: nat)
    returns (m': nat)
    requires Agree(s, h, m) && Covered(h, m, top) && Listing(kvs, s.db.meta)
    ensures var s' := Restarted(s, kvs, intersect);
            var h' := if s'.buffer == [] then [] else Stored(h);
            Agree(s', h', m') && Covered(h', m', top)
  {
    hide Covered, SameVisible, ParseFrom, Populate, Listing, Stored, Chain, Persist;
    var s' := Restarted(s, kvs, intersect);
    ReloadedBuffer(s, h, m, kvs, intersect);
    StoredChain(h);
    StoredMeta(s.db.meta, h, m);
    m' := |Stored(h[..m])|;
    StoredCovered(h, m, top);
    if s'.buffer == [] {
      StoredChain([]);
      assert Stored(h)[..m'] == [] == Stored([]) by { NothingIsStored(); }
      NothingCovered(m', top);
    }
  }

  lemma NothingCovered(m: nat, top: nat)
    ensures Covered([], m, top)
  {
  }

  /** Every entry that comes back was there, with its point. */
  lemma {:induction false} StoredFrom(h: seq<Entry>, i: nat) returns (j: nat)
    requires i < |Stored(h)|
    ensures j < |h| && Survives(h[j]) && Stored(h)[i].point == h[j].point
  {
    if Survives(h[0]) && i == 0 {
      j := 0;
    } else {
      j := StoredFrom(h[1..], if Survives(h[0]) then i - 1 else i);
      j := j + 1;
    }
  }

  lemma StoredCovered(h: seq<Entry>, m: nat, top: nat)
    requires m <= |h| && Covered(h, m, top)
    ensures Covered(Stored(h), |Stored(h[..m])|, top)
  {
    hide Stored;
    forall i | 0 <= i < |Stored(h)| && Stored(h)[i].point.Specific? ensures Stored(h)[i].point.slot <= top {
      var j := StoredFrom(h, i);
    }
    StoredSplit(h, m);
    if top < 0xFFFF_FFFF_FFFF_FFFF {
      var n := |Stored(h[..m])|;
      forall i | n <= i < |Stored(h)| ensures !Recent(Stored(h)[i], top) {
        var j := StoredFrom(h[m..], i - n);
        assert Stored(h)[i].point == h[m + j].point;
        assert !Recent(h[m + j], top);
      }
    }
  }

  lemma NothingIsStored()
    ensures Stored([]) == []
  {
  }

  // ---- Whole runs ----

  datatype Action = Work(event: Event) | Restart(kvs: seq<KeyValue>, intersect: Option<Point>)

  /** The stage with its ideal histories, of inverses and of whole snapshots, and the highest slot applied. */
  datatype World = World(stage: Stage, undo: seq<Entry>, snapshots: seq<Snapshot>, top: nat)

  /** A restart keeps of the histories what the reload brings back. */
  function StepWorld(w: World, a: Action): Outcome<World> {
    match a
    case Work(e) =>
      var next :- StepEvent(w.stage, e);
      var top := if e.Forward? then Higher(w.top, e.point) else w.top;
      Ok(World(next, Ideal(w.undo, w.stage, e), Record(w.snapshots, w.stage, e), top))
    case Restart(kvs, intersect) =>
      var next := Restarted(w.stage, kvs, intersect);
      Ok(if next.buffer == [] then World(next, [], [], w.top)
         else World(next, Stored(w.undo), Survivors(w.undo, w.snapshots), w.top))
  }

  ghost predicate Consistent(exact: bool, w: World) {
    && (exists m :: Agree(w.stage, w.undo, m) && Covered(w.undo, m, w.top))
    && Matches(exact, w.undo, w.snapshots)
    && (w.stage.buffer != [] ==> Like(exact, w.stage.db.data, w.snapshots[0].result) && w.stage.batcher.actions == map[])
  }

  /**
   * New points extend the chain and restarts scan the whole metadata. Only for exactness is something
   * asked of the values: that the entries at a restart restore no empty one.
   */
  ghost predicate Admissible(exact: bool, w: World, a: Action) {
    match a
    case Work(e) => e.Forward? ==> Listed(e) && Follows(w.stage, w.undo, e.point)
    case Restart(kvs, _) => Listing(kvs, w.stage.db.meta) && (exact ==> Unfading(w.undo))
  }

  function RunWorld(w: World, actions: seq<Action>): Outcome<World> {
    if actions == [] then Ok(w)
    else
      var before :- RunWorld(w, actions[..|actions| - 1]);
      StepWorld(before, actions[|actions| - 1])
  }

  ghost predicate AdmissibleRun(exact: bool, w: World, actions: seq<Action>) {
    actions != [] ==>
      AdmissibleRun(exact, w, actions[..|actions| - 1]) &&
      var before := RunWorld(w, actions[..|actions| - 1]);
      before.Ok? ==> Admissible(exact, before.value, actions[|actions| - 1])
  }

  /** A worker with nothing in its buffer and no visible metadata can start any run. */
  lemma BlankIsConsistent(exact: bool, s: Stage, top: nat)
    requires s.buffer == [] && Visible(s.db.meta) == map[]
    ensures Consistent(exact, World(s, [], [], top))
  {
    assert Agree(s, [], 0) && Covered([], 0, top);
  }

  lemma FlushedIsLike(exact: bool, w: World, e: Event)
    requires Consistent(exact, w) && e.Forward? && StepEvent(w.stage, e).Ok? && w.stage.buffer != []
    ensures Like(exact, FlushPending(w.stage, e.orders).value, w.snapshots[0].result)
  {
  }

  lemma ForwardMatches(exact: bool, w: World, e: Event)
    requires Consistent(exact, w) && e.Forward? && Listed(e) && StepEvent(w.stage, e).Ok?
    ensures Matches(exact, Ideal(w.undo, w.stage, e), Record(w.snapshots, w.stage, e))
  {
    ForwardUndoes(w.stage, e);
    var s := w.stage;
    if s.buffer != [] { FlushedIsLike(exact, w, e); }
    hide ApplyPlain, ApplyInverse, MetaOf, WithoutSlots, SB.PushAll, SB.Enumerates, RunPlain;
    var flushed := FlushPending(s, e.orders).value;
    var p := PrepareMutable(s, e.point, e.ops, e.orders).value;
    var below := if s.buffer == [] then [RB.PointWithResult(SeedPoint(s.last), flushed)] else w.snapshots;
    MatchesPush(exact, RB.PointWithResult(e.point, p.inverses), Base(s, w.undo), RB.PointWithResult(e.point, p.db.data), below);
  }

  lemma ForwardConsistent(exact: bool, w: World, e: Event)
    requires Consistent(exact, w) && e.Forward? && Admissible(exact, w, Work(e)) && StepEvent(w.stage, e).Ok?
    ensures Consistent(exact, StepWorld(w, Work(e)).value)
  {
    var m :| Agree(w.stage, w.undo, m) && Covered(w.undo, m, w.top);
    hide ApplyPlain, ApplyInverse, MetaOf, WithoutSlots, SB.PushAll, SB.Enumerates, UndoesLike;
    var m' := ForwardAgrees(w.stage, w.undo, m, e, w.top);
    ForwardMatches(exact, w, e);
    hide Agree, Ideal, Matches, Covered;
  }

  lemma MemoryLeads(exact: bool, buffer: seq<Entry>, undo: seq<Entry>, snapshots: seq<Snapshot>)
    requires Memory(buffer, undo) && Matches(exact, undo, snapshots)
    ensures Leads(exact, buffer, snapshots)
  {
    hide UndoesLike;
    forall i | 0 <= i < |buffer| - 1 ensures UndoesLike(exact, buffer[i], snapshots[i].result, snapshots[i + 1].result) {
      assert UndoesLike(exact, undo[i], snapshots[i].result, snapshots[i + 1].result);
      assert buffer[i] == undo[i];
    }
  }

  lemma BackIsLike(exact: bool, w: World, p: Point)
    requires Consistent(exact, w) && RB.Position(w.stage.buffer, p).Some?
    ensures Back(w.stage, p).Ok? && RB.Position(w.snapshots, p) == RB.Position(w.stage.buffer, p) == RB.Position(w.undo, p)
    ensures Like(exact, Back(w.stage, p).value.db.data, w.snapshots[RB.Position(w.snapshots, p).value].result)
  {
    var s, i := w.stage, RB.Position(w.stage.buffer, p).value;
    var m :| Agree(s, w.undo, m) && Covered(w.undo, m, w.top);
    SamePosition(s.buffer, w.undo, p);
    SamePosition(s.buffer, w.snapshots, p);
    MemoryLeads(exact, s.buffer, w.undo, w.snapshots);
    UndoLikeTo(exact, s.buffer, w.snapshots, i, s.db.data);
    var undo := UndoList(s.buffer[..i]);
    RestoresIgnorePrefetch(s.db.data, Prefetch(s.db.data, undo, false), undo);
  }

  lemma BackConsistent(exact: bool, w: World, p: Point)
    requires Consistent(exact, w) && Back(w.stage, p).Ok?
    ensures Consistent(exact, StepWorld(w, Work(Backward(p))).value)
  {
    var m :| Agree(w.stage, w.undo, m) && Covered(w.undo, m, w.top);
    BackIsLike(exact, w, p);
    var m' := BackAgrees(w.stage, w.undo, m, p, w.top);
    hide ApplyPlain, UndoesLike, WithoutSlots, UndoList, Agree, RB.Position, Like;
    LeadsSlice(exact, w.undo, w.snapshots, RB.Position(w.snapshots, p).value);
  }

  lemma NothingMatches(exact: bool)
    ensures Matches(exact, [], [])
  {
  }

  lemma RestartConsistent(exact: bool, w: World, kvs: seq<KeyValue>, intersect: Option<Point>)
    requires Consistent(exact, w) && Admissible(exact, w, Restart(kvs, intersect))
    ensures Consistent(exact, StepWorld(w, Restart(kvs, intersect)).value)
  {
    var m :| Agree(w.stage, w.undo, m) && Covered(w.undo, m, w.top);
    assert Chain(w.undo);
    hide Listing, ParseFrom, Populate, Matches, Agree, Chain, Stored, Survivors, Like;
    var m' := RestartAgrees(w.stage, w.undo, m, kvs, intersect, w.top);
    StoredMatches(exact, w.undo, w.snapshots);
    NothingMatches(exact);
    var next := StepWorld(w, Restart(kvs, intersect)).value;
    if next.stage.buffer != [] {
      LikeChain(exact, w.stage.db.data, w.snapshots[0].result, next.snapshots[0].result);
    }
  }

  lemma BackIsStep(s: Stage, p: Point)
    ensures StepEvent(s, Backward(p)) == Back(s, p)
  {
  }

  lemma StepStaysConsistent(exact: bool, w: World, a: Action)
    requires Consistent(exact, w) && Admissible(exact, w, a) && StepWorld(w, a).Ok?
    ensures Consistent(exact, StepWorld(w, a).value)
  {
    hide Consistent, StepEvent;
    match a
    case Restart(kvs, intersect) => RestartConsistent(exact, w, kvs, intersect);
    case Work(e) =>
      match e
      case Forward(_, _, _) => ForwardConsistent(exact, w, e);
      case Backward(p) =>
        BackIsStep(w.stage, p);
        BackConsistent(exact, w, p);
  }

  lemma {:induction false} RunStaysConsistent(exact: bool, w: World, actions: seq<Action>)
    requires Consistent(exact, w) && AdmissibleRun(exact, w, actions) && RunWorld(w, actions).Ok?
    ensures Consistent(exact, RunWorld(w, actions).value)
    decreases |actions|
  {
    hide Consistent, Admissible, StepWorld;
    if actions != [] {
      var n := |actions| - 1;
      RunStaysConsistent(exact, w, actions[..n]);
      StepStaysConsistent(exact, RunWorld(w, actions[..n]).value, actions[n]);
    }
  }

  /**
   * After any run, restarts included, a rollback to a point in the buffer succeeds and the point has a
   * recorded snapshot. The store is that snapshot, byte for byte, if no restart met an entry that
   * restores an empty value, or if the snapshot has none; otherwise keys with an empty value in it may
   * be missing, and nothing else differs.
   */
  lemma RollbackAcrossRestarts(exact: bool, w: World, actions: seq<Action>, p: Point)
    requires Consistent(exact, w) && AdmissibleRun(exact, w, actions) && RunWorld(w, actions).Ok?
    requires RB.Position(RunWorld(w, actions).value.stage.buffer, p).Some?
    ensures var now := RunWorld(w, actions).value;
            Back(now.stage, p).Ok? && RB.Position(now.snapshots, p).Some? &&
            var back, was := Back(now.stage, p).value.db.data, now.snapshots[RB.Position(now.snapshots, p).value].result;
            && Like(false, back, was)
            && (exact || (forall k: Key :: Get(was, k) != Some([])) ==> back == was)
  {
    RunStaysConsistent(exact, w, actions);
    var now := RunWorld(w, actions).value;
    BackIsLike(exact, now, p);
    var back, was := Back(now.stage, p).value.db.data, now.snapshots[RB.Position(now.snapshots, p).value].result;
    assert Like(false, back, was);
    hide Like, Consistent, RunWorld, AdmissibleRun, Back;
    if exact || forall k: Key :: Get(was, k) != Some([]) {
      NothingToLose(exact, back, was);
    }
  }

  // ---- How far back a restart reaches ----

  /** How many entries have inverses and a slot above zero. */
  function Undoables(h: seq<Entry>): nat {
    if h == [] then 0
    else (if h[0].point.Specific? && h[0].point.slot > 0 && h[0].result != [] then 1 else 0) + Undoables(h[1..])
  }

  lemma {:induction false} StoredCount(h: seq<Entry>)
    ensures |Stored(h)| == Undoables(h)
  {
    if h != [] {
      StoredCount(h[1..]);
    }
  }

  lemma StoredAt(h: seq<Entry>, m: nat, i: nat)
    requires i < m <= |h| && Survives(h[i])
    ensures |Stored(h[..i])| < |Stored(h[..m])| && Stored(h[..m])[|Stored(h[..i])|].point == h[i].point
  {
    hide Survives, Normalised;
    StoredSplit(h[..m], i);
    assert h[..m][..i] == h[..i] && h[..m][i..][0] == h[i];
  }

  lemma PointComesBack(s: Stage, h: seq<Entry>, m: nat, kvs: seq<KeyValue>, intersect: Option<Point>, i: nat)
    requires Agree(s, h, m) && Listing(kvs, s.db.meta)
    requires i < m && h[i].point.Specific? && h[i].point.slot > 0 && h[i].result != [] && Undoables(h[..i]) < 32
    ensures RB.Position(Restarted(s, kvs, intersect).buffer, h[i].point).Some?
  {
    hide Listing, Stored, Restarted, RB.Position;
    ReloadedBuffer(s, h, m, kvs, intersect);
    StoredAt(h, m, i);
    StoredCount(h[..i]);
    var buffer, n := Restarted(s, kvs, intersect).buffer, |Stored(h[..i])|;
    assert n < |buffer| && buffer[n].point == h[i].point;
  }

  /**
   * After any run and a restart, every point of the history that has inverses, is among the newest 32 such
   * points and at most 640 slots below the highest slot applied is in the buffer, and a roll-back to it
   * succeeds.
   */
  lemma RestartReachesBack(w: World, actions: seq<Action>, kvs: seq<KeyValue>, intersect: Option<Point>, i: nat)
    requires Consistent(false, w) && AdmissibleRun(false, w, actions) && RunWorld(w, actions).Ok?
    requires Listing(kvs, RunWorld(w, actions).value.stage.db.meta)
    requires var now := RunWorld(w, actions).value;
             && i < |now.undo| && now.undo[i].point.Specific? && now.undo[i].point.slot > 0 && now.undo[i].result != []
             && Undoables(now.undo[..i]) < 32 && now.undo[i].point.slot + 640 >= now.top && now.top < 0xFFFF_FFFF_FFFF_FFFF
    ensures var now := RunWorld(w, actions).value;
            var s := Restarted(now.stage, kvs, intersect);
            RB.Position(s.buffer, now.undo[i].point).Some? && Back(s, now.undo[i].point).Ok?
  {
    RunStaysConsistent(false, w, actions);
    var now := RunWorld(w, actions).value;
    var m :| Agree(now.stage, now.undo, m) && Covered(now.undo, m, now.top);
    assert Recent(now.undo[i], now.top);
    hide RunWorld, AdmissibleRun, Agree, Back, Restarted, Listing;
    PointComesBack(now.stage, now.undo, m, kvs, intersect, i);
    RestartConsistent(false, now, kvs, intersect);
    BackIsLike(false, StepWorld(now, Restart(kvs, intersect)).value, now.undo[i].point);
  }

  // ---- A run that loses an empty value ----

  const BLANK := Stage(Database(map[], map[]), EMPTY_BATCHER, [], None, None)

  /** A datum hash seen without its bytes, and then the datum itself. */
  function Announced(k: Key, h: Bytes): Event {
    Forward(Specific(1, h), [Insert(k, [])], Orders([], [Insert(k, [])]))
  }

  function Supplied(k: Key, b: Value, h: Bytes): Event {
    Forward(Specific(2, h), [Set(k, b)], Orders([], [Set(k, b)]))
  }

  function AfterAnnounced(k: Key, h1: Bytes): Stage {
    Stage(
      Database(map[k := []], map[MetaKey(1, h1, 0, k) := []]),
      EMPTY_BATCHER,
      [RB.PointWithResult(Specific(1, h1), [Delete(k)]), RB.PointWithResult(Origin, [])],
      Some(Specific(1, h1)),
      None)
  }

  function AfterSupplied(k: Key, b: Value, h1: Bytes, h2: Bytes): Stage {
    Stage(
      Database(map[k := b], map[MetaKey(1, h1, 0, k) := [], MetaKey(2, h2, 0, k) := []]),
      EMPTY_BATCHER,
      [RB.PointWithResult(Specific(2, h2), [Set(k, [])])] + AfterAnnounced(k, h1).buffer,
      Some(Specific(2, h2)),
      None)
  }

  lemma OneOp(op: StorageAction)
    ensures SB.PushAll(map[], [op]) == Ok(map[op.key := op]) && SB.Enumerates([op], map[op.key := op])
  {
    assert [op][..0] == [];
  }

  lemma OneMeta(slot: U64, h: Bytes, a: StorageAction)
    ensures MetaOf(slot, h, [a]) == map[MetaKey(slot, h, 0, a.key) := InverseValue(a)]
  {
    assert [a][..0] == [];
  }

  lemma OneInverse(data: Store, op: StorageAction)
    requires InverseWrite(Get(data, op.key), op).Ok?
    ensures var u := InverseWrite(Get(data, op.key), op).value;
            ApplyInverse(data, [op]) == Ok(Undone(Commit(data, op.key, u.write), Recorded(u)))
  {
    assert op in [op];
    assert [op][1..] == [];
    var u := InverseWrite(Get(data, op.key), op).value;
    var next := Commit(data, op.key, u.write);
    assert ExecInverse(next, Prefetch(data, [op], true) - {op.key}, []) == Ok(Undone(next, []));
    assert Recorded(u) + [] == Recorded(u);
  }

  lemma AnnouncedInverses(k: Key, h1: Bytes)
    ensures var e := Announced(k, h1);
            PrepareMutable(BLANK, e.point, e.ops, e.orders) == Ok(Prepared(AfterAnnounced(k, h1).db, [Delete(k)]))
  {
    OneOp(Insert(k, []));
    OneMeta(1, h1, Delete(k));
    OneInverse(map[], Insert(k, []));
    assert MutableMeta(BLANK, Specific(1, h1), [Delete(k)]) == AfterAnnounced(k, h1).db.meta;
    hide ApplyInverse, MutableMeta, SB.PushAll, SB.Enumerates;
  }

  lemma SuppliedInverses(k: Key, b: Value, h1: Bytes, h2: Bytes)
    requires b != []
    ensures var e := Supplied(k, b, h2);
            PrepareMutable(AfterAnnounced(k, h1), e.point, e.ops, e.orders)
            == Ok(Prepared(AfterSupplied(k, b, h1, h2).db, [Set(k, [])]))
  {
    OneOp(Set(k, b));
    OneMeta(2, h2, Set(k, []));
    var s := AfterAnnounced(k, h1);
    OneInverse(s.db.data, Set(k, b));
    assert s.db.data[k := b] == map[k := b];
    assert MutableMeta(s, Specific(2, h2), [Set(k, [])]) == AfterSupplied(k, b, h1, h2).db.meta;
    hide ApplyInverse, MutableMeta, SB.PushAll, SB.Enumerates;
  }

  lemma AnnouncedRuns(k: Key, h1: Bytes)
    ensures Listed(Announced(k, h1)) && StepEvent(BLANK, Announced(k, h1)) == Ok(AfterAnnounced(k, h1))
  {
    OneOp(Insert(k, []));
    AnnouncedInverses(k, h1);
    hide PrepareMutable, SB.PushAll, SB.Enumerates;
    var p := Prepared(AfterAnnounced(k, h1).db, [Delete(k)]);
    assert FinishMutable(BLANK, Specific(1, h1), p).buffer == AfterAnnounced(k, h1).buffer;
  }

  lemma SuppliedRuns(k: Key, b: Value, h1: Bytes, h2: Bytes)
    requires b != []
    ensures Listed(Supplied(k, b, h2))
    ensures StepEvent(AfterAnnounced(k, h1), Supplied(k, b, h2)) == Ok(AfterSupplied(k, b, h1, h2))
  {
    OneOp(Set(k, b));
    SuppliedInverses(k, b, h1, h2);
    hide PrepareMutable, SB.PushAll, SB.Enumerates;
  }

  function TwoKeys(k: Key, h1: Bytes, h2: Bytes): seq<KeyValue> {
    [KeyValue(MetaKey(1, h1, 0, k), []), KeyValue(MetaKey(2, h2, 0, k), [])]
  }

  /** Both entries come back as deletions. */
  lemma ReloadedTwo(k: Key, b: Value, h1: Bytes, h2: Bytes)
    ensures Listing(TwoKeys(k, h1, h2), AfterSupplied(k, b, h1, h2).db.meta)
    ensures Restarted(AfterSupplied(k, b, h1, h2), TwoKeys(k, h1, h2), None).buffer
            == [RB.PointWithResult(Specific(2, h2), [Delete(k)]), RB.PointWithResult(Specific(1, h1), [Delete(k)])]
  {
    var kvs, p1, p2 := TwoKeys(k, h1, h2), Specific(1, h1), Specific(2, h2);
    var e1, e2: Entry := RB.PointWithResult(p1, [Delete(k)]), RB.PointWithResult(p2, [Delete(k)]);
    assert kvs[0].key == MetaKey(1, h1, 0, k) && kvs[1].key == MetaKey(2, h2, 0, k);
    assert kvs[1..][1..] == [];
    assert ParseFrom(p2, [Delete(k)], []) == [e2];
    assert ParseFrom(p1, [Delete(k)], kvs[1..]) == [e1] + [e2];
    assert ParseFrom(Origin, [], kvs) == [e1, e2];
    assert [e1, e2][..1] == [e1] && [e1][..0] == [];
    assert Populate([e1]) == [e1];
  }

  lemma RunThree(w: World, a: Action, b: Action, c: Action)
    requires StepWorld(w, a).Ok? && StepWorld(StepWorld(w, a).value, b).Ok?
    ensures RunWorld(w, [a, b, c]) == StepWorld(StepWorld(StepWorld(w, a).value, b).value, c)
    ensures Admissible(false, w, a) && Admissible(false, StepWorld(w, a).value, b) &&
            Admissible(false, StepWorld(StepWorld(w, a).value, b).value, c) ==>
              AdmissibleRun(false, w, [a, b, c])
  {
    hide StepWorld, Admissible;
    assert [a, b, c][..2] == [a, b] && [a, b][..1] == [a] && [a][..0] == [];
    assert RunWorld(w, []) == Ok(w) && AdmissibleRun(false, w, []);
    assert RunWorld(w, [a]) == StepWorld(w, a);
    assert Admissible(false, w, a) ==> AdmissibleRun(false, w, [a]);
    assert RunWorld(w, [a, b]) == StepWorld(StepWorld(w, a).value, b);
  }

  function LossOf(k: Key, b: Value, h1: Bytes, h2: Bytes): seq<Action> {
    [Work(Announced(k, h1)), Work(Supplied(k, b, h2)), Restart(TwoKeys(k, h1, h2), None)]
  }

  function LossySnapshots(k: Key, b: Value, h1: Bytes, h2: Bytes): seq<Snapshot> {
    [RB.PointWithResult(Specific(2, h2), map[k := b]),
     RB.PointWithResult(Specific(1, h1), map[k := []]),
     RB.PointWithResult(Origin, map[])]
  }

  function WorldAnnounced(k: Key, b: Value, h1: Bytes, h2: Bytes): World {
    World(AfterAnnounced(k, h1), AfterAnnounced(k, h1).buffer, LossySnapshots(k, b, h1, h2)[1..], 1)
  }

  function WorldSupplied(k: Key, b: Value, h1: Bytes, h2: Bytes): World {
    World(AfterSupplied(k, b, h1, h2), AfterSupplied(k, b, h1, h2).buffer, LossySnapshots(k, b, h1, h2), 2)
  }

  lemma AnnouncedStep(k: Key, b: Value, h1: Bytes, h2: Bytes)
    ensures var w := World(BLANK, [], [], 0);
            Admissible(false, w, Work(Announced(k, h1))) &&
            StepWorld(w, Work(Announced(k, h1))) == Ok(WorldAnnounced(k, b, h1, h2))
  {
    AnnouncedRuns(k, h1);
    var e := Announced(k, h1);
    hide StepEvent, Listed;
    AnnouncedInverses(k, h1);
    hide PrepareMutable;
    assert Ideal([], BLANK, e) == AfterAnnounced(k, h1).buffer;
    assert Record([], BLANK, e) == LossySnapshots(k, b, h1, h2)[1..];
  }

  lemma SuppliedStep(k: Key, b: Value, h1: Bytes, h2: Bytes)
    requires b != []
    ensures var w := WorldAnnounced(k, b, h1, h2);
            Admissible(false, w, Work(Supplied(k, b, h2))) &&
            StepWorld(w, Work(Supplied(k, b, h2))) == Ok(WorldSupplied(k, b, h1, h2))
  {
    SuppliedRuns(k, b, h1, h2);
    var w, e := WorldAnnounced(k, b, h1, h2), Supplied(k, b, h2);
    hide StepEvent, Listed;
    SuppliedInverses(k, b, h1, h2);
    hide PrepareMutable;
    assert Ideal(w.undo, w.stage, e) == AfterSupplied(k, b, h1, h2).buffer;
    assert Record(w.snapshots, w.stage, e) == LossySnapshots(k, b, h1, h2);
  }

  lemma RestartStep(k: Key, b: Value, h1: Bytes, h2: Bytes)
    ensures var w, a := WorldSupplied(k, b, h1, h2), Restart(TwoKeys(k, h1, h2), None);
            && Admissible(false, w, a) && StepWorld(w, a).Ok?
            && StepWorld(w, a).value.stage == Restarted(w.stage, TwoKeys(k, h1, h2), None)
            && StepWorld(w, a).value.snapshots == LossySnapshots(k, b, h1, h2)[..2]
  {
    ReloadedTwo(k, b, h1, h2);
    hide Restarted, Listing;
    var w := WorldSupplied(k, b, h1, h2);
    assert w.undo[1..] == AfterAnnounced(k, h1).buffer;
    assert Survivors(w.undo[1..][1..], w.snapshots[1..][1..]) == [];
    assert Survivors(w.undo[1..], w.snapshots[1..]) == [w.snapshots[1]];
  }

  lemma LossyRun(k: Key, b: Value, h1: Bytes, h2: Bytes)
    requires b != []
    ensures AdmissibleRun(false, World(BLANK, [], [], 0), LossOf(k, b, h1, h2))
    ensures RunWorld(World(BLANK, [], [], 0), LossOf(k, b, h1, h2)).Ok?
    ensures var now := RunWorld(World(BLANK, [], [], 0), LossOf(k, b, h1, h2)).value;
            && now.stage == Restarted(AfterSupplied(k, b, h1, h2), TwoKeys(k, h1, h2), None)
            && now.snapshots == LossySnapshots(k, b, h1, h2)[..2]
  {
    AnnouncedStep(k, b, h1, h2);
    SuppliedStep(k, b, h1, h2);
    RestartStep(k, b, h1, h2);
    hide StepWorld, Admissible, Restarted, AfterSupplied, AfterAnnounced, LossySnapshots, AdmissibleRun, RunWorld;
    RunThree(World(BLANK, [], [], 0), Work(Announced(k, h1)), Work(Supplied(k, b, h2)), Restart(TwoKeys(k, h1, h2), None));
  }

  lemma BackOne(s: Stage, k: Key, p: Point, q: Point)
    requires p != q && s.buffer == [RB.PointWithResult(q, [Delete(k)]), RB.PointWithResult(p, [Delete(k)])]
    ensures Back(s, p).Ok? && Get(Back(s, p).value.db.data, k) == None
  {
    hide WithoutSlots;
    var undo := [Delete(k)];
    assert s.buffer[..1] == [s.buffer[0]] && s.buffer[..1][1..] == [];
    assert UndoList([]) == [] && Reverse(undo) == undo;
    assert UndoList(s.buffer[..1]) == undo;
    assert Restores(undo) && RB.Position(s.buffer, p) == Some(1);
    RestoresIgnorePrefetch(s.db.data, Prefetch(s.db.data, undo, false), undo);
    assert undo[1..] == [];
  }

  /**
   * A datum's hash is announced, the datum is supplied in the next block, the process restarts, and the
   * chain rolls back one block: the key recorded with an empty value is gone.
   */
  lemma EmptyValueIsLost(k: Key, b: Value, h1: Bytes, h2: Bytes)
    requires b != []
    ensures var start, actions, p := World(BLANK, [], [], 0), LossOf(k, b, h1, h2), Specific(1, h1);
            && AdmissibleRun(false, start, actions) && RunWorld(start, actions).Ok?
            && var now := RunWorld(start, actions).value;
            && Back(now.stage, p).Ok? && RB.Position(now.snapshots, p).Some?
            && Get(now.snapshots[RB.Position(now.snapshots, p).value].result, k) == Some([])
            && Get(Back(now.stage, p).value.db.data, k) == None
  {
    LossyRun(k, b, h1, h2);
    ReloadedTwo(k, b, h1, h2);
    hide RunWorld, AdmissibleRun, Restarted, Back, LossOf, Listing;
    var now := RunWorld(World(BLANK, [], [], 0), LossOf(k, b, h1, h2)).value;
    BackOne(now.stage, k, Specific(1, h1), Specific(2, h2));
  }
}
