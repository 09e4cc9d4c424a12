/** Garbage collection cycles interleaved with publishing instances. */
module SafepointRuns {
  import opened Wrappers
  import opened Bytes
  import opened Safepoint

  /** Entries before the safepoint's physical time are deleted. */
  function Keep(es: seq<Entry>, sp: Timestamp): seq<Entry> {
    if es == [] then []
    else (if es[0].ts.physical >= sp.physical then [es[0]] else []) + Keep(es[1..], sp)
  }

  lemma {:induction false} KeepAt(es: seq<Entry>, sp: Timestamp, e: Entry)
    ensures e in Keep(es, sp) <==> e in es && e.ts.physical >= sp.physical
  {
    if es != [] {
      KeepAt(es[1..], sp, e);
    }
  }

  function Pruned(m: EntryMap, sp: Timestamp): EntryMap {
    map i | i in m :: Keep(m[i], sp)
  }

  method Prune(m: EntryMap, sp: Timestamp) returns (r: EntryMap)
    ensures r == Pruned(m, sp)
  {
    r := m;
    var left := m.Keys;
    while left != {}
      invariant left <= m.Keys && r.Keys == m.Keys
      invariant forall i :: i in m ==> r[i] == if i in left then m[i] else Keep(m[i], sp)
    {
      var i :| i in left;
      r := r[i := Keep(r[i], sp)];
      left := left - {i};
    }
  }

  // ---- What every cycle needs ----

  /** Which network each instance of the fixed set belongs to. */
  type Networks = map<Instance, string>

  ghost predicate Labelled(nets: Networks, m: EntryMap) {
    m.Keys == nets.Keys && forall i, e :: i in m && e in m[i] ==> e.network == nets[i]
  }

  ghost predicate Shares(nets: Networks, m: EntryMap, n: string, b: BlockId) {
    forall i :: i in nets && nets[i] == n ==> i in m && HasBlock(m[i], b)
  }

  /** Every instance has a confirmed entry, and every network a common confirmed block. */
  ghost predicate Healthy(nets: Networks, m: EntryMap) {
    && Labelled(nets, m)
    && (forall i :: i in m ==> Confirmed(m[i]))
    && (forall i :: i in nets ==> exists b :: Shares(nets, m, nets[i], b))
  }

  lemma HealthyIsFetched(nets: Networks, m: EntryMap)
    requires Healthy(nets, m)
    ensures Fetched(m)
  {
    forall i | i in m ensures m[i] != [] {
      assert Confirmed(m[i]);
    }
  }

  lemma GroupIsNetwork(nets: Networks, m: EntryMap, n: string, group: seq<Instance>)
    requires Healthy(nets, m) && Fetched(m) && IsGroup(m, n, group)
    ensures forall i :: i in group <==> i in nets && nets[i] == n
    ensures forall b :: Common(m, group, b) <==> Shares(nets, m, n, b)
  {
    forall i | i in m ensures m[i][0].network == nets[i] {
      assert m[i][0] in m[i];
    }
  }

  /** No panic for want of a chaintip or of a common block in a healthy state. */
  lemma HealthyIntersects(nets: Networks, m: EntryMap)
    requires Healthy(nets, m) && Fetched(m)
    ensures Intersects(m)
  {
    forall n, group | IsGroup(m, n, group) ensures exists b :: Common(m, group, b) {
      GroupIsNetwork(nets, m, n, group);
      assert group[0] in group;
      var b :| Shares(nets, m, nets[group[0]], b);
      assert Common(m, group, b);
    }
  }

  // ---- Pruning at a safe timestamp ----

  lemma PrunedConfirmed(es: seq<Entry>, sp: Timestamp)
    requires Confirmed(es) && forall tip :: IsChaintip(es, tip) ==> Le(sp, tip.ts)
    ensures Confirmed(Keep(es, sp))
  {
    var tip := TipOf(es);
    KeepAt(es, sp, tip);
  }

  lemma {:induction false} TipOf(es: seq<Entry>) returns (tip: Entry)
    requires Confirmed(es)
    ensures IsChaintip(es, tip)
  {
    if Confirmed(es[1..]) {
      tip := TipOf(es[1..]);
      if !es[0].mempool && RankLe(tip, es[0]) {
        tip := es[0];
      }
    } else {
      tip := es[0];
    }
    assert forall e :: e in es ==> e == es[0] || e in es[1..];
  }

  /** Pruning at a safe timestamp keeps a healthy state healthy. */
  lemma PruningKeepsHealthy(nets: Networks, m: EntryMap, now: int, zone: int, sp: Timestamp)
    requires Healthy(nets, m) && Fetched(m) && Safe(m, now, zone, sp)
    ensures Healthy(nets, Pruned(m, sp))
  {
    hide Keep, KeepsNetworks, Shares, Confirmed, IsChaintip, Fetched;
    var p := Pruned(m, sp);
    forall i, e: Entry | i in p && e in p[i] ensures e.network == nets[i] {
      KeepAt(m[i], sp, e);
    }
    forall i | i in p ensures Confirmed(p[i]) {
      PrunedConfirmed(m[i], sp);
    }
    forall i | i in nets ensures exists b :: Shares(nets, p, nets[i], b) {
      var b := SharedBlockStays(nets, m, sp, nets[i]);
    }
  }

  lemma SharedBlockStays(nets: Networks, m: EntryMap, sp: Timestamp, n: string) returns (b: BlockId)
    requires Labelled(nets, m) && Fetched(m) && KeepsNetworks(m, sp)
    requires exists i :: i in nets && nets[i] == n
    ensures Shares(nets, Pruned(m, sp), n, b)
  {
    var group := ListOf(nets, n);
    forall i | i in m ensures m[i][0].network == nets[i] {
      assert m[i][0] in m[i];
    }
    assert IsGroup(m, n, group);
    b :| Guards(m, group, b, sp);
    hide KeepsNetworks, Protected;
    forall i | i in nets && nets[i] == n ensures HasBlock(Keep(m[i], sp), b) {
      assert Anchored(m[i], b, sp);
      var e :| e in m[i] && Names(e, b) && Le(sp, e.ts);
      KeepAt(m[i], sp, e);
    }
  }

  lemma ListOf(nets: Networks, n: string) returns (group: seq<Instance>)
    requires exists i :: i in nets && nets[i] == n
    ensures group != [] && forall i :: i in group <==> i in nets && nets[i] == n
  {
    var left := set i | i in nets && nets[i] == n;
    group := [];
    while left != {}
      invariant forall i :: i in left ==> i in nets && nets[i] == n
      invariant forall i :: i in group ==> i in nets && nets[i] == n
      invariant forall i :: i in nets && nets[i] == n ==> i in group || i in left
    {
      var i :| i in left;
      group := group + [i];
      left := left - {i};
    }
    var i :| i in nets && nets[i] == n;
    assert i in group;
  }

  // ---- Whether both blocks stay ----

  /** A common block stays common exactly if its latest entry is old nowhere. */
  lemma StaysCommonIff(m: EntryMap, group: seq<Instance>, b: BlockId, sp: Timestamp)
    requires Common(m, group, b)
    ensures Common(Pruned(m, sp), group, b)
            <==> forall i, ts :: i in group && i in m && IsLatest(m[i], b, ts) ==> sp.physical <= ts.physical
  {
    var p := Pruned(m, sp);
    if Common(p, group, b) {
      forall i, ts | i in group && i in m && IsLatest(m[i], b, ts) ensures sp.physical <= ts.physical {
        assert HasBlock(p[i], b);
        var e :| e in p[i] && Names(e, b);
        KeepAt(m[i], sp, e);
        assert Le(e.ts, ts);
      }
    }
    if forall i, ts :: i in group && i in m && IsLatest(m[i], b, ts) ==> sp.physical <= ts.physical {
      forall i | i in group ensures i in p && HasBlock(p[i], b) {
        assert HasBlock(m[i], b);
        var latest := LatestEntry(m[i], b);
        KeepAt(m[i], sp, latest);
      }
    }
  }

  lemma {:induction false} LatestEntry(es: seq<Entry>, b: BlockId) returns (e: Entry)
    requires HasBlock(es, b)
    ensures e in es && Names(e, b) && IsLatest(es, b, e.ts)
  {
    if HasBlock(es[1..], b) {
      e := LatestEntry(es[1..], b);
      if Names(es[0], b) && Le(e.ts, es[0].ts) {
        e := es[0];
      }
    } else {
      e := es[0];
    }
    assert forall x :: x in es ==> x == es[0] || x in es[1..];
  }

  /**
   * Collecting at a timestamp that guards the block below keeps that block; it keeps the best one as
   * well exactly if no instance has last refreshed the best one before that timestamp.
   */
  lemma BothBlocksStayIff(m: EntryMap, group: seq<Instance>, previous: BlockId, best: BlockId, sp: Timestamp)
    requires Guards(m, group, previous, sp) && Common(m, group, best)
    ensures Common(Pruned(m, sp), group, previous)
    ensures Common(Pruned(m, sp), group, best)
            <==> forall i, ts :: i in group && i in m && IsLatest(m[i], best, ts) ==> sp.physical <= ts.physical
  {
    StaysCommonIff(m, group, previous, sp);
    StaysCommonIff(m, group, best, sp);
    forall i, ts | i in group && i in m && IsLatest(m[i], previous, ts) ensures sp.physical <= ts.physical {
      assert Anchored(m[i], previous, sp);
    }
  }

  function Forked(h4: Bytes, h5: Bytes, tip: Bytes, network: string): seq<Entry> {
    [Entry(5, tip, false, Timestamp(200, 0), network),
     Entry(4, h4, false, Timestamp(100, 0), network),
     Entry(5, h5, false, Timestamp(10, 0), network)]
  }

  function ForkedMap(i: Instance, j: Instance, h4: Bytes, h5: Bytes, a: Bytes, b: Bytes, network: string): EntryMap {
    map[i := Forked(h4, h5, a, network), j := Forked(h4, h5, b, network)]
  }

  lemma ForkedGuards(i: Instance, j: Instance, h4: Bytes, h5: Bytes, a: Bytes, b: Bytes, network: string)
    requires i != j && a != b && a != h5 && b != h5
    ensures var m, group, sp := ForkedMap(i, j, h4, h5, a, b, network), [i, j], Timestamp(100, 0);
            && IsBest(m, group, BlockId(5, h5)) && IsGroupSafepoint(m, group, BlockId(4, h4), sp)
            && Guards(m, group, BlockId(4, h4), sp)
  {
    var m := ForkedMap(i, j, h4, h5, a, b, network);
    ForkedHas(h4, h5, a, network);
    ForkedHas(h4, h5, b, network);
    hide Forked, HasBlock, Anchored, IsLatest, IsBest, IsGroupSafepoint, Guards, IsChaintip;
    TwoShare(m, i, j, BlockId(5, h5), BlockId(4, h4), Timestamp(100, 0));
  }

  lemma TwoShare(m: EntryMap, i: Instance, j: Instance, best: BlockId, previous: BlockId, sp: Timestamp)
    requires i in m && j in m && best.height == previous.height + 1
    requires forall c :: HasBlock(m[i], c) && HasBlock(m[j], c) <==> c == best || c == previous
    requires Anchored(m[i], previous, sp) && Anchored(m[j], previous, sp) && IsLatest(m[i], previous, sp)
    ensures IsBest(m, [i, j], best) && IsGroupSafepoint(m, [i, j], previous, sp) && Guards(m, [i, j], previous, sp)
  {
    hide HasBlock, Anchored, IsLatest;
    var group := [i, j];
    assert i in group && j in group && forall x :: x in group <==> x == i || x == j;
    assert forall c :: Common(m, group, c) <==> HasBlock(m[i], c) && HasBlock(m[j], c);
    hide Common;
    assert Common(m, group, best) && Common(m, group, previous);
    assert IsBest(m, group, best) && StandsIn(m, group, previous, best);
  }

  lemma ForkedIsSafe(i: Instance, j: Instance, h4: Bytes, h5: Bytes, a: Bytes, b: Bytes, network: string)
    requires i != j && a != b && a != h5 && b != h5
    ensures var m := ForkedMap(i, j, h4, h5, a, b, network);
            Fetched(m) && IsGroup(m, network, [i, j]) && Safe(m, 1000, 0, Timestamp(100, 0))
  {
    var m, sp := ForkedMap(i, j, h4, h5, a, b, network), Timestamp(100, 0);
    assert m[i] == Forked(h4, h5, a, network) && m[j] == Forked(h4, h5, b, network);
    hide IsChaintip, HasBlock, IsLatest, Anchored, Guards, IsBest, IsGroupSafepoint;
    hide Safe, IsGroup, KeepsChaintips, Fetched, KeepsNetworks;
    forall x, t | x in m && IsChaintip(m[x], t) ensures t.ts == Timestamp(200, 0) {
      ForkedTip(h4, h5, if x == i then a else b, network, t);
    }
    TwoAlike(m, i, j, network, sp);
    ForkedGuards(i, j, h4, h5, a, b, network);
    OneNetwork(m, network, [i, j], BlockId(4, h4), sp);
    IsSafe(m, sp);
  }

  lemma TwoAlike(m: EntryMap, i: Instance, j: Instance, network: string, sp: Timestamp)
    requires m.Keys == {i, j} && m[i] != [] && m[j] != [] && m[i][0].network == network == m[j][0].network
    requires forall x, t :: x in m && IsChaintip(m[x], t) ==> Le(sp, t.ts)
    ensures Fetched(m) && IsGroup(m, network, [i, j]) && KeepsChaintips(m, sp)
    ensures forall x :: x in m ==> m[x][0].network == network
  {
    hide IsChaintip;
    assert forall x :: x in [i, j] <==> x == i || x == j;
  }

  lemma IsSafe(m: EntryMap, sp: Timestamp)
    requires Fetched(m) && KeepsChaintips(m, sp) && KeepsNetworks(m, sp) && sp.physical < 1000
    ensures Safe(m, 1000, 0, sp)
  {
    hide KeepsChaintips, KeepsNetworks;
  }

  lemma OneNetwork(m: EntryMap, network: string, group: seq<Instance>, b: BlockId, sp: Timestamp)
    requires Fetched(m) && IsGroup(m, network, group) && Guards(m, group, b, sp)
    requires forall i :: i in m ==> m[i][0].network == network
    ensures KeepsNetworks(m, sp)
  {
    hide Guards;
    forall n, g | IsGroup(m, n, g) ensures exists c :: Guards(m, g, c, sp) {
      assert g[0] in g;
      SameGroup(m, n, group, g, sp);
      assert Guards(m, g, b, sp);
    }
  }

  /**
   * Two instances took block 5, went back to block 4 and onto different forks. The selected safepoint is
   * the time they went back, and collecting there deletes the best common block.
   */
  lemma BestBlockIsLost(i: Instance, j: Instance, h4: Bytes, h5: Bytes, a: Bytes, b: Bytes, network: string)
    requires i != j && a != b && a != h5 && b != h5
    ensures var m, group, sp := ForkedMap(i, j, h4, h5, a, b, network), [i, j], Timestamp(100, 0);
            && Fetched(m) && IsGroup(m, network, group) && Safe(m, 1000, 0, sp)
            && IsBest(m, group, BlockId(5, h5)) && IsGroupSafepoint(m, group, BlockId(4, h4), sp)
            && !Common(Pruned(m, sp), group, BlockId(5, h5))
  {
    var m, group, sp := ForkedMap(i, j, h4, h5, a, b, network), [i, j], Timestamp(100, 0);
    ForkedGuards(i, j, h4, h5, a, b, network);
    ForkedIsSafe(i, j, h4, h5, a, b, network);
    ForkedHas(h4, h5, a, network);
    assert Common(m, group, BlockId(5, h5));
    hide Forked, HasBlock, Anchored, IsLatest, Common, IsGroupSafepoint, Guards, IsChaintip, Safe, IsGroup;
    BothBlocksStayIff(m, group, BlockId(4, h4), BlockId(5, h5), sp);
    assert i in group && IsLatest(m[i], BlockId(5, h5), Timestamp(10, 0));
  }

  lemma ForkedTip(h4: Bytes, h5: Bytes, tip: Bytes, network: string, t: Entry)
    requires IsChaintip(Forked(h4, h5, tip, network), t)
    ensures t.ts == Timestamp(200, 0)
  {
    var es := Forked(h4, h5, tip, network);
    assert es[0] in es && RankLe(es[0], t);
  }

  lemma ForkedHas(h4: Bytes, h5: Bytes, tip: Bytes, network: string)
    requires tip != h5
    ensures var es := Forked(h4, h5, tip, network);
            && (forall c :: HasBlock(es, c) <==> c == BlockId(5, tip) || c == BlockId(4, h4) || c == BlockId(5, h5))
            && IsLatest(es, BlockId(4, h4), Timestamp(100, 0)) && Anchored(es, BlockId(4, h4), Timestamp(100, 0))
            && IsLatest(es, BlockId(5, h5), Timestamp(10, 0))
  {
    var es := Forked(h4, h5, tip, network);
    assert forall e :: e in es <==> e == es[0] || e == es[1] || e == es[2];
    assert Names(es[0], BlockId(5, tip)) && Names(es[1], BlockId(4, h4)) && Names(es[2], BlockId(5, h5));
  }

  // ---- Runs ----

  /** The entries now, and the safepoint of a cycle that has not pruned yet. */
  datatype World = World(m: EntryMap, pending: Option<Timestamp>)

  datatype Event =
    | Publish(instance: Instance, entry: Entry, position: nat)
    | Choose(now: int, zone: int, sp: Timestamp)
    | Collect

  /** An instance publishes under its own network; a cycle's choice is safe for what it fetched. */
  ghost predicate Enabled(nets: Networks, w: World, e: Event) {
    match e
    case Publish(i, entry, at) => i in w.m && at <= |w.m[i]| && i in nets && entry.network == nets[i]
    case Choose(now, zone, sp) => w.pending.None? && Fetched(w.m) && Safe(w.m, now, zone, sp)
    case Collect => w.pending.Some?
  }

  /** Where a published entry lands in the score order does not matter. */
  ghost function Step(nets: Networks, w: World, e: Event): World
    requires Enabled(nets, w, e)
  {
    match e
    case Publish(i, entry, at) => w.(m := w.m[i := w.m[i][..at] + [entry] + w.m[i][at..]])
    case Choose(_, _, sp) => w.(pending := Some(sp))
    case Collect => World(Pruned(w.m, w.pending.value), None)
  }

  ghost predicate Good(nets: Networks, w: World) {
    Healthy(nets, w.m) && (w.pending.Some? ==> Healthy(nets, Pruned(w.m, w.pending.value)))
  }

  lemma MoreIsHealthy(nets: Networks, m: EntryMap, more: EntryMap)
    requires Healthy(nets, m) && Labelled(nets, more)
    requires forall i, e :: i in m && e in m[i] ==> e in more[i]
    ensures Healthy(nets, more)
  {
    forall i | i in more ensures Confirmed(more[i]) {
      assert Confirmed(m[i]);
      var e :| e in m[i] && !e.mempool;
      assert e in more[i];
    }
    forall i | i in nets ensures exists b :: Shares(nets, more, nets[i], b) {
      var b :| Shares(nets, m, nets[i], b);
      forall j | j in nets && nets[j] == nets[i] ensures HasBlock(more[j], b) {
        assert HasBlock(m[j], b);
        var e :| e in m[j] && Names(e, b);
        assert e in more[j];
      }
      assert Shares(nets, more, nets[i], b);
    }
  }

  lemma PrunedMore(nets: Networks, m: EntryMap, more: EntryMap, sp: Timestamp)
    requires Labelled(nets, more) && m.Keys == more.Keys
    requires forall i, e :: i in m && e in m[i] ==> e in more[i]
    ensures Labelled(nets, Pruned(more, sp))
    ensures forall i, e :: i in m && e in Pruned(m, sp)[i] ==> e in Pruned(more, sp)[i]
  {
    forall i, e: Entry | i in more && e in Pruned(more, sp)[i] ensures e.network == nets[i] {
      KeepAt(more[i], sp, e);
    }
    forall i, e: Entry | i in m && e in Pruned(m, sp)[i] ensures e in Pruned(more, sp)[i] {
      KeepAt(m[i], sp, e);
      KeepAt(more[i], sp, e);
    }
  }

  lemma PublishAdds(nets: Networks, w: World, e: Event)
    requires Labelled(nets, w.m) && Enabled(nets, w, e) && e.Publish?
    ensures Labelled(nets, Step(nets, w, e).m)
    ensures forall i, x :: i in w.m && x in w.m[i] ==> x in Step(nets, w, e).m[i]
  {
    var es := w.m[e.instance];
    assert es == es[..e.position] + es[e.position..];
    assert forall x :: x in Step(nets, w, e).m[e.instance] <==> x == e.entry || x in es;
  }

  lemma PublishKeepsGood(nets: Networks, w: World, e: Event)
    requires Good(nets, w) && Enabled(nets, w, e) && e.Publish?
    ensures Good(nets, Step(nets, w, e))
  {
    PublishAdds(nets, w, e);
    var w' := Step(nets, w, e);
    MoreIsHealthy(nets, w.m, w'.m);
    if w.pending.Some? {
      PrunedMore(nets, w.m, w'.m, w.pending.value);
      MoreIsHealthy(nets, Pruned(w.m, w.pending.value), Pruned(w'.m, w.pending.value));
    }
  }

  ghost predicate EnabledRun(nets: Networks, w: World, es: seq<Event>)
    decreases |es|
  {
    es != [] ==> Enabled(nets, w, es[0]) && EnabledRun(nets, Step(nets, w, es[0]), es[1..])
  }

  ghost function Run(nets: Networks, w: World, es: seq<Event>): World
    requires EnabledRun(nets, w, es)
    decreases |es|
  {
    if es == [] then w else Run(nets, Step(nets, w, es[0]), es[1..])
  }

  /**
   * GC safety over runs: with a fixed instance set, whatever cycles and publishes happen and however
   * they interleave, every instance keeps a confirmed entry and every network a common block, so the
   * selection of the next cycle is never without a chaintip or an intersection.
   */
  lemma {:induction false} RunStaysHealthy(nets: Networks, w: World, es: seq<Event>)
    requires Good(nets, w) && EnabledRun(nets, w, es)
    ensures Good(nets, Run(nets, w, es))
    ensures Fetched(Run(nets, w, es).m) && Intersects(Run(nets, w, es).m)
    ensures forall i :: i in Run(nets, w, es).m ==> Confirmed(Run(nets, w, es).m[i])
    decreases |es|
  {
    if es == [] {
      HealthyIsFetched(nets, w.m);
      HealthyIntersects(nets, w.m);
    } else {
      match es[0] {
        case Publish(_, _, _) => PublishKeepsGood(nets, w, es[0]);
        case Choose(now, zone, sp) => PruningKeepsHealthy(nets, w.m, now, zone, sp);
        case Collect =>
      }
      hide Good, Enabled, Step, Fetched, Intersects;
      RunStaysHealthy(nets, Step(nets, w, es[0]), es[1..]);
    }
  }

  /** What a cycle's choice allows to delete: entries further behind its clock than its safe zone. */
  predicate Old(e: Event, ts: Timestamp) {
    e.Choose? && (e.now - e.zone >= -0x8000_0000_0000_0000 ==> ts.physical + e.zone < e.now)
  }

  /**
   * Over every run, an entry that disappears was deleted by a cycle and lay before that cycle's safe zone:
   * no entry at or after `now - zone` is ever deleted by a cycle that chose at `now`.
   */
  lemma {:induction false} DeletedWasOld(nets: Networks, w: World, es: seq<Event>, i: Instance, entry: Entry)
    requires EnabledRun(nets, w, es) && i in w.m && entry in w.m[i]
    requires i !in Run(nets, w, es).m || entry !in Run(nets, w, es).m[i]
    ensures (w.pending.Some? && entry.ts.physical < w.pending.value.physical) || exists k :: 0 <= k < |es| && Old(es[k], entry.ts)
    decreases |es|
  {
    var next := Step(nets, w, es[0]);
    if i in next.m && entry in next.m[i] {
      DeletedWasOld(nets, next, es[1..], i, entry);
      if k :| 0 <= k < |es[1..]| && Old(es[1..][k], entry.ts) {
        assert Old(es[k + 1], entry.ts);
      }
      assert next.pending == w.pending || next.pending.None? || Old(es[0], entry.ts) || entry.ts.physical >= next.pending.value.physical;
    } else if es[0].Collect? {
      KeepAt(w.m[i], w.pending.value, entry);
    } else {
      PublishStays(w.m[es[0].instance], es[0].position, es[0].entry, entry);
    }
  }

  lemma PublishStays(es: seq<Entry>, at: nat, new_: Entry, e: Entry)
    requires at <= |es| && e in es
    ensures e in es[..at] + [new_] + es[at..]
  {
    assert es == es[..at] + es[at..];
  }
}
