/** Choosing the garbage collection safepoint from the cursor entries the instances publish. */
module Safepoint {
  import opened Wrappers
  import opened Bytes

  datatype Timestamp = Timestamp(physical: int, logical: int)

  datatype Entry = Entry(height: nat, hash: Bytes, mempool: bool, ts: Timestamp, network: string)

  datatype Instance = Instance(dataplane: Byte, id: nat)

  type EntryMap = map<Instance, seq<Entry>>

  predicate Le(a: Timestamp, b: Timestamp) {
    a.physical < b.physical || (a.physical == b.physical && a.logical <= b.logical)
  }

  /** Order by height, then timestamp. */
  predicate RankLe(a: Entry, b: Entry) {
    a.height < b.height || (a.height == b.height && Le(a.ts, b.ts))
  }

  // ---- Chaintips ----

  /** A highest confirmed entry, the latest of that height. */
  ghost predicate IsChaintip(es: seq<Entry>, tip: Entry) {
    tip in es && !tip.mempool && forall e :: e in es && !e.mempool ==> RankLe(e, tip)
  }

  ghost predicate Confirmed(es: seq<Entry>) {
    exists e :: e in es && !e.mempool
  }

  method InstanceChaintip(es: seq<Entry>) returns (tip: Option<Entry>)
    ensures tip.Some? <==> Confirmed(es)
    ensures tip.Some? ==> IsChaintip(es, tip.value)
    ensures tip.Some? ==> forall e :: e in es && !e.mempool ==>
              e.height < tip.value.height || (e.height == tip.value.height && e.ts.physical <= tip.value.ts.physical)
  {
    tip := None;
    for i := 0 to |es|
      invariant tip.None? ==> forall j :: 0 <= j < i ==> es[j].mempool
      invariant tip.Some? ==> tip.value in es && !tip.value.mempool
      invariant tip.Some? ==> forall j :: 0 <= j < i && !es[j].mempool ==> RankLe(es[j], tip.value)
    {
      if !es[i].mempool && (tip.None? || RankLe(tip.value, es[i])) {
        tip := Some(es[i]);
      }
    }
  }

  /** `ts` is the least timestamp of the instances' chaintips. */
  ghost predicate IsEarliestChaintip(m: EntryMap, ts: Timestamp) {
    && (forall i, tip :: i in m && IsChaintip(m[i], tip) ==> Le(ts, tip.ts))
    && exists i, tip :: i in m && IsChaintip(m[i], tip) && tip.ts == ts
  }

  lemma TipsAgree(es: seq<Entry>, a: Entry, b: Entry)
    requires IsChaintip(es, a) && IsChaintip(es, b)
    ensures a.ts == b.ts && a.height == b.height
  {
  }

  /** Panics exactly if some instance has no confirmed entry or the clock is behind the result. */
  method EarliestChaintip(m: EntryMap, now: int) returns (r: Outcome<Timestamp>)
    requires m != map[]
    ensures r.Ok? ==> IsEarliestChaintip(m, r.value) && r.value.physical <= now
    ensures r.Ok? ==> forall i :: i in m ==> Confirmed(m[i])
    ensures (forall i :: i in m ==> Confirmed(m[i])) ==>
              exists ts :: IsEarliestChaintip(m, ts) && (r == if ts.physical <= now then Ok(ts) else Panic)
  {
    var left := m.Keys;
    var ts: Option<Timestamp> := None;
    while left != {}
      invariant left <= m.Keys
      invariant ts.None? ==> left == m.Keys
      invariant forall i :: i in m && i !in left ==> Confirmed(m[i])
      invariant ts.Some? ==> exists i, tip :: i in m && IsChaintip(m[i], tip) && tip.ts == ts.value
      invariant ts.Some? ==> forall i, tip :: i in m && i !in left && IsChaintip(m[i], tip) ==> Le(ts.value, tip.ts)
    {
      var i :| i in left;
      var tip := InstanceChaintip(m[i]);
      if tip.None? {
        return Panic;
      }
      assert IsChaintip(m[i], tip.value);
      forall t | IsChaintip(m[i], t) ensures t.ts == tip.value.ts {
        TipsAgree(m[i], t, tip.value);
      }
      if ts.None? || Le(tip.value.ts, ts.value) {
        ts := Some(tip.value.ts);
      }
      left := left - {i};
    }
    assert IsEarliestChaintip(m, ts.value);
    r := if ts.value.physical <= now then Ok(ts.value) else Panic;
  }

  // ---- Common blocks of a network ----

  datatype BlockId = BlockId(height: nat, hash: Bytes)

  predicate Names(e: Entry, b: BlockId) {
    !e.mempool && e.height == b.height && e.hash == b.hash
  }

  ghost predicate HasBlock(es: seq<Entry>, b: BlockId) {
    exists e :: e in es && Names(e, b)
  }

  /** A confirmed block of which every instance of the group holds an entry. */
  ghost predicate Common(m: EntryMap, group: seq<Instance>, b: BlockId) {
    forall i :: i in group ==> i in m && HasBlock(m[i], b)
  }

  method FindBlock(es: seq<Entry>, b: BlockId) returns (found: bool)
    ensures found <==> HasBlock(es, b)
  {
    for i := 0 to |es|
      invariant forall j :: 0 <= j < i ==> !Names(es[j], b)
    {
      if Names(es[i], b) {
        return true;
      }
    }
    found := false;
  }

  method AllHave(m: EntryMap, group: seq<Instance>, b: BlockId) returns (all: bool)
    requires forall i :: i in group ==> i in m
    ensures all <==> Common(m, group, b)
  {
    for k := 0 to |group|
      invariant forall j :: 0 <= j < k ==> HasBlock(m[group[j]], b)
    {
      var found := FindBlock(m[group[k]], b);
      if !found {
        return false;
      }
    }
    all := true;
  }

  ghost predicate Descending(es: seq<Entry>) {
    forall i, j :: 0 <= i < j < |es| ==> RankLe(es[j], es[i])
  }

  function Insert(es: seq<Entry>, e: Entry): seq<Entry> {
    if es == [] || RankLe(es[0], e) then [e] + es else [es[0]] + Insert(es[1..], e)
  }

  lemma {:induction false} InsertKeeps(es: seq<Entry>, e: Entry)
    requires Descending(es)
    ensures Descending(Insert(es, e))
    ensures forall x :: x in Insert(es, e) <==> x == e || x in es
  {
    if es == [] || RankLe(es[0], e) {
      var r := [e] + es;
      forall i, j | 0 <= i < j < |r| ensures RankLe(r[j], r[i]) {
        if i == 0 && j > 1 { assert RankLe(es[j - 1], es[0]); }
      }
    } else {
      assert forall i, j :: 0 <= i < j < |es[1..]| ==> es[1..][i] == es[i + 1] && es[1..][j] == es[j + 1];
      InsertKeeps(es[1..], e);
      var t := Insert(es[1..], e);
      forall j | 0 <= j < |t| ensures RankLe(t[j], es[0]) {
        assert t[j] == e || t[j] in es[1..];
        if t[j] != e {
          var k :| 0 <= k < |es[1..]| && es[1..][k] == t[j];
          assert RankLe(es[k + 1], es[0]);
        }
      }
    }
  }

  /** Confirmed entries, highest and latest first. */
  method Candidates(es: seq<Entry>) returns (r: seq<Entry>)
    ensures Descending(r)
    ensures forall e :: e in r <==> e in es && !e.mempool
  {
    r := [];
    for i := 0 to |es|
      invariant Descending(r)
      invariant forall e :: e in r <==> e in es[..i] && !e.mempool
    {
      assert es[..i + 1] == es[..i] + [es[i]];
      if !es[i].mempool {
        InsertKeeps(r, es[i]);
        r := Insert(r, es[i]);
      }
    }
    assert es[..|es|] == es;
  }

  /** A common block of the greatest height there is. */
  ghost predicate IsBest(m: EntryMap, group: seq<Instance>, b: BlockId) {
    Common(m, group, b) && forall c :: Common(m, group, c) ==> c.height <= b.height
  }

  function Id(e: Entry): BlockId {
    BlockId(e.height, e.hash)
  }

  /**
   * The highest common block, and a common block one below it if there is one. Which instance comes
   * first in the group does not matter for any of this.
   */
  method Intersections(m: EntryMap, group: seq<Instance>) returns (best: Option<BlockId>, previous: Option<BlockId>)
    requires group != [] && forall i :: i in group ==> i in m
    ensures best.Some? <==> exists b :: Common(m, group, b)
    ensures best.Some? ==> IsBest(m, group, best.value)
    ensures previous.Some? ==> best.Some? && Common(m, group, previous.value) && previous.value.height + 1 == best.value.height
    ensures best.Some? && previous.None? ==> forall c :: Common(m, group, c) ==> c.height + 1 != best.value.height
  {
    best, previous := None, None;
    var candidates := Candidates(m[group[0]]);
    CommonAreCandidates(m, group, candidates);
    var k := 0;
    while k < |candidates|
      invariant 0 <= k <= |candidates| && previous.None?
      invariant best.Some? ==> IsBest(m, group, best.value)
      invariant best.Some? ==> forall j :: k <= j < |candidates| ==> candidates[j].height <= best.value.height
      invariant forall c :: Common(m, group, c) && !Ahead(candidates, k, c) ==>
        best.Some? && c.height == best.value.height
    {
      var c := candidates[k];
      if best.Some? && c.height == best.value.height {
        k := k + 1;
        continue;
      }
      if best.Some? && (best.value.height == 0 || c.height != best.value.height - 1) {
        NoneAhead(candidates, k, best.value.height);
        break;
      }
      var common := AllHave(m, group, Id(c));
      if !common {
        k := k + 1;
        continue;
      }
      if best.None? {
        FirstIsBest(candidates, k, m, group);
        assert forall j :: k < j < |candidates| ==> RankLe(candidates[j], candidates[k]);
        best := Some(Id(c));
      } else {
        previous := Some(Id(c));
        break;
      }
      k := k + 1;
    }
  }

  /** `b` is named by a candidate that has not been looked at yet. */
  ghost predicate Ahead(candidates: seq<Entry>, k: nat, b: BlockId) {
    exists j :: k <= j < |candidates| && Id(candidates[j]) == b
  }

  lemma CommonAreCandidates(m: EntryMap, group: seq<Instance>, candidates: seq<Entry>)
    requires group != [] && group[0] in m
    requires forall e :: e in candidates <==> e in m[group[0]] && !e.mempool
    ensures forall c :: Common(m, group, c) ==> Ahead(candidates, 0, c)
  {
    forall c | Common(m, group, c) ensures Ahead(candidates, 0, c) {
      assert group[0] in group && HasBlock(m[group[0]], c);
      var e :| e in m[group[0]] && Names(e, c);
      assert e in candidates;
      var j :| 0 <= j < |candidates| && candidates[j] == e;
      assert Id(candidates[j]) == c;
    }
  }

  lemma FirstIsBest(candidates: seq<Entry>, k: nat, m: EntryMap, group: seq<Instance>)
    requires k < |candidates| && Descending(candidates) && Common(m, group, Id(candidates[k]))
    requires forall c :: Common(m, group, c) ==> Ahead(candidates, k, c)
    ensures IsBest(m, group, Id(candidates[k]))
  {
    forall c | Common(m, group, c) ensures c.height <= candidates[k].height {
      var j :| k <= j < |candidates| && Id(candidates[j]) == c;
      assert j > k ==> RankLe(candidates[j], candidates[k]);
    }
  }

  lemma NoneAhead(candidates: seq<Entry>, k: nat, height: nat)
    requires k < |candidates| && Descending(candidates)
    requires candidates[k].height != height && (height == 0 || candidates[k].height != height - 1)
    requires candidates[k].height <= height
    ensures forall c :: Ahead(candidates, k, c) ==> c.height + 1 != height
  {
    forall c | Ahead(candidates, k, c) ensures c.height + 1 != height {
      var j :| k <= j < |candidates| && Id(candidates[j]) == c;
      assert j > k ==> RankLe(candidates[j], candidates[k]);
    }
  }

  // ---- Timestamps of common blocks ----

  ghost predicate Anchored(es: seq<Entry>, b: BlockId, ts: Timestamp) {
    exists e :: e in es && Names(e, b) && Le(ts, e.ts)
  }

  ghost predicate IsLatest(es: seq<Entry>, b: BlockId, ts: Timestamp) {
    && (exists e :: e in es && Names(e, b) && e.ts == ts)
    && forall e :: e in es && Names(e, b) ==> Le(e.ts, ts)
  }

  method LatestOf(es: seq<Entry>, b: BlockId) returns (ts: Timestamp)
    requires HasBlock(es, b)
    ensures IsLatest(es, b, ts)
  {
    var found: Option<Timestamp> := None;
    for i := 0 to |es|
      invariant found.None? ==> forall j :: 0 <= j < i ==> !Names(es[j], b)
      invariant found.Some? ==> exists e :: e in es && Names(e, b) && e.ts == found.value
      invariant found.Some? ==> forall j :: 0 <= j < i && Names(es[j], b) ==> Le(es[j].ts, found.value)
    {
      if Names(es[i], b) && (found.None? || Le(found.value, es[i].ts)) {
        found := Some(es[i].ts);
      }
    }
    ts := found.value;
  }

  /** A common block one below the highest common one, or if there is none, a highest one itself. */
  ghost predicate Protected(m: EntryMap, group: seq<Instance>, b: BlockId) {
    Common(m, group, b) && exists best :: IsBest(m, group, best) && StandsIn(m, group, b, best)
  }

  ghost predicate StandsIn(m: EntryMap, group: seq<Instance>, b: BlockId, best: BlockId) {
    if b.height != best.height then b.height + 1 == best.height
    else forall c :: Common(m, group, c) ==> c.height + 1 != best.height
  }

  /** The earliest, over the group, of the latest timestamps of a protected block. */
  ghost predicate IsGroupSafepoint(m: EntryMap, group: seq<Instance>, b: BlockId, ts: Timestamp) {
    && Protected(m, group, b)
    && (forall i :: i in group ==> i in m && Anchored(m[i], b, ts))
    && exists i :: i in group && i in m && IsLatest(m[i], b, ts)
  }

  method GroupSafepoint(m: EntryMap, group: seq<Instance>) returns (r: Outcome<Timestamp>)
    requires group != [] && forall i :: i in group ==> i in m
    ensures r.Ok? <==> exists b :: Common(m, group, b)
    ensures r.Ok? ==> exists b :: IsGroupSafepoint(m, group, b, r.value)
  {
    var best, previous := Intersections(m, group);
    if best.None? {
      return Panic;
    }
    var block := if previous.Some? then previous.value else best.value;
    assert Protected(m, group, block) by {
      assert IsBest(m, group, best.value) && StandsIn(m, group, block, best.value);
    }
    var ts := EarliestOfLatest(m, group, block);
    assert IsGroupSafepoint(m, group, block, ts);
    r := Ok(ts);
  }

  method EarliestOfLatest(m: EntryMap, group: seq<Instance>, b: BlockId) returns (ts: Timestamp)
    requires group != [] && Common(m, group, b)
    ensures forall i :: i in group ==> i in m && Anchored(m[i], b, ts)
    ensures exists i :: i in group && i in m && IsLatest(m[i], b, ts)
  {
    ts := LatestOf(m[group[0]], b);
    for k := 1 to |group|
      invariant forall j :: 0 <= j < k ==> Anchored(m[group[j]], b, ts)
      invariant exists i :: i in group && i in m && IsLatest(m[i], b, ts)
    {
      var latest := LatestOf(m[group[k]], b);
      if Le(latest, ts) {
        forall j | 0 <= j < k ensures Anchored(m[group[j]], b, latest) {
          var e :| e in m[group[j]] && Names(e, b) && Le(ts, e.ts);
          assert Le(latest, e.ts);
        }
        ts := latest;
      }
    }
  }

  // ---- All networks ----

  /** Fetched maps hold no empty entry list; the first entry tells an instance's network. */
  ghost predicate Fetched(m: EntryMap) {
    forall i :: i in m ==> m[i] != []
  }

  ghost predicate IsGroup(m: EntryMap, n: string, group: seq<Instance>)
    requires Fetched(m)
  {
    group != [] && forall i :: i in group <==> i in m && m[i][0].network == n
  }

  ghost predicate IsGrouping(m: EntryMap, groups: map<string, seq<Instance>>)
    requires Fetched(m)
  {
    && (forall n :: n in groups ==> IsGroup(m, n, groups[n]))
    && (forall i :: i in m ==> m[i][0].network in groups)
  }

  method Groups(m: EntryMap) returns (groups: map<string, seq<Instance>>)
    requires Fetched(m)
    ensures IsGrouping(m, groups)
  {
    groups := map[];
    var left := m.Keys;
    while left != {}
      invariant left <= m.Keys
      invariant forall n :: n in groups ==>
        groups[n] != [] && forall i :: i in groups[n] <==> i in m && i !in left && m[i][0].network == n
      invariant forall i :: i in m && i !in left ==> m[i][0].network in groups
    {
      var i :| i in left;
      var n := m[i][0].network;
      var old_ := if n in groups then groups[n] else [];
      assert forall j :: j in old_ + [i] <==> j in old_ || j == i;
      groups := groups[n := old_ + [i]];
      left := left - {i};
    }
  }

  /** Every network keeps, in all its instances, one common block at or after `ts`. */
  ghost predicate KeepsNetworks(m: EntryMap, ts: Timestamp)
    requires Fetched(m)
  {
    forall n, group :: IsGroup(m, n, group) ==> exists b :: Guards(m, group, b, ts)
  }

  ghost predicate Guards(m: EntryMap, group: seq<Instance>, b: BlockId, ts: Timestamp) {
    Protected(m, group, b) && forall i :: i in group ==> i in m && Anchored(m[i], b, ts)
  }

  ghost predicate Intersects(m: EntryMap)
    requires Fetched(m)
  {
    forall n, group :: IsGroup(m, n, group) ==> exists b :: Common(m, group, b)
  }

  lemma SameGroup(m: EntryMap, n: string, g: seq<Instance>, h: seq<Instance>, ts: Timestamp)
    requires Fetched(m) && IsGroup(m, n, g) && IsGroup(m, n, h)
    ensures forall b :: Common(m, g, b) <==> Common(m, h, b)
    ensures forall b :: Guards(m, g, b, ts) ==> Guards(m, h, b, ts)
  {
    forall b ensures Common(m, g, b) <==> Common(m, h, b) {
      assert forall i :: i in g <==> i in h;
    }
    forall b | Guards(m, g, b, ts) ensures Guards(m, h, b, ts) {
      var best :| IsBest(m, g, best) && StandsIn(m, g, b, best);
      assert IsBest(m, h, best) && StandsIn(m, h, b, best);
      assert forall i :: i in g <==> i in h;
    }
  }

  lemma GuardsEarlier(m: EntryMap, group: seq<Instance>, b: BlockId, ts: Timestamp, earlier: Timestamp)
    requires Guards(m, group, b, ts) && Le(earlier, ts)
    ensures Guards(m, group, b, earlier)
  {
    forall i | i in group ensures Anchored(m[i], b, earlier) {
      assert Anchored(m[i], b, ts);
      var e :| e in m[i] && Names(e, b) && Le(ts, e.ts);
      assert Le(earlier, e.ts);
    }
  }

  /** `ts` is the timestamp of some network. */
  ghost predicate OfNetwork(m: EntryMap, ts: Timestamp)
    requires Fetched(m)
  {
    exists n, group, b :: IsGroup(m, n, group) && IsGroupSafepoint(m, group, b, ts)
  }

  method NetworkIntersection(m: EntryMap) returns (r: Outcome<Timestamp>)
    requires m != map[] && Fetched(m)
    ensures r.Ok? ==> KeepsNetworks(m, r.value) && OfNetwork(m, r.value)
    ensures r.Ok? <==> Intersects(m)
  {
    hide Guards, IsGroupSafepoint, Common, OfNetwork, KeepsNetworks;
    var groups := Groups(m);
    var left := groups.Keys;
    var ts: Option<Timestamp> := None;
    while left != {}
      invariant left <= groups.Keys
      invariant ts.None? ==> left == groups.Keys
      invariant ts.Some? ==> forall n :: n in groups && n !in left ==> exists b :: Guards(m, groups[n], b, ts.value)
      invariant ts.Some? ==> OfNetwork(m, ts.value)
    {
      var n :| n in left;
      assert IsGroup(m, n, groups[n]);
      var g := GroupSafepoint(m, groups[n]);
      if g.Panic? {
        return Panic;
      }
      NetworkOf(m, n, groups[n], g.value);
      ts := LowerTo(m, groups, groups.Keys - left, ts, n, g.value);
      left := left - {n};
    }
    var some :| some in m;
    assert m[some][0].network in groups;
    AllNetworks(m, groups, ts.value);
    r := Ok(ts.value);
  }

  lemma NetworkOf(m: EntryMap, n: string, group: seq<Instance>, ts: Timestamp)
    requires Fetched(m) && IsGroup(m, n, group) && exists b :: IsGroupSafepoint(m, group, b, ts)
    ensures OfNetwork(m, ts)
  {
  }

  lemma AllNetworks(m: EntryMap, groups: map<string, seq<Instance>>, ts: Timestamp)
    requires Fetched(m) && IsGrouping(m, groups)
    requires forall n :: n in groups ==> exists b :: Guards(m, groups[n], b, ts)
    ensures KeepsNetworks(m, ts) && Intersects(m)
  {
    forall n, group | IsGroup(m, n, group)
      ensures exists b :: Guards(m, group, b, ts)
      ensures exists b :: Common(m, group, b)
    {
      assert group[0] in group && n in groups;
      var b :| Guards(m, groups[n], b, ts);
      SameGroup(m, n, groups[n], group, ts);
      assert Guards(m, group, b, ts) && Common(m, group, b);
    }
  }

  /** The running minimum of the networks' timestamps. */
  method LowerTo(m: EntryMap, groups: map<string, seq<Instance>>, done: set<string>, ts: Option<Timestamp>, n: string, next: Timestamp)
    returns (r: Option<Timestamp>)
    requires done <= groups.Keys && n in groups && (ts.None? ==> done == {})
    requires ts.Some? ==> forall k :: k in done ==> exists b :: Guards(m, groups[k], b, ts.value)
    requires exists b :: IsGroupSafepoint(m, groups[n], b, next)
    ensures r.Some? && (r == ts || r == Some(next))
    ensures forall k :: k in done + {n} ==> exists b :: Guards(m, groups[k], b, r.value)
  {
    r := if ts.Some? && Le(ts.value, next) then ts else Some(next);
    ghost var mine :| IsGroupSafepoint(m, groups[n], mine, next);
    assert Guards(m, groups[n], mine, next);
    GuardsEarlier(m, groups[n], mine, next, r.value);
    forall k | k in done ensures exists b :: Guards(m, groups[k], b, r.value) {
      var b :| Guards(m, groups[k], b, ts.value);
      GuardsEarlier(m, groups[k], b, ts.value, r.value);
    }
  }

  // ---- The safepoint ----

  const MIN_I64: int := -0x8000_0000_0000_0000
  const MAX_I64: int := 0x7FFF_FFFF_FFFF_FFFF

  function SafeZone(now: int, zone: int): Timestamp {
    Timestamp(if now - zone < MIN_I64 then MIN_I64 else if now - zone > MAX_I64 then MAX_I64 else now - zone, 0)
  }

  /** At least `zone` behind the clock, or where no timestamp can be, at the first one. */
  predicate Behind(now: int, zone: int, ts: Timestamp) {
    || ts.physical + zone < now
    || (ts.physical + zone == now && ts.logical <= 0)
    || ts.physical <= -0x8000_0000_0000_0000
  }

  /** Exactly `zone` behind the clock, as far as that can be represented. */
  predicate AtZone(now: int, zone: int, ts: Timestamp) {
    && ts.logical == 0
    && (-0x8000_0000_0000_0000 <= now - zone <= 0x7FFF_FFFF_FFFF_FFFF ==> ts.physical + zone == now)
  }

  ghost predicate KeepsChaintips(m: EntryMap, ts: Timestamp) {
    forall i, tip :: i in m && IsChaintip(m[i], tip) ==> Le(ts, tip.ts)
  }

  /** The three invariants a safepoint must not break. */
  ghost predicate Safe(m: EntryMap, now: int, zone: int, ts: Timestamp)
    requires Fetched(m)
  {
    KeepsChaintips(m, ts) && Behind(now, zone, ts) && KeepsNetworks(m, ts)
  }

  lemma ChaintipsEarlier(m: EntryMap, tip: Timestamp, earlier: Timestamp)
    requires IsEarliestChaintip(m, tip) && Le(earlier, tip)
    ensures KeepsChaintips(m, earlier)
  {
  }

  lemma KeepsNetworksEarlier(m: EntryMap, ts: Timestamp, earlier: Timestamp)
    requires Fetched(m) && KeepsNetworks(m, ts) && Le(earlier, ts)
    ensures KeepsNetworks(m, earlier)
  {
    forall n, group | IsGroup(m, n, group) ensures exists b :: Guards(m, group, b, earlier) {
      var b :| Guards(m, group, b, ts);
      GuardsEarlier(m, group, b, ts, earlier);
    }
  }

  /** It is no earlier than it has to be: one of the three bounds is met exactly. */
  ghost predicate IsCandidate(m: EntryMap, now: int, zone: int, ts: Timestamp)
    requires Fetched(m)
  {
    IsEarliestChaintip(m, ts) || AtZone(now, zone, ts) || OfNetwork(m, ts)
  }

  /** Neither the chaintips nor any network ask for an earlier timestamp. */
  ghost predicate ZoneIsEarliest(m: EntryMap, now: int, zone: int)
    requires Fetched(m)
  {
    && -0x8000_0000_0000_0000 <= now - zone <= 0x7FFF_FFFF_FFFF_FFFF
    && forall ts :: IsEarliestChaintip(m, ts) || OfNetwork(m, ts) ==> Le(Timestamp(now - zone, 0), ts)
  }

  function Earlier(a: Timestamp, b: Timestamp): Timestamp {
    if Le(a, b) then a else b
  }

  /**
   * The earliest of the three candidates. With a confirmed entry in every instance, a common block
   * in every network and a clock not behind the chaintips, a safepoint is found.
   */
  method NewSafepoint(m: EntryMap, now: int, zone: int) returns (r: Outcome<Option<Timestamp>>)
    requires Fetched(m)
    ensures m == map[] ==> r == Ok(None)
    ensures m != map[] && r.Ok? ==> r.value.Some? && Safe(m, now, zone, r.value.value)
    ensures m != map[] && r.Ok? ==> Intersects(m) && forall i :: i in m ==> Confirmed(m[i])
    ensures m != map[] && r.Ok? ==> IsCandidate(m, now, zone, r.value.value)
    ensures m != map[] && r.Ok? && now - zone >= -0x8000_0000_0000_0000 ==> r.value.value.physical + zone <= now
    ensures m != map[] && r.Ok? && ZoneIsEarliest(m, now, zone) ==> r.value.value == Timestamp(now - zone, 0)
    ensures m != map[] && (forall i :: i in m ==> Confirmed(m[i])) && Intersects(m) ==>
              exists tip :: IsEarliestChaintip(m, tip) && (r.Ok? <==> tip.physical <= now)
  {
    hide KeepsNetworks, OfNetwork, Intersects, IsEarliestChaintip, KeepsChaintips, Confirmed, Fetched;
    if m == map[] {
      return Ok(None);
    }
    var chaintip := EarliestChaintip(m, now);
    if chaintip.Panic? {
      return Panic;
    }
    var network := NetworkIntersection(m);
    if network.Panic? {
      return Panic;
    }
    var ts := Earlier(chaintip.value, Earlier(SafeZone(now, zone), network.value));
    KeepsNetworksEarlier(m, network.value, ts);
    ChaintipsEarlier(m, chaintip.value, ts);
    r := Ok(Some(ts));
  }
}
