/** The persisted copy of the rollback buffer, how it is reloaded, and its agreement with memory. */
module PersistentBuffer {
  import opened Bytes
  import opened Points
  import opened StorageActions
  import opened Database
  import opened StorageStage
  import RB = RollbackBuffer

  // ---- Listing the metadata in key order ----

  datatype KeyValue = KeyValue(key: MetaKey, value: Value)

  predicate KeyLess(a: MetaKey, b: MetaKey) {
    a.slot < b.slot || (a.slot == b.slot &&
      (Before(a.hash, b.hash) || (a.hash == b.hash &&
        (a.index < b.index || (a.index == b.index && Before(a.key, b.key))))))
  }

  ghost predicate Sorted(kvs: seq<KeyValue>) {
    forall i, j :: 0 <= i < j < |kvs| ==> KeyLess(kvs[i].key, kvs[j].key)
  }

  /** What a full scan of the metadata returns. */
  ghost predicate Listing(kvs: seq<KeyValue>, meta: Metadata) {
    && Sorted(kvs)
    && (forall i :: 0 <= i < |kvs| ==> kvs[i].key in meta && meta[kvs[i].key] == kvs[i].value)
    && (forall k :: k in meta ==> Lists(kvs, k))
  }

  ghost predicate Lists(kvs: seq<KeyValue>, k: MetaKey) {
    exists i :: 0 <= i < |kvs| && kvs[i].key == k
  }

  lemma KeyLessAsymmetric(a: MetaKey, b: MetaKey)
    ensures !(KeyLess(a, b) && KeyLess(b, a)) && !KeyLess(a, a)
  {
    OrderTotal(a.hash, b.hash);
    OrderTotal(a.key, b.key);
    OrderIrreflexive(a.hash);
    OrderIrreflexive(a.key);
  }

  lemma FirstIsFirst(a: seq<KeyValue>, b: seq<KeyValue>, meta: Metadata)
    requires Listing(a, meta) && Listing(b, meta) && a != []
    ensures b != [] && a[0] == b[0]
  {
    assert Lists(b, a[0].key);
    var j :| 0 <= j < |b| && b[j].key == a[0].key;
    assert Lists(a, b[0].key);
    var i :| 0 <= i < |a| && a[i].key == b[0].key;
    assert j > 0 ==> KeyLess(b[0].key, b[j].key);
    assert i > 0 ==> KeyLess(a[0].key, a[i].key);
    KeyLessAsymmetric(a[0].key, b[0].key);
  }

  lemma TailIsListing(a: seq<KeyValue>, meta: Metadata)
    requires Listing(a, meta) && a != []
    ensures Listing(a[1..], meta - {a[0].key})
  {
    var t := a[1..];
    forall i | 0 <= i < |t| ensures t[i].key in meta - {a[0].key} && (meta - {a[0].key})[t[i].key] == t[i].value {
      assert KeyLess(a[0].key, a[i + 1].key);
      KeyLessAsymmetric(a[0].key, a[0].key);
    }
    forall k | k in meta - {a[0].key} ensures Lists(t, k) {
      assert Lists(a, k);
      var i :| 0 <= i < |a| && a[i].key == k;
      assert t[i - 1].key == k;
    }
  }

  lemma {:induction false} ListingUnique(a: seq<KeyValue>, b: seq<KeyValue>, meta: Metadata)
    requires Listing(a, meta) && Listing(b, meta)
    ensures a == b
    decreases |a| + |b|
  {
    if a != [] {
      FirstIsFirst(a, b, meta);
      TailIsListing(a, meta);
      TailIsListing(b, meta);
      ListingUnique(a[1..], b[1..], meta - {a[0].key});
      assert a == [a[0]] + a[1..] && b == [b[0]] + b[1..];
    } else if b != [] {
      FirstIsFirst(b, a, meta);
    }
  }

  // ---- Reloading ----

  function LoadedAction(kv: KeyValue): StorageAction {
    if kv.value == [] then Delete(kv.key.key) else Set(kv.key.key, kv.value)
  }

  function ParseFrom(current: Point, actions: seq<StorageAction>, kvs: seq<KeyValue>): seq<Entry>
    decreases |kvs|
  {
    if kvs == [] then
      if current == Origin then [] else [RB.PointWithResult(current, actions)]
    else if kvs[0].key.slot != SlotOrDefault(current) then
      (if SlotOrDefault(current) != 0 then [RB.PointWithResult(current, actions)] else [])
      + ParseFrom(Specific(kvs[0].key.slot, kvs[0].key.hash), [LoadedAction(kvs[0])], kvs[1..])
    else ParseFrom(current, actions + [LoadedAction(kvs[0])], kvs[1..])
  }

  /** Group a listing by slot into entries, oldest first; slot zero is taken for the start point. */
  method Reload(kvs: seq<KeyValue>) returns (buffer: seq<Entry>)
    ensures buffer == ParseFrom(Origin, [], kvs)
  {
    var current := Origin;
    var currentSlot := 0;
    var actions := [];
    buffer := [];
    for i := 0 to |kvs|
      invariant currentSlot == SlotOrDefault(current)
      invariant buffer + ParseFrom(current, actions, kvs[i..]) == ParseFrom(Origin, [], kvs)
    {
      assert kvs[i..][0] == kvs[i] && kvs[i..][1..] == kvs[i + 1..];
      ghost var done, was, had := buffer, current, actions;
      if kvs[i].key.slot != currentSlot {
        if currentSlot != 0 {
          buffer := buffer + [RB.PointWithResult(current, actions)];
        }
        current := Specific(kvs[i].key.slot, kvs[i].key.hash);
        currentSlot := kvs[i].key.slot;
        actions := [];
      }
      actions := actions + [LoadedAction(kvs[i])];
      if kvs[i].key.slot != SlotOrDefault(was) {
        assert actions == [LoadedAction(kvs[i])];
      }
      assert buffer + ParseFrom(current, actions, kvs[i + 1..]) == done + ParseFrom(was, had, kvs[i..]);
    }
    if current != Origin {
      buffer := buffer + [RB.PointWithResult(current, actions)];
    }
  }

  // ---- The undo history and its persisted form ----

  /** Newest first; only the oldest point may be the origin. */
  ghost predicate Chain(h: seq<Entry>) {
    forall i, j :: 0 <= i < j < |h| ==> Newer(h[i], h[j])
  }

  predicate Newer(a: Entry, b: Entry) {
    a.point.Specific? && Precedes(b.point, a.point)
  }

  lemma ChainSlice(h: seq<Entry>, from: nat, to: nat)
    requires Chain(h) && from <= to <= |h|
    ensures Chain(h[from..to])
  {
    forall i, j | 0 <= i < j < to - from ensures Newer(h[from..to][i], h[from..to][j]) {
      assert Newer(h[from + i], h[from + j]);
    }
  }

  predicate Precedes(a: Point, b: Point) {
    a.Origin? || (b.Specific? && a.slot < b.slot)
  }

  function EntryMeta(e: Entry): Metadata {
    if e.point.Origin? then map[] else MetaOf(e.point.slot, e.point.hash, e.result)
  }

  function Persist(h: seq<Entry>): Metadata {
    if h == [] then map[] else Persist(h[1..]) + EntryMeta(h[0])
  }

  function EntryListing(e: Entry): seq<KeyValue> {
    if e.point.Origin? then []
    else
      seq(|e.result|, i requires 0 <= i < |e.result| =>
        KeyValue(MetaKey(e.point.slot, e.point.hash, i, e.result[i].key), InverseValue(e.result[i])))
  }

  function HistoryListing(h: seq<Entry>): seq<KeyValue> {
    if h == [] then [] else HistoryListing(h[1..]) + EntryListing(h[0])
  }

  lemma {:induction false} MetaOfAt(slot: U64, hash: Bytes, inverses: seq<StorageAction>, k: MetaKey)
    ensures k in MetaOf(slot, hash, inverses) <==>
            k.index < |inverses| && k == MetaKey(slot, hash, k.index, inverses[k.index].key)
    ensures k in MetaOf(slot, hash, inverses) ==> MetaOf(slot, hash, inverses)[k] == InverseValue(inverses[k.index])
  {
    if inverses != [] {
      MetaOfAt(slot, hash, inverses[..|inverses| - 1], k);
    }
  }

  lemma EntryIsListed(e: Entry)
    ensures Listing(EntryListing(e), EntryMeta(e))
  {
    var l, m := EntryListing(e), EntryMeta(e);
    if e.point.Specific? {
      forall i | 0 <= i < |l| ensures l[i].key in m && m[l[i].key] == l[i].value {
        MetaOfAt(e.point.slot, e.point.hash, e.result, l[i].key);
      }
      forall k | k in m ensures Lists(l, k) {
        MetaOfAt(e.point.slot, e.point.hash, e.result, k);
        assert l[k.index].key == k;
      }
    }
  }

  lemma ListingConcat(a: seq<KeyValue>, ma: Metadata, b: seq<KeyValue>, mb: Metadata)
    requires Listing(a, ma) && Listing(b, mb)
    requires forall x, y :: x in ma && y in mb ==> x.slot < y.slot
    ensures Listing(a + b, ma + mb)
  {
    var l, m := a + b, ma + mb;
    forall i | 0 <= i < |l| ensures l[i].key in m && m[l[i].key] == l[i].value {
      if i < |a| {
        assert l[i].key in ma && l[i].key !in mb;
      }
    }
    forall i, j | 0 <= i < j < |l| ensures KeyLess(l[i].key, l[j].key) {
      if i < |a| <= j {
        assert a[i].key in ma && b[j - |a|].key in mb;
      }
    }
    forall k | k in m ensures Lists(l, k) {
      if k in mb {
        assert Lists(b, k);
        var j :| 0 <= j < |b| && b[j].key == k;
        assert l[|a| + j].key == k;
      } else {
        assert Lists(a, k);
        var j :| 0 <= j < |a| && a[j].key == k;
        assert l[j].key == k;
      }
    }
  }

  lemma {:induction false} PersistKey(h: seq<Entry>, k: MetaKey)
    requires k in Persist(h)
    ensures exists i :: 0 <= i < |h| && h[i].point == Specific(k.slot, k.hash)
  {
    if k in EntryMeta(h[0]) {
      MetaOfAt(h[0].point.slot, h[0].point.hash, h[0].result, k);
    } else {
      PersistKey(h[1..], k);
      var i :| 0 <= i < |h[1..]| && h[1..][i].point == Specific(k.slot, k.hash);
      assert h[i + 1].point == Specific(k.slot, k.hash);
    }
  }

  lemma {:induction false} HistoryIsListed(h: seq<Entry>)
    requires Chain(h)
    ensures Listing(HistoryListing(h), Persist(h))
  {
    if h != [] {
      var rest := h[1..];
      assert rest == h[1..|h|];
      ChainSlice(h, 1, |h|);
      HistoryIsListed(rest);
      EntryIsListed(h[0]);
      forall x, y | x in Persist(rest) && y in EntryMeta(h[0]) ensures x.slot < y.slot {
        PersistKey(rest, x);
        var i :| 0 <= i < |rest| && rest[i].point == Specific(x.slot, x.hash);
        assert Newer(h[0], h[i + 1]);
        MetaOfAt(h[0].point.slot, h[0].point.hash, h[0].result, y);
      }
      ListingConcat(HistoryListing(rest), Persist(rest), EntryListing(h[0]), EntryMeta(h[0]));
    }
  }

  // ---- What parsing a persisted history gives ----

  function Normalised(actions: seq<StorageAction>): (r: seq<StorageAction>)
    ensures |r| == |actions|
  {
    seq(|actions|, i requires 0 <= i < |actions| =>
      if InverseValue(actions[i]) == [] then Delete(actions[i].key) else Set(actions[i].key, InverseValue(actions[i])))
  }

  predicate Survives(e: Entry) {
    e.point.Specific? && e.point.slot > 0 && e.result != []
  }

  /** The entries that come back, newest first. */
  function Stored(h: seq<Entry>): seq<Entry> {
    if h == [] then []
    else (if Survives(h[0]) then [RB.PointWithResult(h[0].point, Normalised(h[0].result))] else []) + Stored(h[1..])
  }

  function Flip(entries: seq<Entry>): seq<Entry> {
    if entries == [] then [] else [entries[|entries| - 1]] + Flip(entries[..|entries| - 1])
  }

  lemma {:induction false} ParseSameSlot(p: Point, actions: seq<StorageAction>, kvs: seq<KeyValue>)
    requires p.Specific? && forall i :: 0 <= i < |kvs| ==> kvs[i].key.slot == p.slot
    ensures ParseFrom(p, actions, kvs)
            == [RB.PointWithResult(p, actions + seq(|kvs|, i requires 0 <= i < |kvs| => LoadedAction(kvs[i])))]
    decreases |kvs|
  {
    var loaded := seq(|kvs|, i requires 0 <= i < |kvs| => LoadedAction(kvs[i]));
    if kvs == [] {
      assert actions + loaded == actions;
    } else {
      var rest := kvs[1..];
      ParseSameSlot(p, actions + [LoadedAction(kvs[0])], rest);
      assert actions + [LoadedAction(kvs[0])] + seq(|rest|, i requires 0 <= i < |rest| => LoadedAction(rest[i]))
          == actions + loaded;
    }
  }

  lemma ParseOne(p: Point, actions: seq<StorageAction>, e: Entry)
    requires p.Origin? || p.slot > 0
    requires Survives(e) && e.point.slot != SlotOrDefault(p)
    ensures ParseFrom(p, actions, EntryListing(e))
            == ParseFrom(p, actions, []) + [RB.PointWithResult(e.point, Normalised(e.result))]
  {
    var kvs := EntryListing(e);
    var rest := kvs[1..];
    ParseSameSlot(e.point, [LoadedAction(kvs[0])], rest);
    assert [LoadedAction(kvs[0])] + seq(|rest|, i requires 0 <= i < |rest| => LoadedAction(rest[i]))
        == Normalised(e.result);
  }

  lemma {:induction false} ParseAppend(p: Point, actions: seq<StorageAction>, kvs: seq<KeyValue>, e: Entry)
    requires p.Origin? || p.slot > 0
    requires Survives(e) && e.point.slot != SlotOrDefault(p)
    requires forall i :: 0 <= i < |kvs| ==> 0 < kvs[i].key.slot < e.point.slot
    ensures ParseFrom(p, actions, kvs + EntryListing(e))
            == ParseFrom(p, actions, kvs) + [RB.PointWithResult(e.point, Normalised(e.result))]
    decreases |kvs|
  {
    var all := kvs + EntryListing(e);
    if kvs == [] {
      assert all == EntryListing(e);
      ParseOne(p, actions, e);
    } else {
      assert all[0] == kvs[0] && all[1..] == kvs[1..] + EntryListing(e);
      if kvs[0].key.slot != SlotOrDefault(p) {
        ParseAppend(Specific(kvs[0].key.slot, kvs[0].key.hash), [LoadedAction(kvs[0])], kvs[1..], e);
      } else {
        ParseAppend(p, actions + [LoadedAction(kvs[0])], kvs[1..], e);
      }
    }
  }

  lemma ListedSlots(h: seq<Entry>, i: nat)
    requires Chain(h) && h != [] && i < |HistoryListing(h[1..])|
    ensures var k := HistoryListing(h[1..])[i].key;
            k.slot < h[0].point.slot && exists j :: 0 < j < |h| && h[j].point == Specific(k.slot, k.hash)
  {
    var rest := h[1..];
    assert rest == h[1..|h|];
    ChainSlice(h, 1, |h|);
    HistoryIsListed(rest);
    var k := HistoryListing(rest)[i].key;
    PersistKey(rest, k);
    var j :| 0 <= j < |rest| && rest[j].point == Specific(k.slot, k.hash);
    assert h[j + 1].point == Specific(k.slot, k.hash) && Newer(h[0], h[j + 1]);
  }

  /** Round trip: reading a persisted history back gives its surviving entries in order. */
  lemma {:induction false} ParseHistory(h: seq<Entry>)
    requires Chain(h) && forall i :: 0 <= i < |h| ==> h[i].point.Specific? && h[i].point.slot > 0
    ensures Flip(ParseFrom(Origin, [], HistoryListing(h))) == Stored(h)
  {
    if h != [] {
      var rest := h[1..];
      assert rest == h[1..|h|];
      ChainSlice(h, 1, |h|);
      ParseHistory(rest);
      var kvs := HistoryListing(rest);
      forall i | 0 <= i < |kvs| ensures 0 < kvs[i].key.slot < h[0].point.slot {
        ListedSlots(h, i);
      }
      ParseWithNewest(kvs, h[0]);
    }
  }

  lemma ParseWithNewest(kvs: seq<KeyValue>, e: Entry)
    requires e.point.Specific? && e.point.slot > 0
    requires forall i :: 0 <= i < |kvs| ==> 0 < kvs[i].key.slot < e.point.slot
    ensures Flip(ParseFrom(Origin, [], kvs + EntryListing(e))) ==
            (if Survives(e) then [RB.PointWithResult(e.point, Normalised(e.result))] else [])
            + Flip(ParseFrom(Origin, [], kvs))
  {
    if Survives(e) {
      ParseAppend(Origin, [], kvs, e);
      var parsed := ParseFrom(Origin, [], kvs);
      assert (parsed + [RB.PointWithResult(e.point, Normalised(e.result))])[..|parsed|] == parsed;
    } else {
      assert kvs + EntryListing(e) == kvs;
    }
  }
}
