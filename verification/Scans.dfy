/** Range scans over a snapshot, and the batched scan that survives oversized replies. */
module Scans {
  import opened Wrappers
  import opened Bytes
  import opened KeyRanges

  datatype Pair = Pair(key: Bytes, value: Bytes)

  datatype Order = Asc | Desc

  /** A snapshot lists its pairs in strict key order. */
  ghost predicate Ordered(s: seq<Pair>) {
    forall i, j :: 0 <= i < j < |s| ==> Before(s[i].key, s[j].key)
  }

  /** The pairs of a key range, ascending. */
  function Slice(s: seq<Pair>, start: Bytes, end: Bytes): seq<Pair> {
    if s == [] then []
    else (if InRange(s[0].key, start, end) then [s[0]] else []) + Slice(s[1..], start, end)
  }

  function Backwards(s: seq<Pair>): (r: seq<Pair>)
    ensures |r| == |s|
  {
    seq(|s|, i requires 0 <= i < |s| => s[|s| - 1 - i])
  }

  function Listing(s: seq<Pair>, start: Bytes, end: Bytes, order: Order): seq<Pair> {
    if order == Asc then Slice(s, start, end) else Backwards(Slice(s, start, end))
  }

  // ---- Slices ----

  lemma {:induction false} SliceAt(s: seq<Pair>, start: Bytes, end: Bytes, p: Pair)
    ensures p in Slice(s, start, end) <==> p in s && InRange(p.key, start, end)
  {
    if s != [] {
      SliceAt(s[1..], start, end, p);
    }
  }

  lemma {:induction false} SliceOrdered(s: seq<Pair>, start: Bytes, end: Bytes)
    requires Ordered(s)
    ensures Ordered(Slice(s, start, end))
  {
    if s != [] {
      assert forall i, j :: 0 <= i < j < |s[1..]| ==> s[1..][i] == s[i + 1] && s[1..][j] == s[j + 1];
      SliceOrdered(s[1..], start, end);
      var t := Slice(s[1..], start, end);
      forall j | 0 <= j < |t| ensures Before(s[0].key, t[j].key) {
        SliceAt(s[1..], start, end, t[j]);
        var k :| 0 <= k < |s[1..]| && s[1..][k] == t[j];
        assert Before(s[0].key, s[k + 1].key);
      }
    }
  }

  /** A narrower range can be cut out of the wider slice. */
  lemma {:induction false} SliceOfSlice(s: seq<Pair>, start: Bytes, end: Bytes, start': Bytes, end': Bytes)
    requires forall p :: p in s && InRange(p.key, start', end') ==> InRange(p.key, start, end)
    ensures Slice(s, start', end') == Slice(Slice(s, start, end), start', end')
  {
    if s != [] {
      assert forall p :: p in s[1..] ==> p in s;
      SliceOfSlice(s[1..], start, end, start', end');
      var t := Slice(s[1..], start, end);
      if InRange(s[0].key, start, end) {
        assert ([s[0]] + t)[1..] == t;
      } else {
        assert s[0] in s;
        assert [] + t == t;
      }
    }
  }

  lemma {:induction false} SliceConcat(a: seq<Pair>, b: seq<Pair>, start: Bytes, end: Bytes)
    ensures Slice(a + b, start, end) == Slice(a, start, end) + Slice(b, start, end)
  {
    if a == [] {
      assert a + b == b;
    } else {
      assert (a + b)[1..] == a[1..] + b;
      SliceConcat(a[1..], b, start, end);
    }
  }

  lemma {:induction false} SliceAll(s: seq<Pair>, start: Bytes, end: Bytes)
    requires forall p :: p in s ==> InRange(p.key, start, end)
    ensures Slice(s, start, end) == s
  {
    if s != [] {
      assert forall p :: p in s[1..] ==> p in s;
      SliceAll(s[1..], start, end);
    }
  }

  lemma {:induction false} SliceNone(s: seq<Pair>, start: Bytes, end: Bytes)
    requires forall p :: p in s ==> !InRange(p.key, start, end)
    ensures Slice(s, start, end) == []
  {
    if s != [] {
      assert s[0] in s;
      assert forall p :: p in s[1..] ==> p in s;
      SliceNone(s[1..], start, end);
    }
  }

  lemma CutUp(l: seq<Pair>, start: Bytes, end: Bytes, n: nat)
    requires Ordered(l) && 0 < n <= |l| && forall p :: p in l ==> InRange(p.key, start, end)
    ensures Slice(l, l[n - 1].key + [0], end) == l[n..]
  {
    hide Slice;
    var from := l[n - 1].key + [0];
    assert l == l[..n] + l[n..];
    SliceConcat(l[..n], l[n..], from, end);
    forall p | p in l[..n] ensures !InRange(p.key, from, end) {
      var i :| 0 <= i < n && l[i] == p;
      AfterCursor(p.key, l[n - 1].key);
      OrderTotal(p.key, l[n - 1].key);
      assert i < n - 1 ==> Before(l[i].key, l[n - 1].key);
      OrderIrreflexive(p.key);
    }
    SliceNone(l[..n], from, end);
    forall p | p in l[n..] ensures InRange(p.key, from, end) {
      var i :| n <= i < |l| && l[i] == p;
      assert Before(l[n - 1].key, l[i].key);
      AfterCursor(p.key, l[n - 1].key);
      assert p in l;
    }
    SliceAll(l[n..], from, end);
  }

  lemma AllInRange(s: seq<Pair>, start: Bytes, end: Bytes)
    ensures forall p :: p in Slice(s, start, end) ==> InRange(p.key, start, end)
  {
    forall p | p in Slice(s, start, end) ensures InRange(p.key, start, end) {
      SliceAt(s, start, end, p);
    }
  }

  /** Restarting just after the `n`-th key leaves the rest of an ascending listing. */
  lemma AdvanceUp(s: seq<Pair>, start: Bytes, end: Bytes, n: nat)
    requires Ordered(s) && 0 < n <= |Slice(s, start, end)|
    ensures var l := Slice(s, start, end);
            Slice(s, l[n - 1].key + [0], end) == l[n..]
  {
    hide Slice, Ordered;
    var l := Slice(s, start, end);
    var key := l[n - 1].key;
    SliceOrdered(s, start, end);
    AllInRange(s, start, end);
    assert l[n - 1] in l;
    forall p | p in s && InRange(p.key, key + [0], end) ensures InRange(p.key, start, end) {
      AfterCursor(p.key, key);
      AtOrBeforeThenBefore(start, key, p.key);
      OrderTotal(start, p.key);
    }
    SliceOfSlice(s, start, end, key + [0], end);
    CutUp(l, start, end, n);
  }

  lemma CutDown(l: seq<Pair>, start: Bytes, end: Bytes, m: nat)
    requires Ordered(l) && m < |l| && forall p :: p in l ==> InRange(p.key, start, end)
    ensures Slice(l, start, l[m].key) == l[..m]
  {
    hide Slice;
    var to := l[m].key;
    assert l == l[..m] + l[m..];
    SliceConcat(l[..m], l[m..], start, to);
    forall p | p in l[m..] ensures !InRange(p.key, start, to) {
      var i :| m <= i < |l| && l[i] == p;
      assert i > m ==> Before(l[m].key, l[i].key);
      OrderTotal(p.key, to);
      OrderIrreflexive(to);
    }
    SliceNone(l[m..], start, to);
    forall p | p in l[..m] ensures InRange(p.key, start, to) {
      var i :| 0 <= i < m && l[i] == p;
      assert Before(l[i].key, l[m].key);
      assert p in l;
    }
    SliceAll(l[..m], start, to);
  }

  /** Ending just before the `n`-th key from the end leaves the rest of a descending listing. */
  lemma AdvanceDown(s: seq<Pair>, start: Bytes, end: Bytes, n: nat)
    requires Ordered(s) && 0 < n <= |Slice(s, start, end)|
    ensures var l := Slice(s, start, end);
            Slice(s, start, l[|l| - n].key) == l[..|l| - n]
  {
    hide Slice, Ordered;
    var l := Slice(s, start, end);
    var key := l[|l| - n].key;
    SliceOrdered(s, start, end);
    AllInRange(s, start, end);
    assert l[|l| - n] in l;
    forall p | p in s && InRange(p.key, start, key) ensures InRange(p.key, start, end) {
      OrderTransitive(p.key, key, end);
    }
    SliceOfSlice(s, start, end, start, key);
    CutDown(l, start, end, |l| - n);
  }

  // ---- One scan request ----

  /** At most `size` pairs of a range, from its start or from its end. */
  function Scan(s: seq<Pair>, start: Bytes, end: Bytes, order: Order, size: nat): seq<Pair> {
    Take(Listing(s, start, end, order), size)
  }

  datatype Range = Range(start: Bytes, end: Bytes)

  /** The range that is left after a batch ended with `key`. */
  function Remaining(r: Range, order: Order, key: Bytes): Range {
    if order == Asc then Range(key + [0], r.end) else Range(r.start, key)
  }

  lemma BackwardsDrop(l: seq<Pair>, n: nat)
    requires n <= |l|
    ensures Backwards(l[..|l| - n]) == Backwards(l)[n..]
  {
  }

  lemma Advance(s: seq<Pair>, r: Range, order: Order, n: nat)
    requires Ordered(s) && 0 < n <= |Listing(s, r.start, r.end, order)|
    ensures var l := Listing(s, r.start, r.end, order);
            var r' := Remaining(r, order, l[n - 1].key);
            Listing(s, r'.start, r'.end, order) == l[n..]
  {
    hide Slice, Ordered;
    var l := Slice(s, r.start, r.end);
    if order == Asc {
      AdvanceUp(s, r.start, r.end, n);
    } else {
      AdvanceDown(s, r.start, r.end, n);
      BackwardsDrop(l, n);
      assert Backwards(l)[n - 1] == l[|l| - n];
      hide Backwards;
    }
  }

  // ---- The batched scan ----

  function IfKept(keep: Option<Pair -> bool>, p: Pair): seq<Pair> {
    if keep.None? || keep.value(p) then [p] else []
  }

  function Filtered(keep: Option<Pair -> bool>, s: seq<Pair>): seq<Pair> {
    if s == [] then [] else Filtered(keep, s[..|s| - 1]) + IfKept(keep, s[|s| - 1])
  }

  /** Filtering keeps exactly the wanted pairs; with `FilteredConcat`, in their order. */
  lemma {:induction false} FilteredAt(keep: Option<Pair -> bool>, s: seq<Pair>, p: Pair)
    ensures multiset(Filtered(keep, s))[p] == if keep.None? || keep.value(p) then multiset(s)[p] else 0
  {
    if s != [] {
      var n := |s| - 1;
      assert s == s[..n] + [s[n]];
      FilteredAt(keep, s[..n], p);
    }
  }

  lemma {:induction false} FilteredConcat(keep: Option<Pair -> bool>, a: seq<Pair>, b: seq<Pair>)
    ensures Filtered(keep, a + b) == Filtered(keep, a) + Filtered(keep, b)
    decreases |b|
  {
    hide IfKept;
    if b == [] {
      assert a + b == a;
    } else {
      var n := |b| - 1;
      var kept := IfKept(keep, b[n]);
      assert (a + b)[..|a| + n] == a + b[..n];
      FilteredConcat(keep, a, b[..n]);
      assert Filtered(keep, a) + Filtered(keep, b[..n]) + kept == Filtered(keep, a) + (Filtered(keep, b[..n]) + kept);
    }
  }

  /** Without a filter everything is kept. */
  lemma {:induction false} Unfiltered(s: seq<Pair>)
    ensures Filtered(None, s) == s
  {
    if s != [] {
      Unfiltered(s[..|s| - 1]);
    }
  }

  lemma FilteredNothing(keep: Option<Pair -> bool>)
    ensures Filtered(keep, []) == []
  {
  }

  function First(max: Option<nat>, s: seq<Pair>): seq<Pair> {
    if max.None? then s else Take(s, max.value)
  }

  lemma FirstOfPrefix(max: Option<nat>, a: seq<Pair>, b: seq<Pair>)
    requires b == [] || (max.Some? && |a| >= max.value)
    ensures First(max, a) == First(max, a + b)
  {
    if b == [] {
      assert a + b == a;
    }
  }

  method Filter(keep: Option<Pair -> bool>, batch: seq<Pair>) returns (r: seq<Pair>)
    ensures r == Filtered(keep, batch)
  {
    if keep.None? {
      Unfiltered(batch);
      return batch;
    }
    r := [];
    for i := 0 to |batch|
      invariant r == Filtered(keep, batch[..i])
    {
      assert batch[..i + 1][..i] == batch[..i];
      if keep.value(batch[i]) {
        r := r + [batch[i]];
      }
    }
    assert batch[..|batch|] == batch;
  }

  /**
   * Scan in batches until there are enough results or the range is exhausted, halving the batch when
   * a reply would be too large. `tooLarge` says so for the attempt and size; a size of one or less
   * always gets through. Whatever it answers, the result is the first matching pairs of the range.
   */
  method ScanExtended(s: seq<Pair>, range: Range, order: Order, keep: Option<Pair -> bool>, max: Option<nat>,
                      tooLarge: (nat, nat) -> bool)
    returns (kvs: seq<Pair>)
    requires Ordered(s)
    requires forall a, n :: n <= 1 ==> !tooLarge(a, n)
    ensures kvs == First(max, Filtered(keep, Listing(s, range.start, range.end, order)))
  {
    hide Listing, Filtered, Ordered, Remaining;
    var size: nat := if keep.None? && max.Some? && max.value < 1000 then max.value else 1000;
    var left := range;
    kvs := [];
    var attempt := 0;
    ghost var all := Listing(s, range.start, range.end, order);
    ghost var rest := all;
    while true
      invariant rest == Listing(s, left.start, left.end, order)
      invariant Filtered(keep, all) == kvs + Filtered(keep, rest)
      invariant size == 0 ==> max == Some(0)
      decreases |rest|, size
    {
      if tooLarge(attempt, size) {
        size := size / 2;
        attempt := attempt + 1;
        continue;
      }
      attempt := attempt + 1;
      var batch := Scan(s, left.start, left.end, order, size);
      if batch == [] {
        break;
      }
      var n := |batch|;
      Advance(s, left, order, n);
      assert rest == batch + rest[n..];
      FilteredConcat(keep, batch, rest[n..]);
      left := Remaining(left, order, batch[n - 1].key);
      rest := rest[n..];
      var more := Filter(keep, batch);
      kvs := kvs + more;
      if max.Some? && |kvs| >= max.value {
        break;
      }
      if n < size {
        break;
      }
    }
    FilteredNothing(keep);
    FirstOfPrefix(max, kvs, Filtered(keep, rest));
    if max.Some? {
      kvs := Take(kvs, max.value);
    }
  }
}
