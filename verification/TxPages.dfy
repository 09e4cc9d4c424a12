/** Pages of an address's transactions, and the walk along their cursors. */
module TxPages {
  import opened Wrappers
  import opened Bytes
  import opened KeyRanges
  import opened Addresses
  import opened DataKeys
  import opened Scans

  const MAX_ITEMS_PER_PAGE: nat := 100

  /** Query parameters. A cursor is given here as the bytes its Base64url text stands for. */
  datatype Params = Params(count: Option<nat>, order: Option<Order>, cursor: Option<Bytes>, from: Option<U64>, to: Option<U64>)

  datatype BadRequest = CountTooLarge | CountZero | MalformedCursor | FromAfterTo | CursorBelowFrom | CursorAboveTo

  datatype Query = Query(count: nat, order: Order, lower: Bound, upper: Bound)

  function SlotBound(slot: Option<U64>): Bound {
    if slot.None? then Open else AtSlot(slot.value)
  }

  function OrderOf(p: Params): Order {
    if p.order.Some? then p.order.value else Asc
  }

  function CountOf(p: Params): nat {
    if p.count.Some? then p.count.value else MAX_ITEMS_PER_PAGE
  }

  /** What makes a request bad, in the order in which it is found. */
  function Complaint(p: Params): Option<BadRequest> {
    if p.count.Some? && p.count.value > MAX_ITEMS_PER_PAGE then Some(CountTooLarge)
    else if p.count == Some(0) then Some(CountZero)
    else if p.cursor.Some? && |p.cursor.value| != 42 then Some(MalformedCursor)
    else if p.from.Some? && p.to.Some? && p.from.value > p.to.value then Some(FromAfterTo)
    else if p.cursor.Some? && p.from.Some? && SlotOf(p.cursor.value) < p.from.value then Some(CursorBelowFrom)
    else if p.cursor.Some? && p.to.Some? && SlotOf(p.cursor.value) > p.to.value then Some(CursorAboveTo)
    else None
  }

  /** What is wrong with a request, each fault by itself. */
  predicate Faulty(p: Params, fault: BadRequest) {
    match fault
    case CountTooLarge => p.count.Some? && p.count.value > 100
    case CountZero => p.count == Some(0)
    case MalformedCursor => p.cursor.Some? && |p.cursor.value| != 42
    case FromAfterTo => p.from.Some? && p.to.Some? && p.to.value < p.from.value
    case CursorBelowFrom => p.cursor.Some? && |p.cursor.value| >= 8 && p.from.Some? && FromBigEndian(p.cursor.value[..8]) < p.from.value
    case CursorAboveTo => p.cursor.Some? && |p.cursor.value| >= 8 && p.to.Some? && FromBigEndian(p.cursor.value[..8]) > p.to.value
  }

  function Rank(fault: BadRequest): nat {
    match fault
    case CountTooLarge => 0
    case CountZero => 1
    case MalformedCursor => 2
    case FromAfterTo => 3
    case CursorBelowFrom => 4
    case CursorAboveTo => 5
  }

  /** A request is refused iff it has a fault, and with the first fault it has. */
  lemma FirstFaultIsReported(p: Params, fault: BadRequest)
    ensures Complaint(p) == Some(fault) <==> Faulty(p, fault) && forall f :: Rank(f) < Rank(fault) ==> !Faulty(p, f)
    ensures Complaint(p).None? ==> !Faulty(p, fault) && 1 <= CountOf(p) <= 100 && (p.count.None? ==> CountOf(p) == 100)
  {
    hide FromBigEndian;
    assert Complaint(p).Some? <==>
      (Faulty(p, CountTooLarge) || Faulty(p, CountZero) || Faulty(p, MalformedCursor) ||
       Faulty(p, FromAfterTo) || Faulty(p, CursorBelowFrom) || Faulty(p, CursorAboveTo));
  }

  /** A good request scans from its bounds, with the cursor in place of the one it has passed. */
  function QueryOf(p: Params): Query {
    var past := if p.cursor.Some? then AtCursor(p.cursor.value) else Open;
    Query(
      CountOf(p), OrderOf(p),
      if p.cursor.Some? && OrderOf(p) == Asc then past else SlotBound(p.from),
      if p.cursor.Some? && OrderOf(p) == Desc then past else SlotBound(p.to))
  }

  method ParseSlotPageParams(p: Params) returns (r: Result<Query, BadRequest>)
    ensures r == if Complaint(p).Some? then Failure(Complaint(p).value) else Success(QueryOf(p))
  {
    var count := MAX_ITEMS_PER_PAGE;
    if p.count.Some? {
      if p.count.value > MAX_ITEMS_PER_PAGE {
        return Failure(CountTooLarge);
      }
      if p.count.value == 0 {
        return Failure(CountZero);
      }
      count := p.count.value;
    }
    var order := if p.order.Some? then p.order.value else Asc;
    if p.cursor.Some? && |p.cursor.value| != 42 {
      return Failure(MalformedCursor);
    }
    var lower, upper := SlotBound(p.from), SlotBound(p.to);
    if p.from.Some? && p.to.Some? && p.from.value > p.to.value {
      return Failure(FromAfterTo);
    }
    if p.cursor.Some? {
      var slot := SlotOf(p.cursor.value);
      if p.from.Some? && slot < p.from.value {
        return Failure(CursorBelowFrom);
      }
      if p.to.Some? && slot > p.to.value {
        return Failure(CursorAboveTo);
      }
      if order == Asc {
        lower := AtCursor(p.cursor.value);
      } else {
        upper := AtCursor(p.cursor.value);
      }
    }
    r := Success(Query(count, order, lower, upper));
  }

  // ---- One page ----

  datatype Page = Page(items: seq<TxItem>, next: Option<Bytes>)

  function Items(kvs: seq<Pair>): Outcome<seq<TxItem>> {
    if kvs == [] then Ok([])
    else
      var before :- Items(kvs[..|kvs| - 1]);
      var item :- ItemAt(kvs[|kvs| - 1]);
      Ok(before + [item])
  }

  function RangeOf(e: Encoder, a: Address, lower: Bound, upper: Bound): Range
    requires ValidAddress(a)
  {
    Range(SubjectStart(e, AddressTxs(a), lower), SubjectEnd(e, AddressTxs(a), upper))
  }

  lemma {:induction false} ItemsLength(kvs: seq<Pair>)
    requires Items(kvs).Ok?
    ensures |Items(kvs).value| == |kvs|
    ensures forall i :: 0 <= i < |kvs| ==> ItemAt(kvs[i]) == Ok(Items(kvs).value[i]) && Items(kvs).value[i].blockIndex < 65536
  {
    hide DecodeTxKey;
    if kvs != [] {
      ItemsLength(kvs[..|kvs| - 1]);
    }
  }

  /** The first `count` entries, and the last one's cursor if there is another entry after it. */
  function PageOf(kvs: seq<Pair>, count: nat): Outcome<Page>
    requires 0 < count
  {
    var items :- Items(Take(kvs, count));
    if |kvs| > count then
      ItemsLength(Take(kvs, count));
      Ok(Page(items, Some(EncodeTxItem(items[count - 1]))))
    else Ok(Page(items, None))
  }

  function ItemAt(p: Pair): Outcome<TxItem> {
    match DecodeTxKey(p.key)
    case None => Panic
    case Some(k) => if k.item.blockIndex < 65536 then Ok(k.item) else Panic
  }

  lemma PageFull(kvs: seq<Pair>, count: nat, txs: seq<TxItem>)
    requires 0 < count < |kvs| && Items(kvs[..count]) == Ok(txs)
    ensures |txs| == count && txs[count - 1].blockIndex < 65536
    ensures PageOf(kvs, count) == Ok(Page(txs, Some(EncodeTxItem(txs[count - 1]))))
  {
    hide Items, ItemAt, EncodeTxItem;
    assert Take(kvs, count) == kvs[..count];
    ItemsLength(kvs[..count]);
  }

  lemma ItemsStep(kvs: seq<Pair>, i: nat)
    requires i < |kvs|
    ensures Items(kvs[..i + 1]) ==
            if Items(kvs[..i]).Ok? && ItemAt(kvs[i]).Ok? then Ok(Items(kvs[..i]).value + [ItemAt(kvs[i]).value]) else Panic
  {
    assert kvs[..i + 1][..i] == kvs[..i];
  }

  /** Entries of one more than a page are read; the loop stops after a page's worth. */
  method BuildPage(kvs: seq<Pair>, count: nat) returns (r: Outcome<Page>)
    requires 0 < count && |kvs| <= count + 1
    ensures r == PageOf(kvs, count)
  {
    hide Items, ItemAt;
    assert Items(kvs[..0]) == Ok([]) by { NoItems(kvs); }
    var txs, next := [], None;
    var i := 0;
    while i < |kvs|
      invariant i <= |kvs|
      invariant i <= count ==> next == None && Items(kvs[..i]) == Ok(txs)
      invariant i == count ==> i == |kvs|
      invariant i > count ==> i == |kvs| && PageOf(kvs, count) == Ok(Page(txs, next))
    {
      ItemsStep(kvs, i);
      var item := ItemAt(kvs[i]);
      if item.Panic? {
        BadEntry(Take(kvs, count), i);
        return Panic;
      }
      txs := txs + [item.value];
      i := i + 1;
      if i == count && i < |kvs| {
        PageFull(kvs, count, txs);
        next := Some(EncodeTxItem(item.value));
        i := i + 1;
      }
    }
    assert kvs[..|kvs|] == kvs;
    r := Ok(Page(txs, next));
  }

  lemma NoItems(kvs: seq<Pair>)
    ensures Items(kvs[..0]) == Ok([])
  {
  }

  lemma {:induction false} BadEntry(kvs: seq<Pair>, i: nat)
    requires i < |kvs| && ItemAt(kvs[i]).Panic?
    ensures Items(kvs).Panic?
    decreases |kvs|
  {
    if i < |kvs| - 1 {
      BadEntry(kvs[..|kvs| - 1], i);
    }
  }

  function Answer(store: seq<Pair>, e: Encoder, a: Address, q: Query): Outcome<Page>
    requires ValidAddress(a) && 0 < q.count
  {
    var r := RangeOf(e, a, q.lower, q.upper);
    PageOf(Scan(store, r.start, r.end, q.order, q.count + 1), q.count)
  }

  method TxsByAddress(store: seq<Pair>, e: Encoder, a: Address, p: Params) returns (r: Result<Outcome<Page>, BadRequest>)
    requires ValidAddress(a)
    ensures r == if Complaint(p).Some? then Failure(Complaint(p).value) else Success(Answer(store, e, a, QueryOf(p)))
  {
    hide RangeOf, Listing, PageOf, Items, SlotOf;
    var q :- ParseSlotPageParams(p);
    var range := RangeOf(e, a, q.lower, q.upper);
    var kvs := Scan(store, range.start, range.end, q.order, q.count + 1);
    var page := BuildPage(kvs, q.count);
    r := Success(page);
  }

  // ---- Which entries belong to an address ----

  function TxKey(e: Encoder, a: Address, i: TxItem): Bytes
    requires ValidAddress(a) && i.blockIndex < 65536
  {
    KeyUnder(Prefix(e, AddressTxs(a)), EncodeTxItem(i))
  }

  ghost predicate IsTxKey(e: Encoder, key: Bytes) {
    exists a, i: TxItem :: ValidAddress(a) && i.blockIndex < 65536 && key == TxKey(e, a, i)
  }

  /** Whatever a snapshot holds under the transactions-by-address tag is such a key. */
  ghost predicate WellFormed(store: seq<Pair>, e: Encoder) {
    Ordered(store) && forall p :: p in store && Head(e, TXS_BY_ADDRESS) <= p.key ==> IsTxKey(e, p.key)
  }

  predicate Within(slot: U64, from: Option<U64>, to: Option<U64>) {
    (from.Some? ==> from.value <= slot) && (to.Some? ==> slot <= to.value && to.value + 1 < TWO_64)
  }

  ghost predicate Matches(e: Encoder, a: Address, key: Bytes, from: Option<U64>, to: Option<U64>)
    requires ValidAddress(a)
  {
    exists i: TxItem :: i.blockIndex < 65536 && key == TxKey(e, a, i) && Within(i.slot, from, to)
  }

  lemma HeadOfRange(e: Encoder, a: Address, key: Bytes, lower: Bound, upper: Bound)
    requires ValidAddress(a)
    requires InRange(key, RangeOf(e, a, lower, upper).start, RangeOf(e, a, lower, upper).end)
    ensures Head(e, TXS_BY_ADDRESS) <= key
  {
    hide InRange, StartTail, EndTail, EncodeSubject;
    var p := Prefix(e, AddressTxs(a));
    BetweenHasPrefix(p, StartTail(lower), key, EndTail(upper));
    assert Head(e, TXS_BY_ADDRESS) == p[..4] == key[..4];
  }

  /** An entry is in the range of the request iff it is a transaction of the address within the slots. */
  lemma RangeMatches(store: seq<Pair>, e: Encoder, a: Address, p: Pair, from: Option<U64>, to: Option<U64>)
    requires ValidAddress(a) && WellFormed(store, e) && p in store
    ensures var r := RangeOf(e, a, SlotBound(from), SlotBound(to));
            InRange(p.key, r.start, r.end) <==> Matches(e, a, p.key, from, to)
  {
    hide InRange, StartKey, EndKey, EncodeSubject, EncodeTxItem;
    var lower, upper := SlotBound(from), SlotBound(to);
    var r := RangeOf(e, a, lower, upper);
    if InRange(p.key, r.start, r.end) {
      HeadOfRange(e, a, p.key, lower, upper);
      var b, i: TxItem :| ValidAddress(b) && i.blockIndex < 65536 && p.key == TxKey(e, b, i);
      KeyInRange(e, a, e, b, i, from, to);
    }
    if i: TxItem :| i.blockIndex < 65536 && p.key == TxKey(e, a, i) && Within(i.slot, from, to) {
      KeyInRange(e, a, e, a, i, from, to);
    }
  }

  lemma KeyInRange(e: Encoder, a: Address, f: Encoder, b: Address, i: TxItem, from: Option<U64>, to: Option<U64>)
    requires ValidAddress(a) && ValidAddress(b) && i.blockIndex < 65536
    ensures var r := RangeOf(e, a, SlotBound(from), SlotBound(to));
            InRange(TxKey(f, b, i), r.start, r.end) <==> f == e && b == a && Within(i.slot, from, to)
  {
    hide InRange, StartKey, EndKey, EncodeSubject, EncodeTxItem;
    SubjectRangeIsExact(e, AddressTxs(a), f, AddressTxs(b), EncodeTxItem(i), SlotBound(from), SlotBound(to));
    TxItemRoundTrip(i);
  }

  // ---- Following the cursor ----

  /** All matching entries, in the order of the request. */
  function All(store: seq<Pair>, e: Encoder, a: Address, p: Params): seq<Pair>
    requires ValidAddress(a)
  {
    var r := RangeOf(e, a, SlotBound(p.from), SlotBound(p.to));
    Listing(store, r.start, r.end, OrderOf(p))
  }

  /** All of them are transactions of the address within the slots, and nothing else in the store is. */
  lemma AllMatch(store: seq<Pair>, e: Encoder, a: Address, p: Params, entry: Pair)
    requires ValidAddress(a) && WellFormed(store, e)
    ensures entry in All(store, e, a, p) <==> entry in store && Matches(e, a, entry.key, p.from, p.to)
  {
    hide InRange, Slice, Matches;
    var r := RangeOf(e, a, SlotBound(p.from), SlotBound(p.to));
    SliceAt(store, r.start, r.end, entry);
    InBackwards(Slice(store, r.start, r.end), entry);
    if entry in store {
      RangeMatches(store, e, a, entry, p.from, p.to);
    }
  }

  lemma InBackwards(s: seq<Pair>, p: Pair)
    ensures p in Backwards(s) <==> p in s
  {
    if i :| 0 <= i < |s| && s[i] == p {
      assert Backwards(s)[|s| - 1 - i] == p;
    }
  }

  lemma EntryItem(store: seq<Pair>, e: Encoder, a: Address, p: Params, n: nat) returns (i: TxItem)
    requires ValidAddress(a) && WellFormed(store, e) && n < |All(store, e, a, p)|
    ensures i.blockIndex < 65536 && ItemAt(All(store, e, a, p)[n]) == Ok(i)
    ensures All(store, e, a, p)[n].key == TxKey(e, a, i) && Within(i.slot, p.from, p.to)
  {
    hide All, DecodeTxKey, TxKey;
    var entry := All(store, e, a, p)[n];
    AllMatch(store, e, a, p, entry);
    i :| i.blockIndex < 65536 && entry.key == TxKey(e, a, i) && Within(i.slot, p.from, p.to);
    DecodesItem(e, a, i);
  }

  lemma DecodesItem(e: Encoder, a: Address, i: TxItem)
    requires ValidAddress(a) && i.blockIndex < 65536
    ensures DecodeTxKey(TxKey(e, a, i)) == Some(DecodedKey(AddressTxs(a), i))
  {
    TxKeyRoundTrip(e, a, i);
  }

  /** The request that continues after the first `n` entries. */
  function RequestAt(p: Params, all: seq<Pair>, n: nat): Params
    requires n <= |all| && (n > 0 ==> ItemAt(all[n - 1]).Ok?)
  {
    if n == 0 then p.(cursor := None) else p.(cursor := Some(CursorOf(ItemAt(all[n - 1]).value)))
  }

  function CursorOf(i: TxItem): Bytes {
    if i.blockIndex < 65536 then EncodeTxItem(i) else []
  }

  predicate GoodParams(p: Params) {
    && (p.count.Some? ==> 0 < p.count.value <= MAX_ITEMS_PER_PAGE)
    && (p.from.Some? && p.to.Some? ==> p.from.value <= p.to.value)
  }

  lemma CursorRange(e: Encoder, a: Address, i: TxItem, lower: Bound, upper: Bound, order: Order)
    requires ValidAddress(a) && i.blockIndex < 65536
    ensures var r := RangeOf(e, a, lower, upper);
            var c := AtCursor(EncodeTxItem(i));
            Remaining(r, order, TxKey(e, a, i)) ==
            (if order == Asc then RangeOf(e, a, c, upper) else RangeOf(e, a, lower, c))
  {
    hide Prefix, EncodeTxItem;
    var p, b := Prefix(e, AddressTxs(a)), EncodeTxItem(i);
    assert p + [BREAK] + b + [0] == p + ([BREAK] + b + [0]);
    assert p + [BREAK] + b == p + ([BREAK] + b);
  }

  lemma RequestAccepted(p: Params, i: TxItem)
    requires GoodParams(p) && i.blockIndex < 65536 && Within(i.slot, p.from, p.to)
    ensures var c := EncodeTxItem(i);
            var next := p.(cursor := Some(c));
            && Complaint(next).None?
            && QueryOf(next) == Query(CountOf(p), OrderOf(p),
                                      if OrderOf(p) == Asc then AtCursor(c) else SlotBound(p.from),
                                      if OrderOf(p) == Desc then AtCursor(c) else SlotBound(p.to))
  {
    TxItemRoundTrip(i);
    hide EncodeTxItem, SlotOf;
  }

  lemma RequestAfter(store: seq<Pair>, e: Encoder, a: Address, p: Params, n: nat, i: TxItem)
    requires ValidAddress(a) && WellFormed(store, e) && GoodParams(p) && 0 < n <= |All(store, e, a, p)|
    requires i.blockIndex < 65536 && Within(i.slot, p.from, p.to)
    requires All(store, e, a, p)[n - 1].key == TxKey(e, a, i)
    ensures var q := QueryOf(p.(cursor := Some(EncodeTxItem(i))));
            var r := RangeOf(e, a, q.lower, q.upper);
            Listing(store, r.start, r.end, OrderOf(p)) == All(store, e, a, p)[n..]
  {
    var range := RangeOf(e, a, SlotBound(p.from), SlotBound(p.to));
    assert All(store, e, a, p) == Listing(store, range.start, range.end, OrderOf(p));
    RequestAccepted(p, i);
    hide TxKey, EncodeTxItem, Listing, Remaining, QueryOf, RangeOf, All, OrderOf, SlotBound;
    CursorRange(e, a, i, SlotBound(p.from), SlotBound(p.to), OrderOf(p));
    Advance(store, range, OrderOf(p), n);
  }

  /** A continued request is accepted and scans exactly the entries that are left. */
  lemma RequestContinues(store: seq<Pair>, e: Encoder, a: Address, p: Params, n: nat)
    requires ValidAddress(a) && WellFormed(store, e) && GoodParams(p) && n <= |All(store, e, a, p)|
    ensures n > 0 ==> ItemAt(All(store, e, a, p)[n - 1]).Ok?
    ensures var all := All(store, e, a, p);
            var q := QueryOf(RequestAt(p, all, n));
            var r := RangeOf(e, a, q.lower, q.upper);
            && Complaint(RequestAt(p, all, n)).None?
            && q.count == CountOf(p) && q.order == OrderOf(p)
            && Listing(store, r.start, r.end, q.order) == all[n..]
  {
    hide RangeOf, Listing, TxKey, EncodeTxItem, ItemAt, WellFormed;
    var all := All(store, e, a, p);
    if n == 0 {
      assert all[0..] == all;
    } else {
      hide All;
      var i := EntryItem(store, e, a, p, n - 1);
      RequestAccepted(p, i);
      RequestAfter(store, e, a, p, n, i);
    }
  }

  lemma {:induction false} ItemsDecode(kvs: seq<Pair>)
    requires forall i :: 0 <= i < |kvs| ==> ItemAt(kvs[i]).Ok?
    ensures Items(kvs).Ok?
  {
    hide ItemAt;
    if kvs != [] {
      ItemsDecode(kvs[..|kvs| - 1]);
    }
  }

  lemma {:induction false} ItemsConcat(x: seq<Pair>, y: seq<Pair>)
    requires Items(x).Ok? && Items(y).Ok?
    ensures Items(x + y) == Ok(Items(x).value + Items(y).value)
    decreases |y|
  {
    hide ItemAt;
    if y == [] {
      assert x + y == x;
      assert Items(x).value + Items(y).value == Items(x).value;
    } else {
      var n := |y| - 1;
      assert (x + y)[..|x| + n] == x + y[..n] && (x + y)[|x| + n] == y[n];
      ItemsConcat(x, y[..n]);
      var last := [ItemAt(y[n]).value];
      assert Items(x).value + Items(y[..n]).value + last == Items(x).value + (Items(y[..n]).value + last);
    }
  }

  /** The reply to one request: none for a bad request or an undecodable key. */
  function Serve(store: seq<Pair>, e: Encoder, a: Address, p: Params): Option<Page>
    requires ValidAddress(a)
  {
    if Complaint(p).Some? then None
    else
      match Answer(store, e, a, QueryOf(p))
      case Panic => None
      case Ok(page) => Some(page)
  }

  function Until(all: seq<Pair>, n: nat, count: nat): (m: nat)
    requires n <= |all|
    ensures n <= m <= |all|
  {
    if n + count < |all| then n + count else |all|
  }

  lemma SliceDecodes(store: seq<Pair>, e: Encoder, a: Address, p: Params, n: nat, m: nat)
    requires ValidAddress(a) && WellFormed(store, e) && n <= m <= |All(store, e, a, p)|
    ensures Items(All(store, e, a, p)[n..m]).Ok?
  {
    hide Items, ItemAt, All, WellFormed, TxKey;
    var all := All(store, e, a, p);
    forall i | 0 <= i < m - n ensures ItemAt(all[n..m][i]).Ok? {
      var item := EntryItem(store, e, a, p, n + i);
    }
    ItemsDecode(all[n..m]);
  }

  /** The page at a position: the next stretch, and the position after it if there is more. */
  ghost predicate IsPageAt(page: Page, all: seq<Pair>, n: nat, count: nat)
    requires n <= |all|
  {
    var m := Until(all, n, count);
    && Items(all[n..m]) == Ok(page.items)
    && (m < |all| ==> m > 0 && ItemAt(all[m - 1]).Ok?)
    && page.next == (if m < |all| then Some(CursorOf(ItemAt(all[m - 1]).value)) else None)
  }

  lemma PageAt(store: seq<Pair>, e: Encoder, a: Address, p: Params, n: nat)
    requires ValidAddress(a) && WellFormed(store, e) && GoodParams(p) && n <= |All(store, e, a, p)|
    ensures n > 0 ==> ItemAt(All(store, e, a, p)[n - 1]).Ok?
    ensures var page := Serve(store, e, a, RequestAt(p, All(store, e, a, p), n));
            page.Some? && IsPageAt(page.value, All(store, e, a, p), n, CountOf(p))
  {
    hide All, WellFormed, RangeOf, Complaint, QueryOf, Listing, RequestAt, Items, ItemAt, PageOf, IsPageAt;
    var all := All(store, e, a, p);
    RequestContinues(store, e, a, p, n);
    SliceDecodes(store, e, a, p, n, Until(all, n, CountOf(p)));
    StretchPage(all, n, CountOf(p));
  }

  lemma StretchPage(all: seq<Pair>, n: nat, count: nat)
    requires n <= |all| && 0 < count && Items(all[n..Until(all, n, count)]).Ok?
    ensures var page := PageOf(Take(all[n..], count + 1), count);
            page.Ok? && IsPageAt(page.value, all, n, count)
  {
    hide Items, ItemAt;
    var m := Until(all, n, count);
    var kvs := Take(all[n..], count + 1);
    assert Take(kvs, count) == all[n..m];
    ItemsLength(all[n..m]);
    if m < |all| {
      assert all[n..m][count - 1] == all[m - 1];
    }
  }

  /** What up to `pages` requests return when each takes the cursor of the one before. */
  function Follow(store: seq<Pair>, e: Encoder, a: Address, p: Params, pages: nat): Option<(seq<TxItem>, bool)>
    requires ValidAddress(a)
    decreases pages
  {
    if pages == 0 then Some(([], false))
    else
      match Serve(store, e, a, p)
      case None => None
      case Some(page) =>
        if page.next.None? then Some((page.items, true))
        else
          match Follow(store, e, a, p.(cursor := page.next), pages - 1)
          case None => None
          case Some(rest) => Some((page.items + rest.0, rest.1))
  }

  /**
   * Pagination completeness: from the first page on, in either order and with any slot bounds,
   * following the cursor lists every matching transaction once, in order, and comes to an end.
   */
  lemma {:induction false} FollowListsAll(store: seq<Pair>, e: Encoder, a: Address, p: Params, n: nat, pages: nat)
    requires ValidAddress(a) && WellFormed(store, e) && GoodParams(p) && n <= |All(store, e, a, p)|
    requires pages > |All(store, e, a, p)| - n
    ensures n > 0 ==> ItemAt(All(store, e, a, p)[n - 1]).Ok?
    ensures var all := All(store, e, a, p);
            Items(all[n..]).Ok? && Follow(store, e, a, RequestAt(p, all, n), pages) == Some((Items(all[n..]).value, true))
    decreases |All(store, e, a, p)| - n
  {
    hide All, WellFormed, Serve, Items, ItemAt, CursorOf;
    var all := All(store, e, a, p);
    var m := Until(all, n, CountOf(p));
    PageAt(store, e, a, p, n);
    SliceDecodes(store, e, a, p, n, |all|);
    assert all[n..|all|] == all[n..];
    if m < |all| {
      FollowListsAll(store, e, a, p, m, pages - 1);
      assert RequestAt(p, all, m) == RequestAt(p, all, n).(cursor := Some(CursorOf(ItemAt(all[m - 1]).value)));
      ItemsConcat(all[n..m], all[m..]);
      assert all[n..m] + all[m..] == all[n..];
    }
  }
}
