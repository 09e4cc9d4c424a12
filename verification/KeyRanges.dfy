/** Key ranges under a subject prefix: which keys a scan between two encoded bounds returns. */
module KeyRanges {
  import opened Bytes

  const BREAK: Byte := 96

  /** Every key an instance writes starts with these two bytes, except its info key. */
  datatype Encoder = Encoder(dataplane: Byte, instance: Byte)

  /** A bound is open, a slot, or the item a previous page ended with. */
  datatype Bound = Open | AtSlot(slot: U64) | AtCursor(item: Bytes)

  function KeyUnder(prefix: Bytes, item: Bytes): Bytes {
    prefix + [BREAK] + item
  }

  function StartTail(lower: Bound): Bytes {
    match lower
    case Open => [BREAK]
    case AtSlot(s) => [BREAK] + U64Bytes(s)
    case AtCursor(i) => [BREAK] + i + [0]
  }

  /** The end slot is included by advancing one; in 64 bits the advance wraps. */
  function SlotAfter(slot: U64): U64 {
    if slot + 1 < TWO_64 then slot + 1 else 0
  }

  function EndTail(upper: Bound): Bytes {
    match upper
    case Open => [BREAK + 1]
    case AtSlot(s) => [BREAK] + U64Bytes(SlotAfter(s))
    case AtCursor(i) => [BREAK] + i
  }

  function StartKey(prefix: Bytes, lower: Bound): Bytes {
    prefix + StartTail(lower)
  }

  function EndKey(prefix: Bytes, upper: Bound): Bytes {
    prefix + EndTail(upper)
  }

  predicate InRange(key: Bytes, start: Bytes, end: Bytes) {
    AtOrBefore(start, key) && Before(key, end)
  }

  /** Items start with their slot. */
  function SlotOf(item: Bytes): nat
    requires |item| >= 8
  {
    FromBigEndian(item[..8])
  }

  /** Cursors are exclusive, both slots are inclusive; the very last slot cannot be an end. */
  predicate Admits(item: Bytes, lower: Bound, upper: Bound)
    requires |item| >= 8
  {
    && (match lower
        case Open => true
        case AtSlot(s) => s <= SlotOf(item)
        case AtCursor(c) => Before(c, item))
    && (match upper
        case Open => true
        case AtSlot(s) => SlotOf(item) <= s && s + 1 < TWO_64
        case AtCursor(c) => Before(item, c))
  }

  // ---- Keys under the same prefix ----

  lemma ItemVsSlot(item: Bytes, slot: U64)
    requires |item| > 8
    ensures Before(item, U64Bytes(slot)) <==> SlotOf(item) < slot
  {
    var head, tail, s := item[..8], item[8..], U64Bytes(slot);
    assert item == head + tail && s == s + [];
    OrderIsNumeric(head, s);
    if head == s {
      CommonPrefix(head, tail, []);
    } else {
      HeadsDecide(head, tail, s, []);
    }
  }

  /** Appending a zero byte gives the next string: what is before it is at or before the cursor. */
  lemma {:induction false} AfterCursor(item: Bytes, cursor: Bytes)
    ensures Before(item, cursor + [0]) <==> !Before(cursor, item)
  {
    if cursor != [] && item != [] && item[0] == cursor[0] {
      AfterCursor(item[1..], cursor[1..]);
      assert (cursor + [0])[1..] == cursor[1..] + [0];
    } else if cursor == [] {
      assert cursor + [0] == [0];
    }
  }

  lemma UnderSamePrefix(prefix: Bytes, item: Bytes, lower: Bound, upper: Bound)
    requires |item| > 8
    ensures InRange(KeyUnder(prefix, item), StartKey(prefix, lower), EndKey(prefix, upper)) <==> Admits(item, lower, upper)
  {
    hide Before, FromBigEndian, U64Bytes;
    StartDecides(prefix, item, lower);
    EndDecides(prefix, item, upper);
  }

  lemma EmptyIsFirst(item: Bytes)
    ensures !Before(item, [])
  {
  }

  lemma StartDecides(prefix: Bytes, item: Bytes, lower: Bound)
    requires |item| > 8
    ensures Before(KeyUnder(prefix, item), StartKey(prefix, lower)) <==> !Admits(item, lower, Open)
  {
    hide Before, FromBigEndian, U64Bytes;
    assert KeyUnder(prefix, item) == prefix + ([BREAK] + item);
    CommonPrefix(prefix, [BREAK] + item, StartTail(lower));
    match lower
    case Open =>
      assert [BREAK] + [] == [BREAK];
      CommonPrefix([BREAK], item, []);
      EmptyIsFirst(item);
    case AtSlot(s) =>
      CommonPrefix([BREAK], item, U64Bytes(s));
      ItemVsSlot(item, s);
    case AtCursor(c) =>
      assert [BREAK] + c + [0] == [BREAK] + (c + [0]);
      CommonPrefix([BREAK], item, c + [0]);
      AfterCursor(item, c);
  }

  lemma EndDecides(prefix: Bytes, item: Bytes, upper: Bound)
    requires |item| > 8
    ensures Before(KeyUnder(prefix, item), EndKey(prefix, upper)) <==> Admits(item, Open, upper)
  {
    hide FromBigEndian, U64Bytes;
    assert KeyUnder(prefix, item) == prefix + ([BREAK] + item);
    CommonPrefix(prefix, [BREAK] + item, EndTail(upper));
    match upper
    case Open =>
    case AtSlot(s) =>
      CommonPrefix([BREAK], item, U64Bytes(SlotAfter(s)));
      ItemVsSlot(item, SlotAfter(s));
    case AtCursor(c) => CommonPrefix([BREAK], item, c);
  }

  // ---- Keys under another prefix ----

  /** Neither string begins with the other. */
  predicate Apart(p: Bytes, q: Bytes) {
    !(p <= q) && !(q <= p)
  }

  /** Strings that are apart compare the same way whatever follows them. */
  lemma {:induction false} ApartDecides(p: Bytes, x: Bytes, q: Bytes, y: Bytes)
    requires Apart(p, q)
    ensures Before(p + x, q + y) <==> Before(p, q)
  {
    if p[0] == q[0] {
      assert p == [p[0]] + p[1..] && q == [q[0]] + q[1..];
      ApartDecides(p[1..], x, q[1..], y);
      assert (p + x)[1..] == p[1..] + x && (q + y)[1..] == q[1..] + y;
    }
  }

  lemma OtherPrefix(prefix: Bytes, other: Bytes, tail: Bytes, lower: Bound, upper: Bound)
    requires Apart(prefix, other)
    ensures !InRange(other + tail, StartKey(prefix, lower), EndKey(prefix, upper))
  {
    hide Before, StartTail, EndTail;
    ApartDecides(other, tail, prefix, StartTail(lower));
    ApartDecides(other, tail, prefix, EndTail(upper));
  }

  /**
   * Range exactness: a key is in the range of a subject iff it is a key of that subject and its item
   * meets the bounds. Prefixes come from self-delimiting codes, so two of them are equal or apart.
   */
  lemma RangeIsExact(prefix: Bytes, other: Bytes, item: Bytes, lower: Bound, upper: Bound)
    requires prefix == other || Apart(prefix, other)
    requires |item| > 8
    ensures InRange(KeyUnder(other, item), StartKey(prefix, lower), EndKey(prefix, upper))
            <==> other == prefix && Admits(item, lower, upper)
  {
    hide InRange, Admits, StartKey, EndKey;
    if prefix == other {
      UnderSamePrefix(prefix, item, lower, upper);
    } else {
      assert KeyUnder(other, item) == other + ([BREAK] + item);
      OtherPrefix(prefix, other, [BREAK] + item, lower, upper);
    }
  }

  // ---- Everything under a prefix ----

  /** The exclusive end of a prefix: the last byte below 255 raised by one; empty means unbounded. */
  function PrefixEnd(prefix: Bytes): Bytes {
    if prefix == [] then []
    else
      var n := |prefix| - 1;
      if prefix[n] != 255 then prefix[..n] + [prefix[n] + 1] else PrefixEnd(prefix[..n])
  }

  method PrefixKeyRange(prefix: Bytes) returns (start: Bytes, end: Bytes)
    ensures start == prefix && end == PrefixEnd(prefix)
  {
    start, end := prefix, prefix;
    assert prefix[..|prefix|] == prefix;
    for i := |end| downto 0
      invariant end == prefix && PrefixEnd(prefix[..i]) == PrefixEnd(prefix)
    {
      assert prefix[..i + 1][..i] == prefix[..i];
      if end[i] != 255 {
        end := end[i := end[i] + 1][..i + 1];
        assert end == prefix[..i] + [prefix[i] + 1];
        return;
      }
    }
    end := [];
  }

  predicate BeforeEnd(key: Bytes, end: Bytes) {
    end == [] || Before(key, end)
  }

  /** A prefix range contains exactly the keys with that prefix. */
  lemma {:induction false} PrefixRangeIsExact(prefix: Bytes, key: Bytes)
    ensures AtOrBefore(prefix, key) && BeforeEnd(key, PrefixEnd(prefix)) <==> prefix <= key
  {
    if prefix <= key {
      var rest := key[|prefix|..];
      assert key == prefix + rest && prefix == prefix + [];
      CommonPrefix(prefix, rest, []);
      UnderEnd(prefix, rest);
    } else if AtOrBefore(prefix, key) {
      PastEnd(prefix, key);
    }
  }

  lemma {:induction false} UnderEnd(prefix: Bytes, rest: Bytes)
    ensures BeforeEnd(prefix + rest, PrefixEnd(prefix))
  {
    if prefix != [] {
      var n := |prefix| - 1;
      assert prefix + rest == prefix[..n] + ([prefix[n]] + rest);
      if prefix[n] != 255 {
        CommonPrefix(prefix[..n], [prefix[n]] + rest, [prefix[n] + 1]);
      } else {
        UnderEnd(prefix[..n], [prefix[n]] + rest);
      }
    }
  }

  lemma {:induction false} PastEnd(prefix: Bytes, key: Bytes)
    requires !(prefix <= key) && AtOrBefore(prefix, key)
    ensures !BeforeEnd(key, PrefixEnd(prefix))
  {
    var n := |prefix| - 1;
    var p := prefix[..n];
    assert prefix == p + [prefix[n]];
    if p <= key {
      var rest := key[n..];
      assert key == p + rest;
      CommonPrefix(p, rest, [prefix[n]]);
      assert rest != [] ==> key[..n + 1] == p + [rest[0]];
      if prefix[n] != 255 {
        CommonPrefix(p, rest, [prefix[n] + 1]);
      }
    } else {
      AtOrBeforeHead(p, [prefix[n]], key);
      PastEnd(p, key);
      if prefix[n] != 255 {
        SamePast(p, key, [prefix[n] + 1]);
      }
    }
  }

  lemma AtOrBeforeHead(p: Bytes, x: Bytes, key: Bytes)
    requires AtOrBefore(p + x, key)
    ensures AtOrBefore(p, key)
  {
    if Before(key, p) {
      BeforeExtends(key, p, x);
    }
  }

  lemma {:induction false} BeforeExtends(a: Bytes, b: Bytes, x: Bytes)
    requires Before(a, b)
    ensures Before(a, b + x)
  {
    if a != [] && a[0] == b[0] {
      BeforeExtends(a[1..], b[1..], x);
      assert (b + x)[1..] == b[1..] + x;
    }
  }

  /** A key at or after `p` that does not begin with it is after everything that does. */
  lemma SamePast(p: Bytes, key: Bytes, x: Bytes)
    requires AtOrBefore(p, key) && !(p <= key)
    ensures !Before(key, p + x)
  {
    if key <= p {
      assert p == key + p[|key|..] && key == key + [];
      CommonPrefix(key, [], p[|key|..]);
    } else {
      assert key == key + [];
      ApartDecides(key, [], p, x);
    }
  }

  /** Anything between two keys with a common prefix has that prefix. */
  lemma BetweenHasPrefix(p: Bytes, x: Bytes, key: Bytes, y: Bytes)
    requires InRange(key, p + x, p + y)
    ensures p <= key
  {
    AtOrBeforeHead(p, x, key);
    if !(p <= key) {
      SamePast(p, key, y);
    }
  }

  /** Equally long heads first, then the rest. */
  lemma HeadThenTail(a: Bytes, x: Bytes, b: Bytes, y: Bytes)
    requires |a| == |b|
    ensures Before(a + x, b + y) <==> Before(a, b) || (a == b && Before(x, y))
  {
    if a == b {
      CommonPrefix(a, x, y);
      OrderIrreflexive(a);
    } else {
      HeadsDecide(a, x, b, y);
    }
  }
}
