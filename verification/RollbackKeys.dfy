/** The byte form of rollback metadata keys, and the ranges scanned for trims, collection and reload. */
module RollbackKeys {
  import opened Wrappers
  import opened Bytes
  import opened Database
  import opened KeyRanges
  import opened Addresses
  import opened PersistentBuffer
  import DK = DataKeys
  import SS = StorageStage

  const PREFIX_ROLLBACK: Byte := 82
  const INVERSE_OPERATION: Byte := 79

  /** What a 64-bit index and a 32-byte hash can express. */
  predicate Encodable(k: MetaKey) {
    |k.hash| == 32 && k.index < TWO_64
  }

  function MetaPrefix(e: Encoder): Bytes {
    [e.dataplane, e.instance, PREFIX_ROLLBACK]
  }

  function MetaItem(k: MetaKey): (b: Bytes)
    requires Encodable(k)
    ensures |b| == 49 + |k.key|
  {
    U64Bytes(k.slot) + k.hash + [INVERSE_OPERATION] + U64Bytes(k.index) + k.key
  }

  function EncodeMeta(e: Encoder, k: MetaKey): Bytes
    requires Encodable(k)
  {
    KeyUnder(MetaPrefix(e), MetaItem(k))
  }

  function DecodeMeta(b: Bytes): Option<MetaKey> {
    if |b| < 53 || b[44] != INVERSE_OPERATION then None
    else Some(MetaKey(U64From(b[4..12]), b[12..44], U64From(b[45..53]), b[53..]))
  }

  lemma MetaRoundTrip(e: Encoder, k: MetaKey)
    requires Encodable(k)
    ensures DecodeMeta(EncodeMeta(e, k)) == Some(k)
    ensures EncodeMeta(e, k)[..4] == [e.dataplane, e.instance, 82, 96] && EncodeMeta(e, k)[44] == 79
  {
    hide FromBigEndian;
    var b := EncodeMeta(e, k);
    assert b[4..12] == U64Bytes(k.slot) && b[12..44] == k.hash && b[44] == INVERSE_OPERATION;
    assert b[45..53] == U64Bytes(k.index) && b[53..] == k.key;
  }

  // ---- Order ----

  lemma NumbersFirst(m: U64, x: Bytes, n: U64, y: Bytes)
    ensures Before(U64Bytes(m) + x, U64Bytes(n) + y) <==> m < n || (m == n && Before(x, y))
  {
    hide Before, FromBigEndian;
    HeadThenTail(U64Bytes(m), x, U64Bytes(n), y);
    OrderIsNumeric(U64Bytes(m), U64Bytes(n));
  }

  /** Byte order of the keys is the typed order the reload relies on. */
  lemma MetaOrder(e: Encoder, a: MetaKey, b: MetaKey)
    requires Encodable(a) && Encodable(b)
    ensures Before(EncodeMeta(e, a), EncodeMeta(e, b)) <==> KeyLess(a, b)
  {
    hide Before, FromBigEndian, U64Bytes;
    var x, y := U64Bytes(a.index) + a.key, U64Bytes(b.index) + b.key;
    var p := MetaPrefix(e) + [BREAK];
    CommonPrefix(p, MetaItem(a), MetaItem(b));
    assert MetaItem(a) == U64Bytes(a.slot) + (a.hash + ([INVERSE_OPERATION] + x));
    assert MetaItem(b) == U64Bytes(b.slot) + (b.hash + ([INVERSE_OPERATION] + y));
    NumbersFirst(a.slot, a.hash + ([INVERSE_OPERATION] + x), b.slot, b.hash + ([INVERSE_OPERATION] + y));
    HeadThenTail(a.hash, [INVERSE_OPERATION] + x, b.hash, [INVERSE_OPERATION] + y);
    CommonPrefix([INVERSE_OPERATION], x, y);
    NumbersFirst(a.index, a.key, b.index, b.key);
  }

  // ---- Ranges ----

  function MetaStart(e: Encoder, from: Option<U64>): Bytes {
    StartKey(MetaPrefix(e), if from.None? then Open else AtSlot(from.value))
  }

  function MetaEnd(e: Encoder, to: Option<U64>): Bytes {
    if to.None? then MetaPrefix(e) + [BREAK + 1] else MetaPrefix(e) + [BREAK] + U64Bytes(to.value)
  }

  lemma MetaSlot(k: MetaKey)
    requires Encodable(k)
    ensures SlotOf(MetaItem(k)) == k.slot
  {
    hide FromBigEndian;
    assert MetaItem(k)[..8] == U64Bytes(k.slot);
  }

  /** A metadata range selects exactly its own instance's keys of the slot interval. */
  lemma MetaRangeIsExact(e: Encoder, f: Encoder, k: MetaKey, from: Option<U64>, to: Option<U64>)
    requires Encodable(k)
    ensures InRange(EncodeMeta(f, k), MetaStart(e, from), MetaEnd(e, to))
            <==> f == e && (from.Some? ==> from.value <= k.slot) && (to.Some? ==> k.slot < to.value)
  {
    hide Before, FromBigEndian, U64Bytes, MetaItem;
    var item := MetaItem(k);
    MetaSlot(k);
    if f == e {
      StartDecides(MetaPrefix(e), item, if from.None? then Open else AtSlot(from.value));
      if to.None? {
        EndDecides(MetaPrefix(e), item, Open);
      } else {
        CommonPrefix(MetaPrefix(e) + [BREAK], item, U64Bytes(to.value));
        ItemVsSlot(item, to.value);
      }
    } else {
      NotOwn(e, MetaPrefix(f), [BREAK] + item, from, to);
      assert EncodeMeta(f, k) == MetaPrefix(f) + ([BREAK] + item);
    }
  }

  lemma NotOwn(e: Encoder, other: Bytes, tail: Bytes, from: Option<U64>, to: Option<U64>)
    requires |other| == 3 && other != MetaPrefix(e)
    ensures !InRange(other + tail, MetaStart(e, from), MetaEnd(e, to))
  {
    hide Before, U64Bytes;
    var p := MetaPrefix(e);
    var x := StartTail(if from.None? then Open else AtSlot(from.value));
    var y := if to.None? then [BREAK + 1] else [BREAK] + U64Bytes(to.value);
    assert MetaEnd(e, to) == p + y;
    HeadsDecide(other, tail, p, x);
    HeadsDecide(other, tail, p, y);
  }

  /** Everything in a metadata range starts with the instance's rollback prefix. */
  lemma RangeIsUnderPrefix(e: Encoder, key: Bytes, from: Option<U64>, to: Option<U64>)
    requires InRange(key, MetaStart(e, from), MetaEnd(e, to))
    ensures MetaPrefix(e) <= key
  {
    var p := MetaPrefix(e);
    var x := StartTail(if from.None? then Open else AtSlot(from.value));
    var y := if to.None? then [BREAK + 1] else [BREAK] + U64Bytes(to.value);
    hide InRange, U64Bytes, StartTail;
    assert MetaEnd(e, to) == p + y;
    BetweenHasPrefix(p, x, key, y);
  }

  /** So no key with another third byte is reached: no index key and no cursor key of any instance. */
  lemma DataIsOutside(e: Encoder, key: Bytes, from: Option<U64>, to: Option<U64>)
    requires |key| < 3 || key[2] != PREFIX_ROLLBACK
    ensures !InRange(key, MetaStart(e, from), MetaEnd(e, to))
  {
    if InRange(key, MetaStart(e, from), MetaEnd(e, to)) {
      RangeIsUnderPrefix(e, key, from, to);
    }
  }

  lemma IndexAndCursorKeys(f: Encoder, s: DK.Subject, item: Bytes)
    requires DK.ValidSubject(s)
    ensures KeyUnder(DK.Prefix(f, s), item)[2] != PREFIX_ROLLBACK && SS.CursorKey(f)[2] != PREFIX_ROLLBACK
  {
  }

  /**
   * The info key has another layout. An instance's range reaches an info key in exactly one case: that
   * of dataplane 82 and instance 96, seen from dataplane 73 and instance 96, in a range without a
   * lower slot, as reload and collection use.
   */
  lemma InfoKeyInside(e: Encoder, f: Encoder, from: Option<U64>, to: Option<U64>)
    ensures InRange(SS.InfoKey(f), MetaStart(e, from), MetaEnd(e, to)) <==>
            e == Encoder(73, 96) && f == Encoder(82, 96) && from.None?
  {
    var key, p := SS.InfoKey(f), MetaPrefix(e);
    if InRange(key, MetaStart(e, from), MetaEnd(e, to)) {
      RangeIsUnderPrefix(e, key, from, to);
      assert key[0] == p[0] && key[1] == p[1] && key[2] == p[2];
    }
    if e == Encoder(73, BREAK) && f.dataplane == PREFIX_ROLLBACK {
      InfoBounds(f.instance, from, to);
      assert key == p + [f.instance];
      var x := StartTail(if from.None? then Open else AtSlot(from.value));
      var y := if to.None? then [BREAK + 1] else [BREAK] + U64Bytes(to.value);
      assert MetaEnd(e, to) == p + y;
      CommonPrefix(p, [f.instance], x);
      CommonPrefix(p, [f.instance], y);
    }
  }

  lemma OwnInfoKeyIsOutside(e: Encoder, from: Option<U64>, to: Option<U64>)
    ensures !InRange(SS.InfoKey(e), MetaStart(e, from), MetaEnd(e, to))
  {
    InfoKeyInside(e, e, from, to);
  }

  lemma InfoBounds(instance: Byte, from: Option<U64>, to: Option<U64>)
    ensures var x := StartTail(if from.None? then Open else AtSlot(from.value));
            var y := if to.None? then [BREAK + 1] else [BREAK] + U64Bytes(to.value);
            !Before([instance], x) && Before([instance], y) <==> instance == BREAK && from.None?
  {
    hide U64Bytes;
    if from.Some? {
      assert ([BREAK] + U64Bytes(from.value))[1..] == U64Bytes(from.value) && [instance][1..] == [];
    }
    if to.Some? {
      assert ([BREAK] + U64Bytes(to.value))[1..] == U64Bytes(to.value) && [instance][1..] == [];
    }
  }
}
