/** Index keys of an instance, their decoders, and the ranges that are scanned for a subject. */
module DataKeys {
  import opened Wrappers
  import opened Bytes
  import opened KeyRanges
  import opened Addresses

  const PREFIX_DATA: Byte := 68
  const UTXOS_BY_POLICY: Byte := 100
  const UTXOS_BY_ASSET: Byte := 101
  const TXS_BY_ADDRESS: Byte := 105
  const UTXOS_BY_SHELLEY_ADDRESS: Byte := 121
  const UTXOS_BY_BYRON_ADDRESS: Byte := 122

  /** What an index is keyed by. */
  datatype Subject =
    | PolicyUtxos(policy: Hash28)
    | AssetUtxos(assetPolicy: Hash28, name: Bytes)
    | AddressTxs(address: Address)
    | ShelleyUtxos(shelley: ShelleyAddress)
    | ByronUtxos(byron: ByronId)

  predicate ValidSubject(s: Subject) {
    match s
    case PolicyUtxos(_) => true
    case AssetUtxos(_, name) => |name| <= 255
    case AddressTxs(a) => ValidAddress(a)
    case ShelleyUtxos(a) => Canonical(a)
    case ByronUtxos(id) => ValidByron(id)
  }

  function Tag(s: Subject): Byte {
    match s
    case PolicyUtxos(_) => UTXOS_BY_POLICY
    case AssetUtxos(_, _) => UTXOS_BY_ASSET
    case AddressTxs(_) => TXS_BY_ADDRESS
    case ShelleyUtxos(_) => UTXOS_BY_SHELLEY_ADDRESS
    case ByronUtxos(_) => UTXOS_BY_BYRON_ADDRESS
  }

  function EncodeShort(b: Bytes): Bytes
    requires |b| <= 255
  {
    [|b|] + b
  }

  function EncodeSubject(s: Subject): Bytes
    requires ValidSubject(s)
  {
    match s
    case PolicyUtxos(p) => p
    case AssetUtxos(p, name) => p + [BREAK] + EncodeShort(name)
    case AddressTxs(a) => EncodeAddress(a)
    case ShelleyUtxos(a) => EncodeShelley(a)
    case ByronUtxos(id) => EncodeByron(id)
  }

  function DecodeAsset(b: Bytes): Option<Decoded<Subject>> {
    if |b| < 30 then None
    else
      var n: nat := b[29];
      if |b| < 30 + n then None else Some(Decoded(AssetUtxos(b[..28], b[30..30 + n]), 30 + n))
  }

  function DecodeSubject(tag: Byte, b: Bytes): Option<Decoded<Subject>> {
    if tag == UTXOS_BY_POLICY then
      if |b| < 28 then None else Some(Decoded(PolicyUtxos(b[..28]), 28))
    else if tag == UTXOS_BY_ASSET then DecodeAsset(b)
    else if tag == TXS_BY_ADDRESS then
      match DecodeAddress(b) case None => None case Some(d) => Some(Decoded(AddressTxs(d.value), d.consumed))
    else if tag == UTXOS_BY_SHELLEY_ADDRESS then
      match DecodeShelley(b) case None => None case Some(d) => Some(Decoded(ShelleyUtxos(d.value), d.consumed))
    else if tag == UTXOS_BY_BYRON_ADDRESS then
      match DecodeByron(b) case None => None case Some(d) => Some(Decoded(ByronUtxos(d.value), d.consumed))
    else None
  }

  lemma SubjectRoundTrip(s: Subject, rest: Bytes)
    requires ValidSubject(s)
    ensures DecodeSubject(Tag(s), EncodeSubject(s) + rest) == Some(Decoded(s, |EncodeSubject(s)|))
  {
    hide EncodeAddress, EncodeShelley, EncodeByron, DecodeAddress, DecodeShelley, DecodeByron;
    var b := EncodeSubject(s) + rest;
    match s
    case PolicyUtxos(p) => assert b[..28] == p;
    case AssetUtxos(p, name) =>
      assert b[..28] == p && b[29] == |name| && b[30..30 + |name|] == name;
    case AddressTxs(a) => AddressRoundTrip(a, rest);
    case ShelleyUtxos(a) => ShelleyRoundTrip(a, rest);
    case ByronUtxos(id) => ByronRoundTrip(id, rest);
  }

  // ---- Prefixes ----

  function Head(e: Encoder, tag: Byte): Bytes {
    [e.dataplane, e.instance, PREFIX_DATA, tag]
  }

  function Prefix(e: Encoder, s: Subject): Bytes
    requires ValidSubject(s)
  {
    Head(e, Tag(s)) + EncodeSubject(s)
  }

  /** The leading bytes: dataplane, instance, the data tag and the tag of the index. */
  lemma PrefixLayout(e: Encoder, s: Subject)
    requires ValidSubject(s)
    ensures Prefix(e, s)[..4] == [e.dataplane, e.instance, 68,
                                  match s
                                  case PolicyUtxos(_) => 100
                                  case AssetUtxos(_, _) => 101
                                  case AddressTxs(_) => 105
                                  case ShelleyUtxos(_) => 121
                                  case ByronUtxos(_) => 122]
  {
    hide EncodeSubject;
  }

  /** The prefix code: one subject's prefix begins another's only if they are the same. */
  lemma PrefixFree(e: Encoder, s: Subject, f: Encoder, t: Subject)
    requires ValidSubject(s) && ValidSubject(t) && Prefix(e, s) <= Prefix(f, t)
    ensures e == f && s == t
  {
    hide EncodeSubject, DecodeSubject;
    var p, q := Prefix(e, s), Prefix(f, t);
    assert p[0] == e.dataplane && p[1] == e.instance && p[3] == Tag(s);
    assert q[0] == f.dataplane && q[1] == f.instance && q[3] == Tag(t);
    assert p[4..] == EncodeSubject(s) && q[4..] == EncodeSubject(t);
    var rest := q[|p|..];
    assert q[4..] == p[4..] + rest;
    SubjectRoundTrip(s, rest);
    SubjectRoundTrip(t, []);
    assert EncodeSubject(t) + [] == EncodeSubject(t);
  }

  lemma PrefixesApart(e: Encoder, s: Subject, f: Encoder, t: Subject)
    requires ValidSubject(s) && ValidSubject(t)
    ensures Prefix(e, s) == Prefix(f, t) <==> e == f && s == t
    ensures Prefix(e, s) == Prefix(f, t) || Apart(Prefix(e, s), Prefix(f, t))
  {
    hide Prefix;
    if Prefix(e, s) <= Prefix(f, t) {
      PrefixFree(e, s, f, t);
    } else if Prefix(f, t) <= Prefix(e, s) {
      PrefixFree(f, t, e, s);
    }
  }

  // ---- Items and keys ----

  datatype UtxoItem = UtxoItem(slot: U64, hash: Hash32, index: U64)
  datatype TxItem = TxItem(slot: U64, blockIndex: nat, hash: Hash32)

  function EncodeUtxoItem(i: UtxoItem): (b: Bytes)
    ensures |b| == 48
  {
    U64Bytes(i.slot) + i.hash + U64Bytes(i.index)
  }

  function DecodeUtxoItem(b: Bytes): UtxoItem
    requires |b| >= 48
  {
    UtxoItem(U64From(b[..8]), b[8..40], U64From(b[40..48]))
  }

  function EncodeTxItem(i: TxItem): (b: Bytes)
    requires i.blockIndex < 65536
    ensures |b| == 42
  {
    U64Bytes(i.slot) + U16Bytes(i.blockIndex) + i.hash
  }

  function DecodeTxItem(b: Bytes): TxItem
    requires |b| >= 42
  {
    TxItem(U64From(b[..8]), FromBigEndian(b[8..10]), b[10..42])
  }

  lemma UtxoItemRoundTrip(u: UtxoItem)
    ensures SlotOf(EncodeUtxoItem(u)) == u.slot && DecodeUtxoItem(EncodeUtxoItem(u)) == u
    ensures EncodeUtxoItem(u)[8..40] == u.hash
  {
    hide FromBigEndian;
    var b := EncodeUtxoItem(u);
    assert b[..8] == U64Bytes(u.slot) && b[8..40] == u.hash && b[40..48] == U64Bytes(u.index);
  }

  lemma TxItemRoundTrip(t: TxItem)
    requires t.blockIndex < 65536
    ensures SlotOf(EncodeTxItem(t)) == t.slot && DecodeTxItem(EncodeTxItem(t)) == t
    ensures EncodeTxItem(t)[10..42] == t.hash
  {
    hide FromBigEndian;
    var c := EncodeTxItem(t);
    assert c[..8] == U64Bytes(t.slot) && c[8..10] == U16Bytes(t.blockIndex) && c[10..42] == t.hash;
  }

  /** Where the parts of a key are. */
  lemma KeyParts(e: Encoder, s: Subject, item: Bytes)
    requires ValidSubject(s)
    ensures var key, n := KeyUnder(Prefix(e, s), item), |EncodeSubject(s)|;
            && |key| == 4 + n + 1 + |item| && key[3] == Tag(s)
            && key[4..] == EncodeSubject(s) + ([BREAK] + item) && key[4 + n + 1..] == item
  {
    hide EncodeSubject;
    assert KeyUnder(Prefix(e, s), item) == Head(e, Tag(s)) + (EncodeSubject(s) + ([BREAK] + item));
  }

  datatype DecodedKey<T> = DecodedKey(subject: Subject, item: T)

  /** The break byte after the subject is skipped. */
  function DecodeUtxoKey(key: Bytes): Option<DecodedKey<UtxoItem>> {
    if |key| < 4 then None
    else
      match DecodeSubject(key[3], key[4..])
      case None => None
      case Some(d) =>
        var at := 4 + d.consumed + 1;
        if |key| < at + 48 then None else Some(DecodedKey(d.value, DecodeUtxoItem(key[at..])))
  }

  lemma UtxoKeyRoundTrip(e: Encoder, s: Subject, i: UtxoItem)
    requires ValidSubject(s)
    ensures DecodeUtxoKey(KeyUnder(Prefix(e, s), EncodeUtxoItem(i))) == Some(DecodedKey(s, i))
  {
    hide EncodeSubject, DecodeSubject, EncodeUtxoItem, DecodeUtxoItem, Prefix, KeyUnder;
    KeyParts(e, s, EncodeUtxoItem(i));
    SubjectRoundTrip(s, [BREAK] + EncodeUtxoItem(i));
    UtxoItemRoundTrip(i);
  }

  /** Encoded keys differ wherever instance, subject or item do. */
  lemma UtxoKeysInjective(e: Encoder, s: Subject, i: UtxoItem, f: Encoder, t: Subject, j: UtxoItem)
    requires ValidSubject(s) && ValidSubject(t)
    requires KeyUnder(Prefix(e, s), EncodeUtxoItem(i)) == KeyUnder(Prefix(f, t), EncodeUtxoItem(j))
    ensures e == f && s == t && i == j
  {
    KeyStart(e, s, EncodeUtxoItem(i));
    KeyStart(f, t, EncodeUtxoItem(j));
    hide KeyUnder, Prefix, EncodeUtxoItem, DecodeUtxoKey;
    UtxoKeyRoundTrip(e, s, i);
    UtxoKeyRoundTrip(f, t, j);
  }

  lemma KeyStart(e: Encoder, s: Subject, item: Bytes)
    requires ValidSubject(s)
    ensures |KeyUnder(Prefix(e, s), item)| >= 2
    ensures KeyUnder(Prefix(e, s), item)[0] == e.dataplane && KeyUnder(Prefix(e, s), item)[1] == e.instance
  {
    hide EncodeSubject;
  }

  function DecodeTxKey(key: Bytes): Option<DecodedKey<TxItem>> {
    if |key| < 4 || key[3] != TXS_BY_ADDRESS then None
    else
      match DecodeSubject(key[3], key[4..])
      case None => None
      case Some(d) =>
        var at := 4 + d.consumed + 1;
        if |key| < at + 42 then None else Some(DecodedKey(d.value, DecodeTxItem(key[at..])))
  }

  lemma TxKeyRoundTrip(e: Encoder, a: Address, i: TxItem)
    requires ValidAddress(a) && i.blockIndex < 65536
    ensures DecodeTxKey(KeyUnder(Prefix(e, AddressTxs(a)), EncodeTxItem(i))) == Some(DecodedKey(AddressTxs(a), i))
  {
    hide EncodeSubject, DecodeSubject, EncodeTxItem, DecodeTxItem, Prefix, KeyUnder;
    KeyParts(e, AddressTxs(a), EncodeTxItem(i));
    SubjectRoundTrip(AddressTxs(a), [BREAK] + EncodeTxItem(i));
    TxItemRoundTrip(i);
  }

  // ---- Ranges ----

  function SubjectStart(e: Encoder, s: Subject, lower: Bound): Bytes
    requires ValidSubject(s)
  {
    StartKey(Prefix(e, s), lower)
  }

  function SubjectEnd(e: Encoder, s: Subject, upper: Bound): Bytes
    requires ValidSubject(s)
  {
    EndKey(Prefix(e, s), upper)
  }

  /**
   * A stored key lies in a subject's range iff it belongs to the same instance and subject and its
   * item meets the slot and cursor bounds.
   */
  lemma SubjectRangeIsExact(e: Encoder, s: Subject, f: Encoder, t: Subject, item: Bytes, lower: Bound, upper: Bound)
    requires ValidSubject(s) && ValidSubject(t) && |item| > 8
    ensures InRange(KeyUnder(Prefix(f, t), item), SubjectStart(e, s, lower), SubjectEnd(e, s, upper))
            <==> f == e && t == s && Admits(item, lower, upper)
  {
    PrefixesApart(e, s, f, t);
    RangeIsExact(Prefix(e, s), Prefix(f, t), item, lower, upper);
  }

  // ---- Payment credentials: all addresses of one network and payment part ----

  function CredentialPrefix(e: Encoder, network: Byte, payment: Credential): (b: Bytes)
    ensures |b| == 34
  {
    Head(e, UTXOS_BY_SHELLEY_ADDRESS) + [network] + EncodeCredential(payment)
  }

  /** The rest of such a key after the payment credential. */
  function CredentialItem(delegation: Delegation, item: Bytes): Bytes {
    EncodeDelegation(delegation) + [BREAK] + item
  }

  lemma Regroup(h: Bytes, n: Bytes, c: Bytes, brk: Bytes, d: Bytes, item: Bytes)
    ensures h + (n + c + brk + d) + brk + item == h + n + c + brk + (d + brk + item)
  {
  }

  lemma CredentialPrefixInjective(e: Encoder, n: Byte, p: Credential, f: Encoder, m: Byte, q: Credential)
    ensures CredentialPrefix(e, n, p) == CredentialPrefix(f, m, q) <==> e == f && n == m && p == q
  {
    var x, y := CredentialPrefix(e, n, p), CredentialPrefix(f, m, q);
    assert x[0] == e.dataplane && x[1] == e.instance && x[4] == n && x[5] == (if p.KeyHash? then 0 else 1) && x[6..] == p.hash;
    assert y[0] == f.dataplane && y[1] == f.instance && y[4] == m && y[5] == (if q.KeyHash? then 0 else 1) && y[6..] == q.hash;
  }

  /** A cursor carries a whole address; nothing ties it to the credential that is asked for. */
  datatype AddressCursor = AddressCursor(address: ShelleyAddress, item: UtxoItem)

  function UtxoKey(e: Encoder, a: ShelleyAddress, item: UtxoItem): Bytes {
    Head(e, UTXOS_BY_SHELLEY_ADDRESS) + EncodeShelley(a) + [BREAK] + EncodeUtxoItem(item)
  }

  function CredentialStart(e: Encoder, network: Byte, payment: Credential, lower: Option<AddressCursor>): Bytes {
    match lower
    case None => CredentialPrefix(e, network, payment) + [BREAK]
    case Some(c) => UtxoKey(e, c.address, c.item) + [0]
  }

  function CredentialEnd(e: Encoder, network: Byte, payment: Credential, upper: Option<AddressCursor>): Bytes {
    match upper
    case None => CredentialPrefix(e, network, payment) + [BREAK + 1]
    case Some(c) => UtxoKey(e, c.address, c.item)
  }

  /** The credential prefix of an address's own keys. */
  function PrefixOf(e: Encoder, a: ShelleyAddress): (b: Bytes)
    ensures |b| == 34
  {
    CredentialPrefix(e, EncodeNetwork(a.network), a.payment)
  }

  function TailOf(a: ShelleyAddress, item: UtxoItem): Bytes {
    [BREAK] + CredentialItem(a.delegation, EncodeUtxoItem(item))
  }

  lemma UtxoKeySplits(e: Encoder, a: ShelleyAddress, item: UtxoItem)
    ensures UtxoKey(e, a, item) == PrefixOf(e, a) + TailOf(a, item)
    ensures Canonical(a) ==> UtxoKey(e, a, item) == KeyUnder(Prefix(e, ShelleyUtxos(a)), EncodeUtxoItem(item))
  {
    hide EncodeCredential, EncodeDelegation, EncodeNetwork, EncodeUtxoItem;
    var h, n, b := Head(e, UTXOS_BY_SHELLEY_ADDRESS), [EncodeNetwork(a.network)], EncodeUtxoItem(item);
    var c, d := EncodeCredential(a.payment), EncodeDelegation(a.delegation);
    Regroup(h, n, c, [BREAK], d, b);
    assert h + n + c + [BREAK] + (d + [BREAK] + b) == (h + n + c) + ([BREAK] + (d + [BREAK] + b));
  }

  predicate AboveLower(e: Encoder, network: Byte, payment: Credential, lower: Option<AddressCursor>,
                       f: Encoder, a: ShelleyAddress, item: UtxoItem)
  {
    if lower.None? then AtOrBefore(CredentialPrefix(e, network, payment), PrefixOf(f, a))
    else Before(UtxoKey(e, lower.value.address, lower.value.item), UtxoKey(f, a, item))
  }

  predicate BelowUpper(e: Encoder, network: Byte, payment: Credential, upper: Option<AddressCursor>,
                       f: Encoder, a: ShelleyAddress, item: UtxoItem)
  {
    if upper.None? then AtOrBefore(PrefixOf(f, a), CredentialPrefix(e, network, payment))
    else Before(UtxoKey(f, a, item), UtxoKey(e, upper.value.address, upper.value.item))
  }

  /**
   * What a payment credential's range contains, for all cursors: an open end admits the keys whose
   * credential is on the right side of the one asked for, a cursor the keys strictly past it.
   */
  lemma CredentialRangeContains(e: Encoder, network: Byte, payment: Credential,
                                lower: Option<AddressCursor>, upper: Option<AddressCursor>,
                                f: Encoder, a: ShelleyAddress, item: UtxoItem)
    ensures InRange(UtxoKey(f, a, item), CredentialStart(e, network, payment, lower), CredentialEnd(e, network, payment, upper))
            <==> AboveLower(e, network, payment, lower, f, a, item) && BelowUpper(e, network, payment, upper, f, a, item)
  {
    hide Before, CredentialPrefix, CredentialItem, UtxoKey;
    var p, q, x := CredentialPrefix(e, network, payment), PrefixOf(f, a), TailOf(a, item);
    UtxoKeySplits(f, a, item);
    NotBeforeBreak(CredentialItem(a.delegation, EncodeUtxoItem(item)));
    if lower.None? {
      HeadThenTail(q, x, p, [BREAK]);
    } else {
      AfterCursor(UtxoKey(f, a, item), UtxoKey(e, lower.value.address, lower.value.item));
    }
    if upper.None? {
      HeadThenTail(q, x, p, [BREAK + 1]);
      OrderTotal(p, q);
      OrderIrreflexive(p);
    }
  }

  lemma NotBeforeBreak(x: Bytes)
    ensures !Before([BREAK] + x, [BREAK]) && Before([BREAK] + x, [BREAK + 1])
  {
    assert ([BREAK] + x)[1..] == x;
  }

  /** Whether the range returns a key that does not belong to the credential asked for. */
  ghost predicate Leaks(e: Encoder, network: Byte, payment: Credential,
                        lower: Option<AddressCursor>, upper: Option<AddressCursor>)
  {
    exists f, a, item ::
      Canonical(a) && LeakedBy(e, network, payment, lower, upper, f, a, item)
  }

  ghost predicate LeakedBy(e: Encoder, network: Byte, payment: Credential,
                           lower: Option<AddressCursor>, upper: Option<AddressCursor>,
                           f: Encoder, a: ShelleyAddress, item: UtxoItem)
  {
    && InRange(UtxoKey(f, a, item), CredentialStart(e, network, payment, lower), CredentialEnd(e, network, payment, upper))
    && !(f == e && EncodeNetwork(a.network) == network && a.payment == payment)
  }

  /** Cursors on the far side of the credential, or none, keep the range to that credential. */
  lemma RangeKeepsToCredential(e: Encoder, network: Byte, payment: Credential,
                               lower: Option<AddressCursor>, upper: Option<AddressCursor>)
    requires var p := CredentialPrefix(e, network, payment);
             (lower.Some? ==> AtOrBefore(p, PrefixOf(e, lower.value.address))) &&
             (upper.Some? ==> AtOrBefore(PrefixOf(e, upper.value.address), p))
    ensures !Leaks(e, network, payment, lower, upper)
  {
    hide Before, CredentialPrefix, CredentialStart, CredentialEnd, UtxoKey, TailOf, InRange;
    var p := CredentialPrefix(e, network, payment);
    forall f, a, item | Canonical(a) ensures !LeakedBy(e, network, payment, lower, upper, f, a, item) {
      var q := PrefixOf(f, a);
      CredentialRangeContains(e, network, payment, lower, upper, f, a, item);
      CredentialPrefixInjective(e, network, payment, f, EncodeNetwork(a.network), a.payment);
      if lower.Some? {
        PastCursor(e, lower.value.address, lower.value.item, f, a, item);
        Between(p, PrefixOf(e, lower.value.address), q);
      }
      if upper.Some? {
        PastCursor(f, a, item, e, upper.value.address, upper.value.item);
        Between(q, PrefixOf(e, upper.value.address), p);
      }
      OrderTotal(p, q);
    }
  }

  /** So with cursors of the credential itself the range is exactly its keys strictly between them. */
  lemma CredentialRangeIsExact(e: Encoder, network: Byte, payment: Credential,
                               lower: Option<AddressCursor>, upper: Option<AddressCursor>,
                               f: Encoder, a: ShelleyAddress, item: UtxoItem)
    requires Canonical(a)
    requires var p := CredentialPrefix(e, network, payment);
             (lower.Some? ==> PrefixOf(e, lower.value.address) == p) && (upper.Some? ==> PrefixOf(e, upper.value.address) == p)
    ensures InRange(UtxoKey(f, a, item), CredentialStart(e, network, payment, lower), CredentialEnd(e, network, payment, upper)) <==>
            && f == e && EncodeNetwork(a.network) == network && a.payment == payment
            && (lower.Some? ==> Before(UtxoKey(e, lower.value.address, lower.value.item), UtxoKey(f, a, item)))
            && (upper.Some? ==> Before(UtxoKey(f, a, item), UtxoKey(e, upper.value.address, upper.value.item)))
  {
    hide Before, CredentialPrefix, CredentialStart, CredentialEnd, UtxoKey, TailOf, InRange;
    OrderIrreflexive(CredentialPrefix(e, network, payment));
    RangeKeepsToCredential(e, network, payment, lower, upper);
    CredentialRangeContains(e, network, payment, lower, upper, f, a, item);
    assert !LeakedBy(e, network, payment, lower, upper, f, a, item);
  }

  lemma Between(a: Bytes, b: Bytes, c: Bytes)
    ensures AtOrBefore(a, b) && AtOrBefore(b, c) ==> AtOrBefore(a, c)
  {
    OrderTotal(a, b);
    OrderTotal(b, c);
    if Before(c, a) && AtOrBefore(a, b) && AtOrBefore(b, c) {
      if Before(a, b) { OrderTransitive(c, a, b); }
    }
  }

  /** A key past another is of the same credential or a later one. */
  lemma PastCursor(e: Encoder, a: ShelleyAddress, i: UtxoItem, f: Encoder, b: ShelleyAddress, j: UtxoItem)
    ensures Before(UtxoKey(e, a, i), UtxoKey(f, b, j)) <==>
            Before(PrefixOf(e, a), PrefixOf(f, b)) || (PrefixOf(e, a) == PrefixOf(f, b) && Before(TailOf(a, i), TailOf(b, j)))
    ensures Before(UtxoKey(e, a, i), UtxoKey(f, b, j)) ==> AtOrBefore(PrefixOf(e, a), PrefixOf(f, b))
  {
    hide Before, PrefixOf, TailOf, UtxoKey;
    UtxoKeySplits(e, a, i);
    UtxoKeySplits(f, b, j);
    HeadThenTail(PrefixOf(e, a), TailOf(a, i), PrefixOf(f, b), TailOf(b, j));
    OrderTotal(PrefixOf(e, a), PrefixOf(f, b));
    OrderIrreflexive(PrefixOf(e, a));
  }

  // ---- When a lower cursor of another credential lets other keys in ----

  function Full(n: nat): (b: Bytes)
    ensures |b| == n && forall i :: 0 <= i < n ==> b[i] == 255
  {
    if n == 0 then [] else Full(n - 1) + [255]
  }

  const FULL: Bytes := Full(48)

  /** No key of the cursor's own credential comes after it. */
  predicate LastOfCredential(c: AddressCursor) {
    c.address.delegation == Enterprise && EncodeUtxoItem(c.item) == FULL
  }

  lemma {:induction false} FullIsLast(b: Bytes, full: Bytes)
    requires |b| == |full| && forall i :: 0 <= i < |full| ==> full[i] == 255
    ensures !Before(full, b) && (b != full ==> Before(b, full))
  {
    if b != [] {
      FullIsLast(b[1..], full[1..]);
      assert b == [b[0]] + b[1..] && full == [full[0]] + full[1..];
    }
  }

  lemma LastItem() returns (i: UtxoItem)
    ensures EncodeUtxoItem(i) == FULL
  {
    hide FromBigEndian, U64Bytes;
    i := DecodeUtxoItem(FULL);
    U64BytesFrom(FULL[..8]);
    U64BytesFrom(FULL[40..48]);
    assert FULL == FULL[..8] + FULL[8..40] + FULL[40..48];
  }

  /** The tails of one credential's keys end with the enterprise address and the full item. */
  lemma TailIsLast(a: ShelleyAddress, i: UtxoItem, b: ShelleyAddress, j: UtxoItem)
    requires b.delegation == Enterprise && EncodeUtxoItem(j) == FULL
    ensures !Before(TailOf(b, j), TailOf(a, i))
    ensures !(a.delegation == Enterprise && EncodeUtxoItem(i) == FULL) ==> Before(TailOf(a, i), TailOf(b, j))
  {
    hide EncodeUtxoItem;
    var x, y := CredentialItem(a.delegation, EncodeUtxoItem(i)), CredentialItem(b.delegation, FULL);
    CommonPrefix([BREAK], x, y);
    CommonPrefix([BREAK], y, x);
    if a.delegation == Enterprise {
      CommonPrefix([3] + [BREAK], EncodeUtxoItem(i), FULL);
      CommonPrefix([3] + [BREAK], FULL, EncodeUtxoItem(i));
      FullIsLast(EncodeUtxoItem(i), FULL);
    } else {
      assert x[0] < 3 && y[0] == 3;
    }
  }

  /** Some credential lies strictly between the cursor's and the one asked for. */
  ghost predicate CredentialBetween(e: Encoder, c: AddressCursor, network: Byte, payment: Credential) {
    exists m: Byte, q: Credential ::
      Before(PrefixOf(e, c.address), CredentialPrefix(e, m, q)) &&
      Before(CredentialPrefix(e, m, q), CredentialPrefix(e, network, payment))
  }

  /**
   * The range after a cursor returns keys of another credential iff the cursor's credential is before
   * the one asked for and there is anything left between the two.
   */
  lemma LowerCursorLeaksIff(e: Encoder, network: Byte, payment: Credential, c: AddressCursor)
    requires Canonical(c.address)
    ensures Leaks(e, network, payment, Some(c), None) <==>
            && Before(PrefixOf(e, c.address), CredentialPrefix(e, network, payment))
            && (!LastOfCredential(c) || CredentialBetween(e, c, network, payment))
  {
    if Before(PrefixOf(e, c.address), CredentialPrefix(e, network, payment)) {
      if !LastOfCredential(c) {
        LeaksOwn(e, network, payment, c);
      }
      if CredentialBetween(e, c, network, payment) {
        LeaksBetween(e, network, payment, c);
      }
    } else {
      RangeKeepsToCredential(e, network, payment, Some(c), None);
    }
    if f, a, item :| Canonical(a) && LeakedBy(e, network, payment, Some(c), None, f, a, item) {
      LeakedHow(e, network, payment, c, f, a, item);
    }
  }

  lemma LeaksOwn(e: Encoder, network: Byte, payment: Credential, c: AddressCursor)
    requires Canonical(c.address) && !LastOfCredential(c)
    requires Before(PrefixOf(e, c.address), CredentialPrefix(e, network, payment))
    ensures Leaks(e, network, payment, Some(c), None)
  {
    var i := LastItem();
    var a := c.address.(delegation := Enterprise);
    TailIsLast(c.address, c.item, a, i);
    hide Before, CredentialPrefix, CredentialStart, CredentialEnd, UtxoKey, TailOf, InRange;
    PastCursor(e, c.address, c.item, e, a, i);
    CredentialRangeContains(e, network, payment, Some(c), None, e, a, i);
    OrderTotal(PrefixOf(e, a), CredentialPrefix(e, network, payment));
    OrderIrreflexive(PrefixOf(e, a));
    assert LeakedBy(e, network, payment, Some(c), None, e, a, i);
  }

  lemma LeaksBetween(e: Encoder, network: Byte, payment: Credential, c: AddressCursor)
    requires CredentialBetween(e, c, network, payment)
    ensures Leaks(e, network, payment, Some(c), None)
  {
    hide Before, CredentialPrefix, CredentialStart, CredentialEnd, UtxoKey, TailOf, InRange;
    var m: Byte, q :| Before(PrefixOf(e, c.address), CredentialPrefix(e, m, q)) &&
                      Before(CredentialPrefix(e, m, q), CredentialPrefix(e, network, payment));
    var a := ShelleyAddress(DecodeNetwork(m), q, Enterprise);
    PastCursor(e, c.address, c.item, e, a, c.item);
    CredentialRangeContains(e, network, payment, Some(c), None, e, a, c.item);
    OrderTotal(PrefixOf(e, a), CredentialPrefix(e, network, payment));
    OrderIrreflexive(PrefixOf(e, a));
    assert LeakedBy(e, network, payment, Some(c), None, e, a, c.item);
  }

  lemma LeakedHow(e: Encoder, network: Byte, payment: Credential, c: AddressCursor, f: Encoder, a: ShelleyAddress, item: UtxoItem)
    requires LeakedBy(e, network, payment, Some(c), None, f, a, item)
    ensures Before(PrefixOf(e, c.address), CredentialPrefix(e, network, payment))
    ensures !LastOfCredential(c) || CredentialBetween(e, c, network, payment)
  {
    var p, q, r := CredentialPrefix(e, network, payment), PrefixOf(f, a), PrefixOf(e, c.address);
    CredentialRangeContains(e, network, payment, Some(c), None, f, a, item);
    CredentialPrefixInjective(e, network, payment, f, EncodeNetwork(a.network), a.payment);
    PastCursor(e, c.address, c.item, f, a, item);
    OrderTotal(q, p);
    if r == q {
      if LastOfCredential(c) {
        TailIsLast(a, item, c.address, c.item);
      }
    } else {
      OrderTransitive(r, q, p);
      SameInstance(e, c.address, f, a, network, payment);
    }
  }

  /** Between two prefixes of one instance there are only prefixes of that instance. */
  lemma SameInstance(e: Encoder, a: ShelleyAddress, f: Encoder, b: ShelleyAddress, network: Byte, payment: Credential)
    requires Before(PrefixOf(e, a), PrefixOf(f, b)) && Before(PrefixOf(f, b), CredentialPrefix(e, network, payment))
    ensures e == f
  {
    var h, q := Head(e, UTXOS_BY_SHELLEY_ADDRESS), PrefixOf(f, b);
    var x := [EncodeNetwork(a.network)] + EncodeCredential(a.payment);
    var y := [network] + EncodeCredential(payment);
    assert PrefixOf(e, a) == h + x && CredentialPrefix(e, network, payment) == h + y;
    OrderTotal(h + x, q);
    BetweenHasPrefix(h, x, q, y);
    assert q[0] == h[0] && q[1] == h[1];
  }

  /** For one input: asked for a script, a cursor at the key with the same hash lets later keys in. */
  lemma ForeignCursor(e: Encoder, network: Byte, h: Hash28, g: Hash28, c: AddressCursor, d: Delegation, item: UtxoItem)
    requires c.address.payment == KeyHash(h) && EncodeNetwork(c.address.network) == network && Before(h, g)
    ensures var a := ShelleyAddress(DecodeNetwork(network), KeyHash(g), d);
            LeakedBy(e, network, ScriptHash(h), Some(c), None, e, a, item)
  {
    var a := ShelleyAddress(DecodeNetwork(network), KeyHash(g), d);
    var p := Head(e, UTXOS_BY_SHELLEY_ADDRESS) + [network];
    assert PrefixOf(e, c.address) == p + ([0] + h) && PrefixOf(e, a) == p + ([0] + g);
    assert CredentialPrefix(e, network, ScriptHash(h)) == p + ([1] + h);
    CommonPrefix(p, [0] + h, [0] + g);
    CommonPrefix([0], h, g);
    CommonPrefix(p, [1] + h, [0] + g);
    PastCursor(e, c.address, c.item, e, a, item);
    CredentialRangeContains(e, network, ScriptHash(h), Some(c), None, e, a, item);
  }

  // ---- The payment credential cursor ----

  function EncodeCursor(c: AddressCursor): Bytes {
    EncodeShelley(c.address) + EncodeUtxoItem(c.item)
  }

  /** Only the three lengths an address can have are accepted, and all bytes must be used. */
  function DecodeCursor(b: Bytes): Option<AddressCursor> {
    if |b| != 60 + 48 && |b| != 56 + 48 && |b| != 32 + 48 then None
    else
      match DecodeShelley(b)
      case None => None
      case Some(d) =>
        if d.consumed + 48 != |b| then None
        else Some(AddressCursor(d.value, DecodeUtxoItem(b[d.consumed..])))
  }

  lemma ShelleyLengths(a: ShelleyAddress)
    ensures |EncodeShelley(a)| == 60 || |EncodeShelley(a)| == 56 || |EncodeShelley(a)| == 32
  {
  }

  /** A cursor decodes to itself, and whatever decodes is a cursor's encoding up to the unchecked byte. */
  lemma CursorRoundTrip(c: AddressCursor)
    requires Canonical(c.address)
    ensures DecodeCursor(EncodeCursor(c)) == Some(c)
  {
    hide EncodeShelley, DecodeShelley, EncodeUtxoItem, DecodeUtxoItem;
    var b := EncodeCursor(c);
    ShelleyLengths(c.address);
    ShelleyRoundTrip(c.address, EncodeUtxoItem(c.item));
    assert b[|EncodeShelley(c.address)|..] == EncodeUtxoItem(c.item);
    UtxoItemRoundTrip(c.item);
  }

  lemma CursorReencodes(b: Bytes)
    requires DecodeCursor(b).Some?
    ensures Canonical(DecodeCursor(b).value.address)
    ensures EncodeCursor(DecodeCursor(b).value) == b[30 := BREAK]
  {
    hide EncodeShelley, DecodeShelley, FromBigEndian, U64Bytes;
    ShelleyReencodes(b);
    var d := DecodeShelley(b).value;
    var tail := b[d.consumed..];
    U64BytesFrom(tail[..8]);
    U64BytesFrom(tail[40..48]);
    assert tail == tail[..8] + tail[8..40] + tail[40..48];
    assert b[30 := BREAK] == b[..d.consumed][30 := BREAK] + tail;
  }
}
