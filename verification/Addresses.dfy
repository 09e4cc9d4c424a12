/** Self-delimiting address encodings. */
module Addresses {
  import opened Wrappers
  import opened Bytes
  import opened KeyRanges

  type Hash28 = b: Bytes | |b| == 28 witness seq(28, i => 0)
  type Hash32 = b: Bytes | |b| == 32 witness seq(32, i => 0)

  datatype Network = Testnet | Mainnet | Other(id: Byte)
  datatype Credential = KeyHash(hash: Hash28) | ScriptHash(hash: Hash28)
  datatype Delegation = Staked(credential: Credential) | Pointer(slot: U64, tx: U64, cert: U64) | Enterprise
  datatype ShelleyAddress = ShelleyAddress(network: Network, payment: Credential, delegation: Delegation)

  /** A decoded value and how many bytes it took. */
  datatype Decoded<T> = Decoded(value: T, consumed: nat)

  function U64From(b: Bytes): U64
    requires |b| == 8
  {
    Pow256Widths();
    FromBigEndian(b)
  }

  lemma U64BytesFrom(b: Bytes)
    requires |b| == 8
    ensures U64Bytes(U64From(b)) == b
  {
    FromBigEndianInjective(U64Bytes(U64From(b)), b);
  }

  // ---- Shelley ----

  function EncodeNetwork(n: Network): Byte {
    match n
    case Testnet => 0
    case Mainnet => 1
    case Other(x) => x
  }

  function DecodeNetwork(b: Byte): Network {
    if b == 0 then Testnet else if b == 1 then Mainnet else Other(b)
  }

  function EncodeCredential(c: Credential): (b: Bytes)
    ensures |b| == 29
  {
    [if c.KeyHash? then 0 else 1] + c.hash
  }

  function DecodeCredential(kind: Byte, hash: Hash28): Option<Credential> {
    if kind == 0 then Some(KeyHash(hash)) else if kind == 1 then Some(ScriptHash(hash)) else None
  }

  function EncodeDelegation(d: Delegation): (b: Bytes)
    ensures b != []
  {
    match d
    case Staked(c) => EncodeCredential(c)
    case Pointer(s, t, c) => [2] + U64Bytes(s) + U64Bytes(t) + U64Bytes(c)
    case Enterprise => [3]
  }

  /** From the kind byte on; nothing if the kind is unknown or bytes are missing. */
  function DecodeDelegation(b: Bytes): Option<Decoded<Delegation>> {
    if b == [] then None
    else if b[0] <= 1 then
      if |b| < 29 then None
      else Some(Decoded(Staked(if b[0] == 0 then KeyHash(b[1..29]) else ScriptHash(b[1..29])), 29))
    else if b[0] == 2 then
      if |b| < 25 then None
      else Some(Decoded(Pointer(U64From(b[1..9]), U64From(b[9..17]), U64From(b[17..25])), 25))
    else if b[0] == 3 then Some(Decoded(Enterprise, 1))
    else None
  }

  lemma DelegationRoundTrip(d: Delegation, rest: Bytes)
    ensures DecodeDelegation(EncodeDelegation(d) + rest) == Some(Decoded(d, |EncodeDelegation(d)|))
  {
    hide U64Bytes, FromBigEndian;
    var b := EncodeDelegation(d) + rest;
    match d
    case Staked(c) => assert b[1..29] == c.hash;
    case Enterprise =>
    case Pointer(s, t, c) =>
      assert b[1..9] == U64Bytes(s) && b[9..17] == U64Bytes(t) && b[17..25] == U64Bytes(c);
  }

  lemma DelegationReencodes(b: Bytes)
    requires DecodeDelegation(b).Some?
    ensures var d := DecodeDelegation(b).value;
            d.consumed <= |b| && EncodeDelegation(d.value) == b[..d.consumed]
  {
    hide U64Bytes, FromBigEndian;
    if b[0] == 2 {
      U64BytesFrom(b[1..9]);
      U64BytesFrom(b[9..17]);
      U64BytesFrom(b[17..25]);
      assert b[..25] == [2] + b[1..9] + b[9..17] + b[17..25];
    } else if b[0] <= 1 {
      assert b[..29] == [b[0]] + b[1..29];
    }
  }

  function EncodeShelley(a: ShelleyAddress): (b: Bytes)
    ensures |b| >= 32
  {
    [EncodeNetwork(a.network)] + EncodeCredential(a.payment) + [BREAK] + EncodeDelegation(a.delegation)
  }

  /** The byte between the credentials is skipped, not checked. */
  function DecodeShelley(b: Bytes): Option<Decoded<ShelleyAddress>> {
    if |b| < 32 then None
    else
      match DecodeCredential(b[1], b[2..30])
      case None => None
      case Some(payment) =>
        match DecodeDelegation(b[31..])
        case None => None
        case Some(d) => Some(Decoded(ShelleyAddress(DecodeNetwork(b[0]), payment, d.value), 31 + d.consumed))
  }

  /** Testnet and mainnet have ids of their own. */
  predicate Canonical(a: ShelleyAddress) {
    a.network.Other? ==> a.network.id >= 2
  }

  function Canonicalised(a: ShelleyAddress): ShelleyAddress {
    a.(network := DecodeNetwork(EncodeNetwork(a.network)))
  }

  /** Decoding what was encoded, whatever follows, gives the address with its network made canonical. */
  lemma ShelleyRoundTrip(a: ShelleyAddress, rest: Bytes)
    ensures DecodeShelley(EncodeShelley(a) + rest) == Some(Decoded(Canonicalised(a), |EncodeShelley(a)|))
    ensures Canonical(a) <==> Canonicalised(a) == a
  {
    hide EncodeDelegation, DecodeDelegation;
    var b := EncodeShelley(a) + rest;
    assert b[2..30] == a.payment.hash;
    assert b[31..] == EncodeDelegation(a.delegation) + rest;
    DelegationRoundTrip(a.delegation, rest);
  }

  /** The bytes of an address: network, payment credential, break, and the delegation with its kind. */
  lemma ShelleyLayout(a: ShelleyAddress)
    ensures var b := EncodeShelley(a);
            && b[0] == (match a.network case Testnet => 0 case Mainnet => 1 case Other(x) => x)
            && b[1] == (if a.payment.KeyHash? then 0 else 1) && b[2..30] == a.payment.hash && b[30] == 96
            && b[31..] == match a.delegation
                          case Staked(c) => [if c.KeyHash? then 0 else 1] + c.hash
                          case Pointer(s, t, c) => [2] + U64Bytes(s) + U64Bytes(t) + U64Bytes(c)
                          case Enterprise => [3]
  {
    hide U64Bytes;
    var b := EncodeShelley(a);
    assert b[2..30] == a.payment.hash;
    assert b[31..] == EncodeDelegation(a.delegation);
  }

  /** What decodes is the encoding of the result, up to the unchecked byte. */
  lemma ShelleyReencodes(b: Bytes)
    requires DecodeShelley(b).Some?
    ensures var d := DecodeShelley(b).value;
            d.consumed <= |b| && Canonical(d.value) && EncodeShelley(d.value) == b[..d.consumed][30 := BREAK]
  {
    hide EncodeDelegation, DecodeDelegation;
    DelegationReencodes(b[31..]);
    var d := DecodeShelley(b).value;
    var n := d.consumed;
    assert EncodeDelegation(d.value.delegation) == b[31..n];
    assert b[..n][30 := BREAK] == [b[0]] + ([b[1]] + b[2..30]) + [BREAK] + b[31..n];
  }

  // ---- Byron ----

  const MAX_BYRON_ADDRESS_LEN: nat := 3000

  /** What a key can tell about a Byron address: its bytes, or their digest if they are too long. */
  datatype ByronId = Raw(bytes: Bytes) | Hashed(digest: Hash32)

  function ByronIdOf(digest: Bytes -> Hash32, bytes: Bytes): (id: ByronId)
    ensures ValidByron(id)
  {
    if |bytes| <= MAX_BYRON_ADDRESS_LEN then Raw(bytes) else Hashed(digest(bytes))
  }

  predicate ValidByron(id: ByronId) {
    id.Raw? ==> |id.bytes| <= MAX_BYRON_ADDRESS_LEN
  }

  function EncodeByron(id: ByronId): Bytes
    requires ValidByron(id)
  {
    match id
    case Raw(b) => [0] + U16Bytes(|b|) + b
    case Hashed(h) => [1] + h
  }

  /** Up to 3000 bytes an address is in the key as it is, with its length; beyond that only its digest is. */
  lemma ByronLayout(digest: Bytes -> Hash32, bytes: Bytes)
    ensures |bytes| <= 3000 ==> EncodeByron(ByronIdOf(digest, bytes)) == [0, |bytes| / 256, |bytes| % 256] + bytes
    ensures |bytes| > 3000 ==> EncodeByron(ByronIdOf(digest, bytes)) == [1] + digest(bytes)
  {
  }

  function DecodeByron(b: Bytes): Option<Decoded<ByronId>> {
    if b == [] then None
    else if b[0] == 0 then
      if |b| < 3 then None
      else
        var n := FromBigEndian(b[1..3]);
        if |b| < 3 + n then None else Some(Decoded(Raw(b[3..3 + n]), 3 + n))
    else if b[0] == 1 then
      if |b| < 33 then None else Some(Decoded(Hashed(b[1..33]), 33))
    else None
  }

  lemma ByronRoundTrip(id: ByronId, rest: Bytes)
    requires ValidByron(id)
    ensures DecodeByron(EncodeByron(id) + rest) == Some(Decoded(id, |EncodeByron(id)|))
  {
    hide FromBigEndian;
    var b := EncodeByron(id) + rest;
    match id
    case Raw(raw) =>
      assert b[1..3] == U16Bytes(|raw|);
      assert b[3..3 + |raw|] == raw;
    case Hashed(h) => assert b[1..33] == h;
  }

  // ---- Either ----

  datatype Address = Shelley(shelley: ShelleyAddress) | Byron(byron: ByronId)

  const ADDRESS_SHELLEY: Byte := 83
  const ADDRESS_BYRON: Byte := 66

  predicate ValidAddress(a: Address) {
    if a.Shelley? then Canonical(a.shelley) else ValidByron(a.byron)
  }

  function EncodeAddress(a: Address): Bytes
    requires a.Byron? ==> ValidByron(a.byron)
  {
    match a
    case Shelley(s) => [ADDRESS_SHELLEY] + EncodeShelley(s)
    case Byron(b) => [ADDRESS_BYRON] + EncodeByron(b)
  }

  function DecodeAddress(b: Bytes): Option<Decoded<Address>> {
    if b == [] then None
    else if b[0] == ADDRESS_SHELLEY then
      match DecodeShelley(b[1..])
      case None => None
      case Some(d) => Some(Decoded(Shelley(d.value), d.consumed + 1))
    else if b[0] == ADDRESS_BYRON then
      match DecodeByron(b[1..])
      case None => None
      case Some(d) => Some(Decoded(Byron(d.value), d.consumed + 1))
    else None
  }

  lemma AddressRoundTrip(a: Address, rest: Bytes)
    requires ValidAddress(a)
    ensures DecodeAddress(EncodeAddress(a) + rest) == Some(Decoded(a, |EncodeAddress(a)|))
  {
    hide EncodeShelley, EncodeByron, DecodeShelley, DecodeByron;
    var b := EncodeAddress(a) + rest;
    match a
    case Shelley(s) =>
      assert b[1..] == EncodeShelley(s) + rest;
      ShelleyRoundTrip(s, rest);
    case Byron(id) =>
      assert b[1..] == EncodeByron(id) + rest;
      ByronRoundTrip(id, rest);
  }
}
