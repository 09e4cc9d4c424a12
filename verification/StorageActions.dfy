/** The storage actions a block is reduced to, and how two actions on one key merge. */
module StorageActions {
  import opened Wrappers
  import opened Bytes

  type Key = Bytes
  type Value = Bytes
  type U128 = n: nat | n < 0x1_0000_0000_0000_0000_0000_0000_0000_0000

  datatype StorageAction =
    | Set(key: Key, value: Value)
    | Delete(key: Key)
    | Insert(key: Key, value: Value)
    | IncrementU64(key: Key, delta64: U64)
    | DecrementU64(key: Key, delta64: U64)
    | IncrementU128(key: Key, delta128: U128)
    | DecrementU128NoDelete(key: Key, delta128: U128)

  /** The three families of actions; only actions of one family may share a key. */
  datatype Kind = Data | Counter64 | Counter128

  function KindOf(a: StorageAction): Kind {
    match a
    case Set(_, _) | Delete(_) | Insert(_, _) => Data
    case IncrementU64(_, _) | DecrementU64(_, _) => Counter64
    case IncrementU128(_, _) | DecrementU128NoDelete(_, _) => Counter128
  }

  function Width(kind: Kind): nat {
    match kind
    case Data => 0
    case Counter64 => 8
    case Counter128 => 16
  }

  function Limit(kind: Kind): nat {
    match kind
    case Data => 1
    case Counter64 => TWO_64
    case Counter128 => TWO_128
  }

  /** The signed change a counter action stands for. */
  function Delta(a: StorageAction): (d: int)
    ensures KindOf(a) != Data ==> 0 - Limit(KindOf(a)) < d < Limit(KindOf(a))
  {
    match a
    case IncrementU64(_, d) => d
    case DecrementU64(_, d) => 0 - d
    case IncrementU128(_, d) => d
    case DecrementU128NoDelete(_, d) => 0 - d
    case _ => 0
  }

  predicate RequiresPreviousValue(a: StorageAction) {
    a.Insert? || KindOf(a) != Data
  }

  function Size(a: StorageAction): nat {
    match a
    case Set(k, v) => |k| + |v|
    case Delete(k) => |k|
    case Insert(k, v) => |k| + |v|
    case IncrementU64(k, _) => |k| + 8
    case DecrementU64(k, _) => |k| + 8
    case IncrementU128(k, _) => |k| + 16
    case DecrementU128NoDelete(k, _) => |k| + 16
  }

  function Add64(a: U64, b: U64): U64 {
    if a + b < TWO_64 then a + b else a + b - TWO_64
  }

  function Add128(a: U128, b: U128): U128 {
    if a + b < TWO_128 then a + b else a + b - TWO_128
  }

  /**
   * Merge `next` into `prev`. Unlike keys and unlike families panic; equal-sign counter deltas
   * add with the wrap-around of the release build.
   */
  function Merge(prev: StorageAction, next: StorageAction): (r: Outcome<StorageAction>)
    ensures r.Panic? <==> prev.key != next.key || KindOf(prev) != KindOf(next)
    ensures r.Ok? ==> r.value.key == prev.key && KindOf(r.value) == KindOf(prev)
    ensures r.Ok? ==> Size(r.value) <= Size(prev) + Size(next)
  {
    if prev.key != next.key then Panic else
    match (prev, next)
    case (IncrementU64(_, pd), IncrementU64(k, nd)) => Ok(IncrementU64(k, Add64(pd, nd)))
    case (IncrementU64(_, pd), DecrementU64(k, nd)) =>
      if pd >= nd then Ok(IncrementU64(k, pd - nd)) else Ok(DecrementU64(k, nd - pd))
    case (DecrementU64(_, pd), DecrementU64(k, nd)) => Ok(DecrementU64(k, Add64(pd, nd)))
    case (DecrementU64(_, pd), IncrementU64(k, nd)) =>
      if pd >= nd then Ok(DecrementU64(k, pd - nd)) else Ok(IncrementU64(k, nd - pd))
    case (IncrementU128(_, pd), IncrementU128(k, nd)) => Ok(IncrementU128(k, Add128(pd, nd)))
    case (IncrementU128(_, pd), DecrementU128NoDelete(k, nd)) =>
      if pd >= nd then Ok(IncrementU128(k, pd - nd)) else Ok(DecrementU128NoDelete(k, nd - pd))
    case (DecrementU128NoDelete(_, pd), DecrementU128NoDelete(k, nd)) =>
      Ok(DecrementU128NoDelete(k, Add128(pd, nd)))
    case (DecrementU128NoDelete(_, pd), IncrementU128(k, nd)) =>
      if pd >= nd then Ok(DecrementU128NoDelete(k, pd - nd)) else Ok(IncrementU128(k, nd - pd))
    case (Set(_, _), Set(_, _)) => Ok(next)
    case (Set(_, _), Delete(_)) => Ok(next)
    case (Set(_, _), Insert(_, _)) => Ok(prev)
    case (Delete(_), Insert(k, v)) => Ok(Set(k, v))
    case (Delete(_), Set(_, _)) => Ok(next)
    case (Delete(_), Delete(_)) => Ok(next)
    case (Insert(_, _), Set(_, _)) => Ok(next)
    case (Insert(_, _), Delete(_)) => Ok(next)
    case (Insert(_, _), Insert(_, _)) => Ok(prev)
    case (_, _) => Panic
  }

  /** Merged counter deltas add exactly, as long as the sum is representable. */
  lemma MergeAddsDeltas(prev: StorageAction, next: StorageAction)
    requires prev.key == next.key && KindOf(prev) == KindOf(next) != Data
    requires 0 - Limit(KindOf(prev)) < Delta(prev) + Delta(next) < Limit(KindOf(prev))
    ensures Merge(prev, next).Ok?
    ensures Delta(Merge(prev, next).value) == Delta(prev) + Delta(next)
  {
    match prev
    case IncrementU64(_, pd) =>
    case DecrementU64(_, pd) =>
    case IncrementU128(_, pd) =>
    case DecrementU128NoDelete(_, pd) =>
  }

  /** Equal-sign deltas add modulo the counter's width, whatever they are. */
  lemma MergeWraps(k: Key, a: U64, b: U64, x: U128, y: U128)
    ensures Merge(IncrementU64(k, a), IncrementU64(k, b)) == Ok(IncrementU64(k, (a + b) % 0x1_0000_0000_0000_0000))
    ensures Merge(DecrementU64(k, a), DecrementU64(k, b)) == Ok(DecrementU64(k, (a + b) % 0x1_0000_0000_0000_0000))
    ensures Merge(IncrementU128(k, x), IncrementU128(k, y))
            == Ok(IncrementU128(k, (x + y) % 0x1_0000_0000_0000_0000_0000_0000_0000_0000))
    ensures Merge(DecrementU128NoDelete(k, x), DecrementU128NoDelete(k, y))
            == Ok(DecrementU128NoDelete(k, (x + y) % 0x1_0000_0000_0000_0000_0000_0000_0000_0000))
  {
  }

  /** Merge a list of actions of one key into `acc`, oldest first. */
  function MergeFrom(acc: StorageAction, ops: seq<StorageAction>): (r: Outcome<StorageAction>)
    ensures r.Ok? ==> r.value.key == acc.key && KindOf(r.value) == KindOf(acc)
    decreases |ops|
  {
    if ops == [] then Ok(acc)
    else
      var merged :- Merge(acc, ops[0]);
      MergeFrom(merged, ops[1..])
  }

  /** The actions of one key, in order. */
  function Project(ops: seq<StorageAction>, k: Key): (r: seq<StorageAction>)
    ensures forall i :: 0 <= i < |r| ==> r[i].key == k && r[i] in ops
  {
    if ops == [] then []
    else if ops[0].key == k then [ops[0]] + Project(ops[1..], k)
    else Project(ops[1..], k)
  }

  lemma {:induction false} ProjectConcat(a: seq<StorageAction>, b: seq<StorageAction>, k: Key)
    ensures Project(a + b, k) == Project(a, k) + Project(b, k)
  {
    if a == [] {
      assert a + b == b;
    } else {
      ProjectConcat(a[1..], b, k);
      assert (a + b)[1..] == a[1..] + b;
    }
  }
}
