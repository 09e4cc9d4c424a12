/** Byte strings, their lexicographic order, and big-endian integers. */
module Bytes {

  type Byte = b: nat | b < 256
  type Bytes = seq<Byte>

  const TWO_64: nat := 0x1_0000_0000_0000_0000
  const TWO_128: nat := 0x1_0000_0000_0000_0000_0000_0000_0000_0000

  type U64 = n: nat | n < 0x1_0000_0000_0000_0000

  function Pow256(n: nat): (p: nat)
    ensures p > 0
  {
    if n == 0 then 1 else 256 * Pow256(n - 1)
  }

  lemma Pow256Widths()
    ensures Pow256(1) == 256
    ensures Pow256(2) == 65536
    ensures Pow256(8) == TWO_64
    ensures Pow256(16) == TWO_128
  {
    assert Pow256(4) == 0x1_0000_0000;
    assert Pow256(8) == TWO_64;
    assert Pow256(12) == 0x1_0000_0000 * TWO_64;
  }

  function FromBigEndian(b: Bytes): (n: nat)
    ensures n < Pow256(|b|)
  {
    if b == [] then 0 else FromBigEndian(b[..|b| - 1]) * 256 + b[|b| - 1]
  }

  function ToBigEndian(value: nat, width: nat): (b: Bytes)
    requires value < Pow256(width)
    ensures |b| == width
    ensures FromBigEndian(b) == value
  {
    if width == 0 then []
    else
      var high := ToBigEndian(value / 256, width - 1);
      var b := high + [value % 256];
      assert b[..width - 1] == high;
      b
  }

  function U64Bytes(n: U64): (b: Bytes)
    ensures |b| == 8 && FromBigEndian(b) == n
  {
    Pow256Widths();
    ToBigEndian(n, 8)
  }

  function U16Bytes(n: nat): (b: Bytes)
    requires n < 65536
    ensures |b| == 2 && FromBigEndian(b) == n
  {
    Pow256Widths();
    ToBigEndian(n, 2)
  }

  /** Decoding fixes the bytes: equally long strings with equal values are equal. */
  lemma {:induction false} FromBigEndianInjective(a: Bytes, b: Bytes)
    requires |a| == |b|
    requires FromBigEndian(a) == FromBigEndian(b)
    ensures a == b
  {
    if a != [] {
      var n := |a| - 1;
      FromBigEndianInjective(a[..n], b[..n]);
      assert a == a[..n] + [a[n]] && b == b[..n] + [b[n]];
    }
  }

  /** Strict lexicographic order, the order in which TiKV and RocksDB keep keys. */
  predicate Before(a: Bytes, b: Bytes) {
    b != [] && (a == [] || a[0] < b[0] || (a[0] == b[0] && Before(a[1..], b[1..])))
  }

  predicate AtOrBefore(a: Bytes, b: Bytes) {
    !Before(b, a)
  }

  lemma OrderIrreflexive(a: Bytes)
    ensures !Before(a, a)
  {
  }

  lemma {:induction false} OrderTotal(a: Bytes, b: Bytes)
    ensures Before(a, b) || a == b || Before(b, a)
    ensures !(Before(a, b) && Before(b, a))
  {
    if a != [] && b != [] {
      OrderTotal(a[1..], b[1..]);
      if a[0] == b[0] && a[1..] == b[1..] {
        assert a == [a[0]] + a[1..] == b;
      }
    }
  }

  lemma {:induction false} OrderTransitive(a: Bytes, b: Bytes, c: Bytes)
    requires Before(a, b) && Before(b, c)
    ensures Before(a, c)
  {
    if a != [] {
      if a[0] == b[0] && b[0] == c[0] {
        OrderTransitive(a[1..], b[1..], c[1..]);
      }
    }
  }

  lemma AtOrBeforeThenBefore(a: Bytes, b: Bytes, c: Bytes)
    requires AtOrBefore(a, b) && Before(b, c)
    ensures Before(a, c)
  {
    OrderTotal(a, b);
    if Before(a, b) { OrderTransitive(a, b, c); }
  }

  /** A shared prefix does not influence the order. */
  lemma {:induction false} CommonPrefix(p: Bytes, a: Bytes, b: Bytes)
    ensures Before(p + a, p + b) <==> Before(a, b)
  {
    if p == [] {
      assert p + a == a && p + b == b;
    } else {
      CommonPrefix(p[1..], a, b);
      assert (p + a)[1..] == p[1..] + a && (p + b)[1..] == p[1..] + b;
    }
  }

  /** Among equally long strings the order is the order of the encoded numbers. */
  lemma {:induction false} OrderIsNumeric(a: Bytes, b: Bytes)
    requires |a| == |b|
    ensures Before(a, b) <==> FromBigEndian(a) < FromBigEndian(b)
    decreases |a|
  {
    if a != [] {
      var n := |a| - 1;
      OrderIsNumeric(a[..n], b[..n]);
      assert a == a[..n] + a[n..] && b == b[..n] + b[n..];
      if a[..n] == b[..n] {
        CommonPrefix(a[..n], a[n..], b[n..]);
      } else {
        HeadsDecide(a[..n], a[n..], b[..n], b[n..]);
        OrderIsNumeric(b[..n], a[..n]);
        OrderTotal(a[..n], b[..n]);
      }
    }
  }

  /** Equally long heads decide before the tails are looked at. */
  lemma {:induction false} HeadsDecide(a: Bytes, x: Bytes, b: Bytes, y: Bytes)
    requires |a| == |b| && a != b
    ensures Before(a + x, b + y) <==> Before(a, b)
  {
    if a[0] == b[0] {
      assert a == [a[0]] + a[1..] && b == [b[0]] + b[1..];
      HeadsDecide(a[1..], x, b[1..], y);
      assert (a + x)[1..] == a[1..] + x && (b + y)[1..] == b[1..] + y;
    }
  }
}
