/** Byte strings and the fixed-width integers read from and written to them. */
module Bytes {
  type byte = x: int | 0 <= x < 256
  type bytes = seq<byte>

  datatype Order = Little | Big

  const U16: nat := 0x1_0000
  const U32: nat := 0x1_0000_0000

  function Shift(high: nat, low: byte): nat { high * 256 + low }

  /** binary.ByteOrder.Uint16 and Uint32 at the start of a slice. */
  function Get16(order: Order, b: bytes): (n: nat)
    requires |b| >= 2
    ensures n < U16
  {
    if order.Big? then Shift(b[0], b[1]) else Shift(b[1], b[0])
  }

  function Get32(order: Order, b: bytes): (n: nat)
    requires |b| >= 4
    ensures n < U32
  {
    if order.Big? then Shift(Shift(Shift(b[0], b[1]), b[2]), b[3])
    else Shift(Shift(Shift(b[3], b[2]), b[1]), b[0])
  }

  /** PutUint16(uint16(n)) and PutUint32(uint32(n)): the conversion keeps the low bits. */
  function Put16(order: Order, n: nat): (b: bytes)
    ensures |b| == 2
  {
    if order.Big? then [n / 256 % 256, n % 256] else [n % 256, n / 256 % 256]
  }

  function Put32(order: Order, n: nat): (b: bytes)
    ensures |b| == 4
  {
    var q1 := n / 256;
    var q2 := q1 / 256;
    var q3 := q2 / 256;
    if order.Big? then [q3 % 256, q2 % 256, q1 % 256, n % 256] else [n % 256, q1 % 256, q2 % 256, q3 % 256]
  }

  lemma Get16Put16(order: Order, n: nat)
    ensures Get16(order, Put16(order, n)) == n % U16
  {
    var q := n / 256;
    Remainder16(n, q / 256, Shift(q % 256, n % 256));
  }

  lemma Remainder16(n: nat, q: nat, r: nat)
    requires n == q * 0x1_0000 + r && r < 0x1_0000
    ensures n % U16 == r
  {
  }

  lemma Remainder32(n: nat, q: nat, r: nat)
    requires n == q * 0x1_0000_0000 + r && r < 0x1_0000_0000
    ensures n % U32 == r
  {
  }

  lemma Get32Put32(order: Order, n: nat)
    ensures Get32(order, Put32(order, n)) == n % U32
  {
    var q1 := n / 256;
    var q2 := q1 / 256;
    var q3 := q2 / 256;
    var r := Shift(Shift(Shift(q3 % 256, q2 % 256), q1 % 256), n % 256);
    assert Get32(order, Put32(order, n)) == r;
    FourDigits(n, q1, q2, q3, q3 / 256);
    Remainder32(n, q3 / 256, r);
  }

  /** A number that fits is read back as it was. */
  lemma Get32Fits(order: Order, n: nat)
    requires n < U32
    ensures Get32(order, Put32(order, n)) == n
  {
    hide Get32, Put32;
    Get32Put32(order, n);
    Remainder32(n, 0, n);
  }

  lemma FourDigits(n: nat, q1: nat, q2: nat, q3: nat, q4: nat)
    requires q1 == n / 256 && q2 == q1 / 256 && q3 == q2 / 256 && q4 == q3 / 256
    ensures n == q4 * 0x1_0000_0000 + Shift(Shift(Shift(q3 % 256, q2 % 256), q1 % 256), n % 256)
  {
    assert n == q1 * 256 + n % 256;
    assert q1 == q2 * 256 + q1 % 256;
    assert q2 == q3 * 256 + q2 % 256;
    assert q3 == q4 * 256 + q3 % 256;
  }

  lemma Put32Get32(order: Order, b: bytes)
    requires |b| == 4
    ensures Put32(order, Get32(order, b)) == b
  {
    if order.Big? {
      Digits(b[0], b[1], b[2], b[3]);
    } else {
      Digits(b[3], b[2], b[1], b[0]);
    }
  }

  lemma Digits(a: byte, b: byte, c: byte, d: byte)
    ensures var n := Shift(Shift(Shift(a, b), c), d);
            && n % 256 == d && n / 256 == Shift(Shift(a, b), c)
            && n / 256 % 256 == c && n / 256 / 256 == Shift(a, b)
            && n / 256 / 256 % 256 == b && n / 256 / 256 / 256 == a
  {
  }

  lemma Assoc(a: bytes, b: bytes, c: bytes)
    ensures a + b + c == a + (b + c)
  {
  }

  /** A slice of a slice. */
  lemma SliceWithin(d: bytes, at: nat, n: nat, i: nat, j: nat)
    requires at + n <= |d| && i <= j <= n
    ensures d[at..at + n][i..j] == d[at + i..at + j]
  {
    var w := d[at..at + n];
    forall k: nat | k < j - i
      ensures w[i..j][k] == d[at + i..at + j][k]
    {
      assert w[i + k] == d[at + (i + k)];
    }
  }

  function Zeros(n: nat): (b: bytes)
    ensures |b| == n
  {
    seq(n, _ => 0)
  }

  function StartsWith(data: bytes, prefix: bytes): bool { |data| >= |prefix| && data[..|prefix|] == prefix }
}
