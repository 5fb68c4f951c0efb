/** Bytes as integers, powers of two, and the bit order of RFC 1951 section 3.1.1. */
module Bits {

  type Byte = b: int | 0 <= b < 256 witness 0

  function Zeros(n: nat): (r: seq<Byte>)
    ensures |r| == n && forall i :: 0 <= i < n ==> r[i] == 0
  {
    seq(n, _ => 0)
  }

  type Bit = b: int | 0 <= b < 2 witness 0

  function Pow2(n: nat): (p: nat)
    ensures p > 0
  {
    if n == 0 then 1 else 2 * Pow2(n - 1)
  }

  lemma {:induction false} Pow2Add(m: nat, n: nat)
    ensures Pow2(m + n) == Pow2(m) * Pow2(n)
  {
    if m == 0 {
    } else {
      Pow2Add(m - 1, n);
    }
  }

  lemma {:induction false} Pow2Monotone(m: nat, n: nat)
    requires m <= n
    ensures Pow2(m) <= Pow2(n)
  {
    if m < n {
      Pow2Monotone(m, n - 1);
    }
  }

  lemma Pow2Values()
    ensures Pow2(0) == 1 && Pow2(4) == 16 && Pow2(8) == 0x100 && Pow2(15) == 0x8000 && Pow2(16) == 0x1_0000
  {
    assert Pow2(4) == 16;
    Pow2Add(4, 4);
    Pow2Add(8, 8);
  }

  lemma MulAtLeast(unit: int, d: int)
    requires unit >= 0
    ensures d >= 1 ==> unit * d >= unit
    ensures d <= -1 ==> unit * d <= -unit
  {
    if d >= 1 {
      assert unit * d == unit + unit * (d - 1);
    } else if d <= -1 {
      assert unit * d == -unit + unit * (d + 1);
    }
  }

  lemma ProductIsNat(a: nat, b: nat)
    ensures a * b >= 0
  {
  }

  lemma Associate(a: int, b: int, c: int)
    ensures (a * b) * c == a * (b * c)
  {
  }

  lemma Distribute(a: int, b: int, c: int)
    ensures a * (b + c) == a * b + a * c
    ensures (b + c) * a == b * a + c * a
  {
  }

  lemma LastBit(b: Bit, rest: nat)
    ensures (b + 2 * rest) % 2 == b && (b + 2 * rest) / 2 == rest
  {
  }

  /** A number split at a unit is recovered by quotient and remainder. */
  lemma SplitAt(low: nat, high: nat, unit: nat)
    requires low < unit
    ensures (low + unit * high) % unit == low
    ensures (low + unit * high) / unit == high
  {
    var x := low + unit * high;
    var d := x / unit - high;
    Distribute(unit, high, d);
    assert x == unit * (high + d) + x % unit;
    MulAtLeast(unit, d);
  }

  /** Bit k of a byte string: bytes in order, least significant bit first. */
  function BitAt(bytes: seq<Byte>, k: nat): Bit
    requires k < 8 * |bytes|
  {
    (bytes[k / 8] / Pow2(k % 8)) % 2
  }

  function BitList(bytes: seq<Byte>): (bits: seq<Bit>)
    ensures |bits| == 8 * |bytes|
  {
    seq(8 * |bytes|, k requires 0 <= k < 8 * |bytes| => BitAt(bytes, k))
  }

  /** The n bits from p as a number, first bit least significant (all DEFLATE integers). */
  function Lsb(bits: seq<Bit>, p: nat, n: nat): (v: nat)
    requires p + n <= |bits|
    ensures v < Pow2(n)
    decreases n
  {
    if n == 0 then 0 else bits[p] + 2 * Lsb(bits, p + 1, n - 1)
  }

  /** The n bits from p as a number, first bit most significant (Huffman codes). */
  function Msb(bits: seq<Bit>, p: nat, n: nat): (v: nat)
    requires p + n <= |bits|
    ensures v < Pow2(n)
    decreases n
  {
    if n == 0 then 0 else bits[p] * Pow2(n - 1) + Msb(bits, p + 1, n - 1)
  }

  lemma {:induction false} LsbSplit(bits: seq<Bit>, p: nat, m: nat, n: nat)
    requires p + m + n <= |bits|
    ensures Lsb(bits, p, m + n) == Lsb(bits, p, m) + Pow2(m) * Lsb(bits, p + m, n)
    decreases m
  {
    if m > 0 {
      LsbSplit(bits, p + 1, m - 1, n);
      Associate(2, Pow2(m - 1), Lsb(bits, p + m, n));
    }
  }

  lemma {:induction false} MsbSplit(bits: seq<Bit>, p: nat, m: nat, n: nat)
    requires p + m + n <= |bits|
    ensures Msb(bits, p, m + n) == Msb(bits, p, m) * Pow2(n) + Msb(bits, p + m, n)
    decreases m
  {
    if m > 0 {
      MsbSplit(bits, p + 1, m - 1, n);
      Pow2Add(m - 1, n);
      Associate(bits[p], Pow2(m - 1), Pow2(n));
      Distribute(Pow2(n), bits[p] * Pow2(m - 1), Msb(bits, p + 1, m - 1));
    }
  }

  lemma Regroup(unit: nat, h: nat, e: nat)
    requires e < 2
    ensures unit * (2 * h + e) == 2 * unit * h + unit * e
    ensures 0 <= unit * e <= unit
  {
    Distribute(unit, 2 * h, e);
    assert unit * (2 * h) == 2 * unit * h;
    if e == 0 {
      assert unit * e == 0;
    } else {
      assert unit * e == unit;
    }
  }

  lemma HalveSplit(q: nat, r: nat, unit: nat)
    requires r < unit
    ensures (unit * q + r) / (2 * unit) == q / 2
    ensures (unit * q + r) % (2 * unit) == unit * (q % 2) + r
  {
    Regroup(unit, q / 2, q % 2);
    SplitAt(unit * (q % 2) + r, q / 2, 2 * unit);
  }

  lemma HalveQuotient(x: nat, unit: nat)
    requires unit > 0
    ensures x / (2 * unit) == x / unit / 2
    ensures x % (2 * unit) == unit * (x / unit % 2) + x % unit
  {
    HalveSplit(x / unit, x % unit, unit);
  }

  lemma BitOfByte(bytes: seq<Byte>, i: nat, k: nat)
    requires i < |bytes| && k < 8
    ensures BitList(bytes)[8 * i + k] == (bytes[i] / Pow2(k)) % 2
  {
    assert (8 * i + k) / 8 == i && (8 * i + k) % 8 == k;
  }

  /** The last n bits of byte i, read least significant first, are its high bits. */
  lemma {:induction false} ByteSuffix(bytes: seq<Byte>, i: nat, n: nat)
    requires i < |bytes| && n <= 8
    ensures Lsb(BitList(bytes), 8 * i + (8 - n), n) == bytes[i] / Pow2(8 - n)
    decreases n
  {
    var k := 8 - n;
    if n == 0 {
      assert Pow2(8) == 256 by { Pow2Add(4, 4); }
    } else {
      assert Pow2(k + 1) == 2 * Pow2(k);
      assert BitList(bytes)[8 * i + k] == (bytes[i] / Pow2(k)) % 2 by { BitOfByte(bytes, i, k); }
      hide Lsb, Pow2, BitList, BitAt;
      ByteSuffix(bytes, i, n - 1);
      UnfoldBits(BitList(bytes), 8 * i + k, n);
      HalveQuotient(bytes[i], Pow2(k));
    }
  }

  /** Eight bits of the list, read least significant first, are the byte again. */
  lemma ByteFromBits(bytes: seq<Byte>, i: nat)
    requires i < |bytes|
    ensures Lsb(BitList(bytes), 8 * i, 8) == bytes[i]
  {
    hide Lsb, BitList;
    ByteSuffix(bytes, i, 8);
  }

  /** Bit reversal of an n-bit number, as computed bit by bit by `reverse_bits`. */
  function Reverse(x: nat, n: nat): (r: nat)
    ensures r < Pow2(n)
    decreases n
  {
    if n == 0 then 0 else (x % 2) * Pow2(n - 1) + Reverse(x / 2, n - 1)
  }

  lemma NoBits(bits: seq<Bit>, p: nat)
    requires p <= |bits|
    ensures Msb(bits, p, 0) == 0 && Lsb(bits, p, 0) == 0 && Reverse(0, 0) == 0
  {
  }

  lemma ReverseUnfold(x: nat, n: nat)
    requires n > 0
    ensures Reverse(x, n) == (x % 2) * Pow2(n - 1) + Reverse(x / 2, n - 1)
  {
  }

  lemma ReverseBit(b: Bit, rest: nat, n: nat)
    requires n > 0
    ensures Reverse(b + 2 * rest, n) == b * Pow2(n - 1) + Reverse(rest, n - 1)
  {
    hide Reverse, Pow2;
    LastBit(b, rest);
    ReverseUnfold(b + 2 * rest, n);
  }

  lemma UnfoldBits(bits: seq<Bit>, p: nat, n: nat)
    requires n > 0 && p + n <= |bits|
    ensures Lsb(bits, p, n) == bits[p] + 2 * Lsb(bits, p + 1, n - 1)
    ensures Msb(bits, p, n) == bits[p] * Pow2(n - 1) + Msb(bits, p + 1, n - 1)
  {
  }

  /** Reading first-bit-most-significant is the reversal of reading it least significant. */
  lemma {:induction false} MsbIsReversedLsb(bits: seq<Bit>, p: nat, n: nat)
    requires p + n <= |bits|
    ensures Msb(bits, p, n) == Reverse(Lsb(bits, p, n), n)
    decreases n
  {
    NoBits(bits, p);
    hide Msb, Lsb, Reverse, Pow2;
    if n > 0 {
      MsbIsReversedLsb(bits, p + 1, n - 1);
      ReverseBit(bits[p], Lsb(bits, p + 1, n - 1), n);
      UnfoldBits(bits, p, n);
    }
  }

  lemma HalveBeforeSplit(x: nat, half: nat)
    requires half > 0
    ensures x % (2 * half) == 2 * (x / 2 % half) + x % 2
    ensures x / (2 * half) == x / 2 / half
  {
    DivMod(x / 2, half);
    HalveParts(x / 2 / half, x / 2 % half, x % 2, half);
  }

  lemma DivMod(y: nat, unit: nat)
    requires unit > 0
    ensures y == unit * (y / unit) + y % unit
  {
  }

  lemma HalveParts(q: nat, r: nat, b: Bit, half: nat)
    requires r < half
    ensures (2 * (half * q + r) + b) % (2 * half) == 2 * r + b
    ensures (2 * (half * q + r) + b) / (2 * half) == q
  {
    Associate(2, half, q);
    SplitAt(2 * r + b, q, 2 * half);
  }

  lemma ReverseTopStep(b: Bit, y: nat, q: nat, r: nat, n: nat)
    requires n > 1 && Reverse(y, n - 1) == 2 * Reverse(r, n - 2) + q
    ensures Reverse(b + 2 * y, n) == 2 * Reverse(b + 2 * r, n - 1) + q
  {
    hide Reverse;
    ReverseBit(b, y, n);
    ReverseBit(b, r, n - 1);
    if b == 0 {
    } else {
      assert b == 1;
    }
  }

  /** The most significant of n bits, and the others. */
  function TopPart(x: nat, n: nat): nat
    requires n > 0
  {
    Quotient(x, Pow2(n - 1))
  }

  function Quotient(x: nat, unit: nat): nat
    requires unit > 0
  {
    x / unit
  }

  function LowPart(x: nat, n: nat): nat
    requires n > 0
  {
    x % Pow2(n - 1)
  }

  lemma PartsOfHalf(x: nat, n: nat)
    requires n > 1
    ensures TopPart(x, n) == TopPart(x / 2, n - 1)
    ensures LowPart(x, n) == x % 2 + 2 * LowPart(x / 2, n - 1)
  {
    HalveBeforeSplit(x, Pow2(n - 2));
  }

  lemma TopOfOne(x: nat)
    requires x < Pow2(1)
    ensures TopPart(x, 1) == x && LowPart(x, 1) == 0 && Reverse(x, 1) == x && Reverse(0, 0) == 0
  {
    assert Pow2(0) == 1;
  }

  /** Peeling the most significant bit instead of the least gives the same reversal. */
  lemma {:induction false} ReverseFromTop(x: nat, n: nat)
    requires n > 0 && x < Pow2(n)
    ensures Reverse(x, n) == 2 * Reverse(LowPart(x, n), n - 1) + TopPart(x, n)
    decreases n
  {
    hide Reverse, TopPart, LowPart;
    if n == 1 {
      TopOfOne(x);
    } else {
      var y := x / 2;
      ReverseFromTop(y, n - 1);
      PartsOfHalf(x, n);
      ReverseTopStep(x % 2, y, TopPart(y, n - 1), LowPart(y, n - 1), n);
      assert x == x % 2 + 2 * y;
    }
  }

  lemma {:induction false} ReverseTwice(x: nat, n: nat)
    requires x < Pow2(n)
    ensures Reverse(Reverse(x, n), n) == x
    decreases n
  {
    if n > 0 {
      var low := Reverse(x / 2, n - 1);
      ReverseTwice(x / 2, n - 1);
      SplitAt(low, x % 2, Pow2(n - 1));
      ReverseFromTop(Reverse(x, n), n);
    }
  }
}
