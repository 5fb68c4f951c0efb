/** XOR distance between Kad identifiers, and the bucket an identifier belongs to. */
module Distances {
  import opened Wrappers
  import opened Bits
  import opened Xors
  import opened LittleEndian
  import opened WireReader

  function XorBytes(a: seq<Byte>, b: seq<Byte>): (r: seq<Byte>)
    requires |a| == |b|
    ensures |r| == |a| && forall k :: 0 <= k < |a| ==> r[k] == XorByte(a[k], b[k])
  {
    seq(|a|, k requires 0 <= k < |a| => XorByte(a[k], b[k]))
  }

  /** The number that bytes spell, most significant first; byte arrays compare like it. */
  function FromBe(s: seq<Byte>): nat {
    if s == [] then 0 else s[0] * Pow256(|s| - 1) + FromBe(s[1..])
  }

  lemma {:induction false} FromBeBound(s: seq<Byte>)
    ensures FromBe(s) < Pow256(|s|)
  {
    if s != [] {
      FromBeBound(s[1..]);
      DigitBounds(0, s[0], 256, Pow256(|s| - 1), FromBe(s[1..]));
    }
  }

  lemma MulMonotone(a: nat, b: nat, unit: nat)
    requires a <= b
    ensures a * unit <= b * unit
  {
    assert (b - a) * unit >= 0;
    Distribute(unit, a, b - a);
  }

  lemma DigitBounds(low: nat, b: nat, high: nat, unit: nat, r: nat)
    requires low <= b < high && r < unit
    ensures low * unit <= b * unit + r < high * unit
  {
    MulMonotone(low, b, unit);
    MulMonotone(b + 1, high, unit);
    Distribute(unit, b, 1);
  }

  lemma {:induction false} FromBeInjective(s: seq<Byte>, t: seq<Byte>)
    requires |s| == |t| && FromBe(s) == FromBe(t)
    ensures s == t
  {
    if s != [] {
      FromBeBound(s[1..]);
      FromBeBound(t[1..]);
      TopDigit(s[0], FromBe(s[1..]), t[0], FromBe(t[1..]), Pow256(|s| - 1));
      FromBeInjective(s[1..], t[1..]);
      assert s == [s[0]] + s[1..] && t == [t[0]] + t[1..];
    }
  }

  lemma TopDigit(a: nat, r: nat, b: nat, q: nat, unit: nat)
    requires r < unit && q < unit && a * unit + r == b * unit + q
    ensures a == b && r == q
  {
    DigitBounds(a, a, a + 1, unit, r);
    DigitBounds(b, b, b + 1, unit, q);
    if a < b {
      MulMonotone(a + 1, b, unit);
    } else if b < a {
      MulMonotone(b + 1, a, unit);
    }
  }

  /** `xor_distance`, as the number its bytes are compared by. */
  function Distance(a: KadId, b: KadId): nat {
    FromBe(XorBytes(a, b))
  }

  /** No two identifiers are equally far from a third. */
  lemma DistanceInjective(a: KadId, b: KadId, t: KadId)
    requires Distance(a, t) == Distance(b, t)
    ensures a == b
  {
    hide FromBe, XorByte;
    FromBeInjective(XorBytes(a, t), XorBytes(b, t));
    forall k | 0 <= k < 16
      ensures a[k] == b[k]
    {
      assert XorBytes(a, t)[k] == XorBytes(b, t)[k];
      XorByteTwice(a[k], t[k]);
      XorByteTwice(b[k], t[k]);
    }
  }

  /** `u8::leading_zeros`. */
  function Zeros8(b: Byte): (z: nat)
    ensures b == 0 ==> z == 8
    ensures b != 0 ==> z < 8 && Pow2(7 - z) <= b < Pow2(8 - z)
  {
    Pow2Values();
    assert Pow2(1) == 2 && Pow2(2) == 4 && Pow2(3) == 8 && Pow2(5) == 2 * Pow2(4) && Pow2(6) == 2 * Pow2(5);
    if b >= 128 then 0 else if b >= 64 then 1 else if b >= 32 then 2 else if b >= 16 then 3
    else if b >= 8 then 4 else if b >= 4 then 5 else if b >= 2 then 6 else if b >= 1 then 7 else 8
  }

  function Zeros(s: seq<Byte>): (z: nat)
    ensures z <= 8 * |s|
  {
    if s == [] then 0
    else if s[0] == 0 then 8 + Zeros(s[1..])
    else Zeros8(s[0])
  }

  /** `leading_zeros_128`. */
  method LeadingZeros(s: seq<Byte>) returns (count: nat)
    ensures count == Zeros(s)
  {
    count := 0;
    for k := 0 to |s|
      invariant count + Zeros(s[k..]) == Zeros(s)
    {
      assert s[k..][0] == s[k] && s[k..][1..] == s[k + 1..];
      if s[k] == 0 {
        count := count + 8;
      } else {
        return count + Zeros8(s[k]);
      }
    }
    assert s[|s|..] == [];
  }

  /** The number of leading zeros says how large the number is. */
  lemma {:induction false} ZerosBound(s: seq<Byte>)
    ensures FromBe(s) < Pow2(8 * |s| - Zeros(s))
    ensures Zeros(s) < 8 * |s| ==> Pow2(8 * |s| - Zeros(s) - 1) <= FromBe(s)
    ensures Zeros(s) == 8 * |s| ==> FromBe(s) == 0
  {
    hide Zeros8;
    if s != [] {
      var n := |s| - 1;
      if s[0] == 0 {
        ZerosBound(s[1..]);
        assert 0 * Pow256(n) == 0;
      } else {
        FromBeBound(s[1..]);
        Pow256IsPow2(n);
        ScaledBound(s[0], Zeros8(s[0]), n, FromBe(s[1..]));
      }
    }
  }

  lemma {:induction false} Pow256IsPow2(n: nat)
    ensures Pow256(n) == Pow2(8 * n)
  {
    if n > 0 {
      Pow256IsPow2(n - 1);
      Pow2Add(8, 8 * (n - 1));
      Pow2Values();
    }
  }

  lemma ScaledBound(b: nat, z: nat, n: nat, r: nat)
    requires z < 8 && Pow2(7 - z) <= b < Pow2(8 - z) && r < Pow2(8 * n)
    ensures Pow2(8 * (n + 1) - z - 1) <= b * Pow2(8 * n) + r < Pow2(8 * (n + 1) - z)
  {
    Pow2Add(7 - z, 8 * n);
    Pow2Add(8 - z, 8 * n);
    assert 7 - z + 8 * n == 8 * (n + 1) - z - 1 && 8 - z + 8 * n == 8 * (n + 1) - z;
    DigitBounds(Pow2(7 - z), b, Pow2(8 - z), Pow2(8 * n), r);
  }

  const ZERO_ID: KadId := [0, 0, 0, 0, 0, 0, 0, 0, 0, 0, 0, 0, 0, 0, 0, 0]

  /** `bucket_index`. */
  function Bucket(me: KadId, other: KadId): Option<nat> {
    if other == me || other == ZERO_ID then None
    else if Zeros(XorBytes(me, other)) >= 128 then None
    else Some(Zeros(XorBytes(me, other)))
  }

  /** A higher bucket is strictly closer to us. */
  lemma HigherBucketIsCloser(me: KadId, a: KadId, b: KadId)
    requires Bucket(me, a).Some? && Bucket(me, b).Some? && Bucket(me, a).value > Bucket(me, b).value
    ensures Distance(me, a) < Distance(me, b)
  {
    hide Zeros, FromBe, XorByte;
    var s, t := XorBytes(me, a), XorBytes(me, b);
    ZerosBound(s);
    ZerosBound(t);
    Pow2Monotone(128 - Zeros(s), 128 - Zeros(t) - 1);
  }

  /** The k-th bit from the front of a byte. */
  function BitOfByte(b: nat, k: nat): nat
    requires k < 8
  {
    b / Pow2(7 - k) % 2
  }

  /** Bits of an exclusive or: set exactly where the two differ. */
  lemma {:induction false} XorBit(a: nat, b: nat, n: nat, k: nat)
    requires k < n
    ensures Xor(a, b, n) / Pow2(k) % 2 == if a / Pow2(k) % 2 == b / Pow2(k) % 2 then 0 else 1
    decreases n
  {
    XorParts(a, b, n);
    if k > 0 {
      XorBit(a / 2, b / 2, n - 1, k - 1);
      HalveFirst(Xor(a, b, n), k);
      HalveFirst(a, k);
      HalveFirst(b, k);
    }
  }

  lemma HalveFirst(x: nat, k: nat)
    requires k > 0
    ensures x / Pow2(k) == x / 2 / Pow2(k - 1)
  {
    HalveBeforeSplit(x, Pow2(k - 1));
  }

  /** The k-th bit of an identifier, from the front. */
  function BitOf(s: seq<Byte>, k: nat): nat
    requires k < 8 * |s|
  {
    BitOfByte(s[k / 8], k % 8)
  }

  lemma SmallQuotient(x: nat, unit: nat)
    ensures x < unit ==> x / unit == 0
    ensures unit > 0 && unit <= x < 2 * unit ==> x / unit == 1
  {
    if unit > 0 && unit <= x < 2 * unit {
      SplitAt(x - unit, 1, unit);
    }
  }

  lemma LeadingBitZero(x: nat, z: nat, k: nat)
    requires k < z <= 8 && k < 8 && x < Pow2(8 - z)
    ensures x / Pow2(7 - k) % 2 == 0
  {
    hide Pow2;
    Pow2Monotone(8 - z, 7 - k);
    SmallQuotient(x, Pow2(7 - k));
  }

  lemma LeadingBitOne(x: nat, z: nat)
    requires z < 8 && Pow2(7 - z) <= x < Pow2(8 - z)
    ensures x / Pow2(7 - z) % 2 == 1
  {
    SmallQuotient(x, Pow2(7 - z));
  }

  lemma Zeros8Bounds(x: Byte)
    ensures Zeros8(x) <= 8 && x < Pow2(8 - Zeros8(x))
    ensures Zeros8(x) < 8 ==> Pow2(7 - Zeros8(x)) <= x
  {
  }

  /** Two bytes agree on as many leading bits as their exclusive or has leading zeros. */
  lemma BytesShare(a: Byte, b: Byte, k: nat)
    requires k < 8 && k <= Zeros8(XorByte(a, b))
    ensures BitOfByte(a, k) == BitOfByte(b, k) <==> k < Zeros8(XorByte(a, b))
  {
    hide Zeros8, Xor, Pow2;
    var x, z := XorByte(a, b), Zeros8(XorByte(a, b));
    Zeros8Bounds(x);
    XorBit(a, b, 8, 7 - k);
    if k < z {
      LeadingBitZero(x, z, k);
    } else {
      LeadingBitOne(x, z);
    }
  }

  lemma {:induction false} ZerosAreShared(s: seq<Byte>, t: seq<Byte>, k: nat)
    requires |s| == |t| && k < 8 * |s| && k <= Zeros(XorBytes(s, t))
    ensures BitOf(s, k) == BitOf(t, k) <==> k < Zeros(XorBytes(s, t))
  {
    hide Zeros8, XorByte, BitOfByte;
    var x := XorBytes(s, t);
    assert x[1..] == XorBytes(s[1..], t[1..]);
    if k < 8 {
      BytesShare(s[0], t[0], k);
      if x[0] == 0 {
        assert Zeros8(x[0]) == 8;
      }
    } else {
      assert x[0] == 0;
      ZerosAreShared(s[1..], t[1..], k - 8);
      assert k / 8 == (k - 8) / 8 + 1 && k % 8 == (k - 8) % 8;
    }
  }

  /** The bucket index is the length of the common prefix: all bits before it agree, the bit
      at it differs. */
  lemma BucketIsSharedPrefix(me: KadId, other: KadId)
    requires Bucket(me, other).Some?
    ensures
        var p := Bucket(me, other).value;
        p < 128 && BitOf(me, p) != BitOf(other, p) && forall k: nat :: k < p ==> BitOf(me, k) == BitOf(other, k)
  {
    hide Zeros, BitOf;
    var p := Bucket(me, other).value;
    ZerosAreShared(me, other, p);
    forall k: nat | k < p
      ensures BitOf(me, k) == BitOf(other, k)
    {
      ZerosAreShared(me, other, k);
    }
  }

  /** Every identifier but our own and zero has a bucket. */
  lemma BucketExists(me: KadId, other: KadId)
    requires other != me && other != ZERO_ID
    ensures Bucket(me, other).Some?
  {
    hide Zeros, FromBe, XorByte;
    ZerosBound(XorBytes(me, other));
    if Zeros(XorBytes(me, other)) == 128 {
      SelfDistance(other);
      DistanceInjective(me, other, other);
    }
  }

  lemma SelfDistance(a: KadId)
    ensures Distance(a, a) == 0
  {
    forall k | 0 <= k < 16
      ensures XorByte(a[k], a[k]) == 0
    {
      XorSelf(a[k], 8);
    }
    AllZero(XorBytes(a, a));
  }

  lemma {:induction false} AllZero(s: seq<Byte>)
    requires forall k :: 0 <= k < |s| ==> s[k] == 0
    ensures FromBe(s) == 0
  {
    if s != [] {
      AllZero(s[1..]);
    }
  }

  /** Which of two identifiers is closer to a third: the one that agrees with it at the first bit
      where the two differ. */
  lemma CloserExactlyWhen(a: KadId, b: KadId, t: KadId, k: nat)
    requires k < 128 && BitOf(a, k) != BitOf(b, k) && forall j: nat :: j < k ==> BitOf(a, j) == BitOf(b, j)
    ensures Distance(a, t) < Distance(b, t) <==> BitOf(a, k) == BitOf(t, k)
    ensures BitOf(a, k) == BitOf(t, k) || BitOf(b, k) == BitOf(t, k)
  {
    hide Zeros, Zeros8, FromBe, XorByte, BitOfByte;
    var m, q := k / 8, k % 8;
    FirstDifference(a, b, k);
    var x, y := XorBytes(a, t), XorBytes(b, t);
    forall i | 0 <= i < m
      ensures a[i] == b[i]
    {
      assert XorBytes(a, b)[i] == 0;
      XorByteSame(a[i], b[i]);
    }
    forall j | 0 <= j <= q
      ensures BitOfByte(x[m], j) == (if BitOfByte(a[m], j) == BitOfByte(t[m], j) then 0 else 1)
      ensures BitOfByte(y[m], j) == (if BitOfByte(b[m], j) == BitOfByte(t[m], j) then 0 else 1)
      ensures j < q ==> BitOfByte(a[m], j) == BitOfByte(b[m], j)
    {
      XorByteBit(a[m], t[m], j);
      XorByteBit(b[m], t[m], j);
      assert (8 * m + j) / 8 == m && (8 * m + j) % 8 == j;
      assert j < q ==> BitOf(a, 8 * m + j) == BitOf(b, 8 * m + j);
    }
    Bits01(a[m], q);
    Bits01(b[m], q);
    Bits01(t[m], q);
    BytesCompare(x[m], y[m], q);
    if x[m] < y[m] {
      Lexicographic(x, y, m);
    } else {
      Lexicographic(y, x, m);
    }
  }

  lemma Bits01(b: Byte, k: nat)
    requires k < 8
    ensures BitOfByte(b, k) == 0 || BitOfByte(b, k) == 1
  {
  }

  lemma XorByteBit(a: Byte, b: Byte, k: nat)
    requires k < 8
    ensures BitOfByte(XorByte(a, b), k) == if BitOfByte(a, k) == BitOfByte(b, k) then 0 else 1
  {
    hide Pow2, Xor;
    XorBit(a, b, 8, 7 - k);
  }

  /** The first bit where two identifiers differ is where their exclusive or starts. */
  lemma FirstDifference(a: KadId, b: KadId, k: nat)
    requires k < 128 && BitOf(a, k) != BitOf(b, k) && forall j: nat :: j < k ==> BitOf(a, j) == BitOf(b, j)
    ensures forall i :: 0 <= i < k / 8 ==> XorBytes(a, b)[i] == 0
  {
    hide BitOf, XorByte;
    var z := Zeros(XorBytes(a, b));
    if z < k {
      ZerosAreShared(a, b, z);
    } else {
      LeadingBytes(XorBytes(a, b), k / 8);
    }
  }

  lemma {:induction false} LeadingBytes(s: seq<Byte>, m: nat)
    requires m <= |s| && 8 * m <= Zeros(s)
    ensures forall i :: 0 <= i < m ==> s[i] == 0
  {
    if m > 0 {
      assert s[0] == 0;
      LeadingBytes(s[1..], m - 1);
      assert forall i :: 1 <= i < m ==> s[i] == s[1..][i - 1];
    }
  }

  /** Bytes compare by the first bit where they differ. */
  lemma BytesCompare(u: Byte, v: Byte, k: nat)
    requires k < 8 && BitOfByte(u, k) != BitOfByte(v, k) && forall j :: 0 <= j < k ==> BitOfByte(u, j) == BitOfByte(v, j)
    ensures u < v <==> BitOfByte(u, k) == 0
    ensures u != v
  {
    hide Pow2;
    SamePrefix(u, v, k);
    var unit := Pow2(7 - k);
    assert Pow2(8 - k) == 2 * unit by { PowerIsDouble(7 - k); }
    HalveQuotient(u, unit);
    HalveQuotient(v, unit);
    if BitOfByte(u, k) == 0 {
      QuotientsCompare(u, v, unit);
    } else {
      QuotientsCompare(v, u, unit);
    }
  }

  lemma PowerIsDouble(n: nat)
    ensures Pow2(n + 1) == 2 * Pow2(n)
  {
  }

  lemma QuotientsCompare(u: nat, v: nat, unit: nat)
    requires unit > 0 && u / unit / 2 == v / unit / 2 && u / unit % 2 == 0 && v / unit % 2 == 1
    ensures u < v
  {
    var p, q := u / unit, v / unit;
    assert q == p + 1;
    DivMod(u, unit);
    DivMod(v, unit);
    Distribute(unit, p, 1);
  }

  lemma {:induction false} SamePrefix(u: Byte, v: Byte, k: nat)
    requires k <= 8 && forall j :: 0 <= j < k ==> BitOfByte(u, j) == BitOfByte(v, j)
    ensures u / Pow2(8 - k) == v / Pow2(8 - k)
  {
    if k == 0 {
      Pow2Values();
    } else {
      hide Pow2;
      SamePrefix(u, v, k - 1);
      var unit := Pow2(8 - k);
      PowerIsDouble(8 - k);
      HalveQuotient(u, unit);
      HalveQuotient(v, unit);
      assert BitOfByte(u, k - 1) == BitOfByte(v, k - 1);
    }
  }

  lemma {:induction false} Lexicographic(s: seq<Byte>, t: seq<Byte>, m: nat)
    requires |s| == |t| && m < |s| && s[m] < t[m] && forall i :: 0 <= i < m ==> s[i] == t[i]
    ensures FromBe(s) < FromBe(t)
  {
    if m > 0 {
      Lexicographic(s[1..], t[1..], m - 1);
    } else {
      FromBeBound(s[1..]);
      FromBeBound(t[1..]);
      DigitBounds(s[0], s[0], t[0], Pow256(|s| - 1), FromBe(s[1..]));
      MulMonotone(t[0], t[0], Pow256(|s| - 1));
    }
  }
}
