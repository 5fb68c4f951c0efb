/** Exclusive or on n-bit numbers. */
module Xors {
  import opened Bits

  function Xor(a: nat, b: nat, n: nat): (r: nat)
    ensures r < Pow2(n)
    decreases n
  {
    if n == 0 then 0
    else (if a % 2 == b % 2 then 0 else 1) + 2 * Xor(a / 2, b / 2, n - 1)
  }

  lemma {:induction false} XorTwice(a: nat, b: nat, n: nat)
    requires a < Pow2(n)
    ensures Xor(Xor(a, b, n), b, n) == a
    decreases n
  {
    if n > 0 {
      XorTwice(a / 2, b / 2, n - 1);
      XorParts(a, b, n);
      XorParts(Xor(a, b, n), b, n);
    }
  }

  /** The last bit and the others. */
  lemma XorParts(a: nat, b: nat, n: nat)
    requires n > 0
    ensures Xor(a, b, n) % 2 == if a % 2 == b % 2 then 0 else 1
    ensures Xor(a, b, n) / 2 == Xor(a / 2, b / 2, n - 1)
    ensures Xor(a, b, n) == Xor(a, b, n) % 2 + 2 * Xor(a / 2, b / 2, n - 1)
  {
  }

  /** A number combined with itself, and with nothing. */
  lemma {:induction false} XorSelf(a: nat, n: nat)
    ensures Xor(a, a, n) == 0
  {
    if n > 0 {
      XorSelf(a / 2, n - 1);
    }
  }

  lemma {:induction false} XorNothing(a: nat, n: nat)
    requires a < Pow2(n)
    ensures Xor(a, 0, n) == a && Xor(0, a, n) == a
    decreases n
  {
    if n > 0 {
      XorNothing(a / 2, n - 1);
    }
  }

  /** What is combined with the same number is determined by the result. */
  lemma {:induction false} XorCancels(a: nat, b: nat, c: nat, n: nat)
    requires b < Pow2(n) && c < Pow2(n) && Xor(a, b, n) == Xor(a, c, n)
    ensures b == c
    decreases n
  {
    if n > 0 {
      XorParts(a, b, n);
      XorParts(a, c, n);
      XorCancels(a / 2, b / 2, c / 2, n - 1);
    }
  }

  function XorByte(a: Byte, b: Byte): Byte {
    Pow2Values();
    Xor(a, b, 8)
  }

  lemma XorByteCancels(a: Byte, b: Byte, c: Byte)
    requires XorByte(a, b) == XorByte(a, c)
    ensures b == c
  {
    Pow2Values();
    XorCancels(a, b, c, 8);
  }

  lemma XorByteZero(b: Byte)
    ensures XorByte(0, b) == b
  {
    Pow2Values();
    XorNothing(b, 8);
  }

  lemma XorByteSame(a: Byte, b: Byte)
    ensures XorByte(a, b) == 0 <==> a == b
  {
    XorByteTwice(a, b);
    XorByteZero(b);
    XorByteTwice(0, b);
  }

  lemma XorByteTwice(a: Byte, b: Byte)
    ensures XorByte(XorByte(a, b), b) == a
  {
    Pow2Values();
    XorTwice(a, b, 8);
  }
}
