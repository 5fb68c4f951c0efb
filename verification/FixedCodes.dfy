/** The fixed trees of RFC 1951 section 3.2.6 and the tables of section 3.2.5 as numbers. */
module FixedCodes {
  import opened Bits
  import opened CanonicalCodes
  import opened Deflate
  import opened Inflate

  /** The next n bits, most significant first, are this number. */
  ghost predicate Spells(bits: seq<Bit>, p: nat, n: nat, code: nat) {
    p + n <= |bits| && Msb(bits, p, n) == code
  }

  /** A symbol is read exactly when the bits spell its code. */
  lemma ReadExactlyWhen(lens: seq<nat>, bits: seq<Bit>, p: nat, s: nat)
    requires NotOversubscribed(lens) && LengthsFit(lens) && s < |lens| && lens[s] > 0
    ensures Symbol(lens, bits, p) == Ok(s, p + lens[s]) <==> Spells(bits, p, lens[s], Code(lens, s))
  {
    hide Code, Kraft, Msb;
    assert Matches(lens, bits, p, s) <==> Spells(bits, p, lens[s], Code(lens, s));
    assert Symbol(lens, bits, p).Ok? ==> Matches(lens, bits, p, Symbol(lens, bits, p).value);
    if Matches(lens, bits, p, s) {
      PrefixFree(lens, bits, p, s, Symbol(lens, bits, p).value);
    }
  }

  /** How many of the first n symbols have a code of this length. */
  lemma FixedCounts(n: nat, len: nat)
    requires n <= 288
    ensures n <= 144 ==> Count(FixedLitLens()[..n], len) == if len == 8 then n else 0
    ensures 144 <= n <= 256 ==> Count(FixedLitLens()[..n], len) == if len == 8 then 144 else if len == 9 then n - 144 else 0
    ensures 256 <= n <= 280 ==>
      Count(FixedLitLens()[..n], len) == if len == 8 then 144 else if len == 9 then 112 else if len == 7 then n - 256 else 0
    ensures 280 <= n ==>
      Count(FixedLitLens()[..n], len) == if len == 8 then n - 136 else if len == 9 then 112 else if len == 7 then 24 else 0
  {
    hide Count;
    var lens := FixedLitLens();
    var a, b, c := Repeat(8, 144), Repeat(9, 112), Repeat(7, 24);
    NoCounts(len);
    CountRepeat([], 8, 144, len);
    CountRepeat([] + a, 9, 112, len);
    CountRepeat([] + a + b, 7, 24, len);
    if n <= 144 {
      CountRepeat([], 8, n, len);
      assert lens[..n] == [] + Repeat(8, n);
    } else if n <= 256 {
      CountRepeat([] + a, 9, n - 144, len);
      assert lens[..n] == [] + a + Repeat(9, n - 144);
    } else if n <= 280 {
      CountRepeat([] + a + b, 7, n - 256, len);
      assert lens[..n] == [] + a + b + Repeat(7, n - 256);
    } else {
      CountRepeat([] + a + b + c, 8, n - 280, len);
      assert lens[..n] == [] + a + b + c + Repeat(8, n - 280);
    }
    if n == 144 || n == 256 || n == 280 {
      assert lens[..144] == [] + a && lens[..256] == [] + a + b && lens[..280] == [] + a + b + c;
    }
  }

  lemma NoCounts(len: nat)
    ensures Count([], len) == 0
  {
  }

  lemma FixedFirstCodes()
    ensures FirstCode(FixedLitLens(), 7) == 0 && FirstCode(FixedLitLens(), 8) == 0x30 && FirstCode(FixedLitLens(), 9) == 0x190
  {
    var lens := FixedLitLens();
    assert lens[..288] == lens;
    hide FixedLitLens, Count;
    forall len: nat
      ensures Count(lens, len) == if len == 8 then 152 else if len == 9 then 112 else if len == 7 then 24 else 0
    {
      FixedCounts(288, len);
    }
    assert FirstCode(lens, 4) == 0;
    assert FirstCode(lens, 7) == 0;
    assert FirstCode(lens, 8) == 0x30;
  }

  lemma FixedCode(s: nat)
    requires s < 288
    ensures
        var lens := FixedLitLens();
        && (s < 144 ==> lens[s] == 8 && Code(lens, s) == 0x30 + s)
        && (144 <= s < 256 ==> lens[s] == 9 && Code(lens, s) == 0x190 + (s - 144))
        && (256 <= s < 280 ==> lens[s] == 7 && Code(lens, s) == s - 256)
        && (280 <= s ==> lens[s] == 8 && Code(lens, s) == 0xC0 + (s - 280))
  {
    FixedFirstCodes();
    FixedCounts(s, FixedLitLens()[s]);
    hide Count, FirstCode;
  }

  /** Which bits are which symbol of the fixed literal and length code. */
  lemma FixedSymbol(bits: seq<Bit>, p: nat, s: nat)
    requires s < 288
    ensures
        var lens := FixedLitLens();
        && (s < 144 ==> (Symbol(lens, bits, p) == Ok(s, p + 8) <==> Spells(bits, p, 8, 0x30 + s)))
        && (144 <= s < 256 ==> (Symbol(lens, bits, p) == Ok(s, p + 9) <==> Spells(bits, p, 9, 0x190 + (s - 144))))
        && (256 <= s < 280 ==> (Symbol(lens, bits, p) == Ok(s, p + 7) <==> Spells(bits, p, 7, s - 256)))
        && (280 <= s ==> (Symbol(lens, bits, p) == Ok(s, p + 8) <==> Spells(bits, p, 8, 0xC0 + (s - 280))))
  {
    hide FixedLitLens, Code, Symbol, Spells, Kraft;
    FixedTreesComplete();
    FixedCode(s);
    ReadExactlyWhen(FixedLitLens(), bits, p, s);
  }

  lemma FixedDistanceCode(s: nat)
    requires s < 32
    ensures Code(FixedDistLens(), s) == s
  {
    hide Count;
    var lens := FixedDistLens();
    assert lens[..s] == [] + Repeat(5, s) && lens == [] + Repeat(5, 32);
    NoCounts(5);
    CountRepeat([], 5, s, 5);
    hide FixedDistLens;
    forall len: nat
      ensures Count(lens, len) == if len == 5 then 32 else 0
    {
      NoCounts(len);
      CountRepeat([], 5, 32, len);
    }
    assert FirstCode(lens, 3) == 0;
    assert FirstCode(lens, 5) == 0;
  }

  /** Which bits are which symbol of the fixed distance code. */
  lemma FixedDistance(bits: seq<Bit>, p: nat, s: nat)
    requires s < 32
    ensures Symbol(FixedDistLens(), bits, p) == Ok(s, p + 5) <==> Spells(bits, p, 5, s)
  {
    hide Code, Symbol, Spells, Kraft;
    FixedTreesComplete();
    FixedDistanceCode(s);
    ReadExactlyWhen(FixedDistLens(), bits, p, s);
  }

  /** Every length from 3 to 258: its symbol, the number of extra bits, and their value. */
  lemma LengthNamed(length: nat)
    requires 3 <= length <= 258
    ensures length <= 10 ==> LengthCode(254 + length) == (length, 0)
    ensures 11 <= length <= 18 ==> LengthCode(265 + (length - 11) / 2) == (length - (length - 11) % 2, 1)
    ensures 19 <= length <= 34 ==> LengthCode(269 + (length - 19) / 4) == (length - (length - 19) % 4, 2)
    ensures 35 <= length <= 66 ==> LengthCode(273 + (length - 35) / 8) == (length - (length - 35) % 8, 3)
    ensures 67 <= length <= 130 ==> LengthCode(277 + (length - 67) / 16) == (length - (length - 67) % 16, 4)
    ensures 131 <= length <= 257 ==> LengthCode(281 + (length - 131) / 32) == (length - (length - 131) % 32, 5)
    ensures length == 258 ==> LengthCode(285) == (258, 0)
  {
    hide LengthCode;
    if length <= 34 {
      ShortLength(length);
    } else {
      LongLength(length);
    }
  }

  lemma ShortLength(length: nat)
    requires 3 <= length <= 34
    ensures length <= 10 ==> LengthCode(254 + length) == (length, 0)
    ensures 11 <= length <= 18 ==> LengthCode(265 + (length - 11) / 2) == (length - (length - 11) % 2, 1)
    ensures 19 <= length ==> LengthCode(269 + (length - 19) / 4) == (length - (length - 19) % 4, 2)
  {
  }

  lemma LongLength(length: nat)
    requires 35 <= length <= 258
    ensures length <= 66 ==> LengthCode(273 + (length - 35) / 8) == (length - (length - 35) % 8, 3)
    ensures 67 <= length <= 130 ==> LengthCode(277 + (length - 67) / 16) == (length - (length - 67) % 16, 4)
    ensures 131 <= length <= 257 ==> LengthCode(281 + (length - 131) / 32) == (length - (length - 131) % 32, 5)
    ensures length == 258 ==> LengthCode(285) == (258, 0)
  {
  }

  /** Every distance from 1 to 32768: behind the first four, two symbols for every number of
      extra bits, each for half of the distances up to the next power of two. */
  lemma DistanceNamed(distance: nat)
    requires 1 <= distance <= 32768
    ensures distance <= 4 ==> DistanceCode(distance - 1) == (distance, 0)
    ensures distance > 4 ==> exists k: nat ::
      && 1 <= k <= 13 && 2 * Pow2(k) < distance <= 4 * Pow2(k)
      && (distance <= 3 * Pow2(k) ==> DistanceCode(2 * k + 2) == (2 * Pow2(k) + 1, k))
      && (distance > 3 * Pow2(k) ==> DistanceCode(2 * k + 3) == (3 * Pow2(k) + 1, k))
  {
    hide Pow2, DistanceCode;
    if distance <= 4 {
      SmallDistance(distance);
    } else {
      assert Pow2(13) == 8192 by { SmallPowers(13); }
      var k := Octave(distance, 13);
      DistanceBases(k);
    }
  }

  lemma SmallDistance(distance: nat)
    requires 1 <= distance <= 4
    ensures DistanceCode(distance - 1) == (distance, 0)
  {
  }

  lemma {:induction false} Octave(distance: nat, top: nat) returns (k: nat)
    requires 4 < distance <= 4 * Pow2(top) && 1 <= top
    ensures 1 <= k <= top && 2 * Pow2(k) < distance <= 4 * Pow2(k)
  {
    if 2 * Pow2(top) < distance {
      k := top;
    } else {
      assert top > 1;
      k := Octave(distance, top - 1);
    }
  }

  lemma DistanceBases(k: nat)
    requires 1 <= k <= 13
    ensures DistanceCode(2 * k + 2) == (2 * Pow2(k) + 1, k) && DistanceCode(2 * k + 3) == (3 * Pow2(k) + 1, k)
  {
    hide Pow2, DistanceCode;
    if k <= 6 {
      LowBases(k);
      LowPowers(k);
    } else {
      HighBases(k);
      HighPowers(k);
    }
  }

  lemma LowBases(k: nat)
    requires 1 <= k <= 6
    ensures DistanceCode(2 * k + 2) == ([5, 9, 17, 33, 65, 129][k - 1], k)
    ensures DistanceCode(2 * k + 3) == ([7, 13, 25, 49, 97, 193][k - 1], k)
  {
  }

  lemma LowPowers(k: nat)
    requires 1 <= k <= 6
    ensures [5, 9, 17, 33, 65, 129][k - 1] == 2 * Pow2(k) + 1
    ensures [7, 13, 25, 49, 97, 193][k - 1] == 3 * Pow2(k) + 1
  {
    SmallPowers(k);
    hide Pow2;
  }

  lemma HighBases(k: nat)
    requires 7 <= k <= 13
    ensures DistanceCode(2 * k + 2) == ([257, 513, 1025, 2049, 4097, 8193, 16385][k - 7], k)
    ensures DistanceCode(2 * k + 3) == ([385, 769, 1537, 3073, 6145, 12289, 24577][k - 7], k)
  {
  }

  lemma HighPowers(k: nat)
    requires 7 <= k <= 13
    ensures [257, 513, 1025, 2049, 4097, 8193, 16385][k - 7] == 2 * Pow2(k) + 1
    ensures [385, 769, 1537, 3073, 6145, 12289, 24577][k - 7] == 3 * Pow2(k) + 1
  {
    SmallPowers(k);
    hide Pow2;
  }

  lemma SmallPowers(k: nat)
    requires 1 <= k <= 13
    ensures Pow2(k) == [2, 4, 8, 16, 32, 64, 128, 256, 512, 1024, 2048, 4096, 8192][k - 1]
  {
    assert Pow2(3) == 8 && Pow2(6) == 64 && Pow2(9) == 512 && Pow2(12) == 4096;
  }

  /** Where a declaration has the length of which code-length code: three bits each, and the
      codes it leaves out are unused. */
  lemma {:induction false} CodeLengthPlaces(bits: seq<Bit>, p: nat, n: nat, sym: nat)
    requires n <= 19 && sym < 19 && p + 3 * n <= |bits|
    ensures
        var place := [3, 17, 15, 13, 11, 9, 7, 5, 4, 6, 8, 10, 12, 14, 16, 18, 0, 1, 2][sym];
        CodeLengthCode(bits, p, n)[sym] == if place < n then Lsb(bits, p + 3 * place, 3) else 0
  {
    hide Lsb, Pow2;
    if n > 0 {
      CodeLengthPlaces(bits, p, n - 1, sym);
      OrderPlace(sym, n - 1);
    }
  }

  lemma OrderPlace(sym: nat, k: nat)
    requires sym < 19 && k < 19
    ensures ORDER[k] == sym <==> k == [3, 17, 15, 13, 11, 9, 7, 5, 4, 6, 8, 10, 12, 14, 16, 18, 0, 1, 2][sym]
  {
  }

  /** What a reference copies: every byte is the one `distance` before it, also where the copy
      overlaps what it produces. */
  lemma {:induction false} CopyRepeats(out: seq<Byte>, distance: nat, length: nat, i: nat)
    requires 1 <= distance <= |out| && |out| <= i < |out| + length
    ensures Copy(out, distance, length)[i] == Copy(out, distance, length)[i - distance]
    decreases length
  {
    var more := out + [out[|out| - distance]];
    var whole := Copy(more, distance, length - 1);
    assert more <= whole;
    if i == |out| {
      assert whole[i] == more[i] && whole[i - distance] == more[i - distance];
    } else {
      CopyRepeats(more, distance, length - 1, i);
    }
  }
}
