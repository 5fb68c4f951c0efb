/** Whole zlib streams, byte by byte, and what they inflate to: one for each kind of block. */
module KnownStreams {
  import opened Bits
  import opened BitReaders
  import opened Deflate
  import opened FixedCodes

  function Digit(bits: seq<Bit>, p: nat): int
    requires p < |bits|
  {
    bits[p]
  }

  /** The bits of one byte. */
  lemma Octet(bytes: seq<Byte>, i: nat, a: nat, b: nat, c: nat, d: nat, e: nat, f: nat, g: nat, h: nat)
    requires i < |bytes| && a < 2 && b < 2 && c < 2 && d < 2 && e < 2 && f < 2 && g < 2 && h < 2
    requires bytes[i] == a + 2 * b + 4 * c + 8 * d + 16 * e + 32 * f + 64 * g + 128 * h
    ensures
        var bits, p := BitList(bytes), 8 * i;
        && Digit(bits, p) == a && Digit(bits, p + 1) == b && Digit(bits, p + 2) == c && Digit(bits, p + 3) == d
        && Digit(bits, p + 4) == e && Digit(bits, p + 5) == f && Digit(bits, p + 6) == g && Digit(bits, p + 7) == h
  {
    var bits, p := BitList(bytes), 8 * i;
    ByteFromBits(bytes, i);
    hide BitList;
    hide Lsb;
    FirstDigit(bits, p, 8, a, b + 2 * c + 4 * d + 8 * e + 16 * f + 32 * g + 64 * h);
    FirstDigit(bits, p + 1, 7, b, c + 2 * d + 4 * e + 8 * f + 16 * g + 32 * h);
    FirstDigit(bits, p + 2, 6, c, d + 2 * e + 4 * f + 8 * g + 16 * h);
    FirstDigit(bits, p + 3, 5, d, e + 2 * f + 4 * g + 8 * h);
    FirstDigit(bits, p + 4, 4, e, f + 2 * g + 4 * h);
    FirstDigit(bits, p + 5, 3, f, g + 2 * h);
    FirstDigit(bits, p + 6, 2, g, h);
    Lsb1(bits, p + 7);
  }

  lemma FirstDigit(bits: seq<Bit>, p: nat, n: nat, digit: nat, rest: nat)
    requires 0 < n && p + n <= |bits| && digit < 2 && Lsb(bits, p, n) == digit + 2 * rest
    ensures Digit(bits, p) == digit && Lsb(bits, p + 1, n - 1) == rest
  {
  }

  lemma Lsb1(bits: seq<Bit>, p: nat)
    requires p + 1 <= |bits|
    ensures Lsb(bits, p, 1) == Digit(bits, p)
  {
  }

  lemma Lsb2(bits: seq<Bit>, p: nat)
    requires p + 2 <= |bits|
    ensures Lsb(bits, p, 2) == Digit(bits, p) + 2 * Digit(bits, p + 1)
  {
    Lsb1(bits, p + 1);
  }

  lemma Lsb3(bits: seq<Bit>, p: nat)
    requires p + 3 <= |bits|
    ensures Lsb(bits, p, 3) == Digit(bits, p) + 2 * Digit(bits, p + 1) + 4 * Digit(bits, p + 2)
  {
    Lsb2(bits, p + 1);
  }

  lemma Lsb4(bits: seq<Bit>, p: nat)
    requires p + 4 <= |bits|
    ensures Lsb(bits, p, 4) == Digit(bits, p) + 2 * Digit(bits, p + 1) + 4 * Digit(bits, p + 2) + 8 * Digit(bits, p + 3)
  {
    Lsb3(bits, p + 1);
  }

  lemma Lsb5(bits: seq<Bit>, p: nat)
    requires p + 5 <= |bits|
    ensures Lsb(bits, p, 5) == Digit(bits, p) + 2 * Digit(bits, p + 1) + 4 * Digit(bits, p + 2) + 8 * Digit(bits, p + 3) + 16 * Digit(bits, p + 4)
  {
    Lsb4(bits, p + 1);
  }

  lemma Lsb7(bits: seq<Bit>, p: nat)
    requires p + 7 <= |bits|
    ensures Lsb(bits, p, 7) == Digit(bits, p) + 2 * Digit(bits, p + 1) + 4 * Digit(bits, p + 2) + 8 * Digit(bits, p + 3)
        + 16 * Digit(bits, p + 4) + 32 * Digit(bits, p + 5) + 64 * Digit(bits, p + 6)
  {
    Lsb5(bits, p + 2);
  }

  lemma Msb1(bits: seq<Bit>, p: nat)
    requires p + 1 <= |bits|
    ensures Msb(bits, p, 1) == Digit(bits, p)
  {
  }

  lemma Msb2(bits: seq<Bit>, p: nat)
    requires p + 2 <= |bits|
    ensures Msb(bits, p, 2) == 2 * Digit(bits, p) + Digit(bits, p + 1)
  {
    Msb1(bits, p + 1);
    SmallPowers(1);
  }

  lemma Msb3(bits: seq<Bit>, p: nat)
    requires p + 3 <= |bits|
    ensures Msb(bits, p, 3) == 4 * Digit(bits, p) + 2 * Digit(bits, p + 1) + Digit(bits, p + 2)
  {
    Msb2(bits, p + 1);
    SmallPowers(2);
  }

  lemma Msb5(bits: seq<Bit>, p: nat)
    requires p + 5 <= |bits|
    ensures Msb(bits, p, 5) == 16 * Digit(bits, p) + 8 * Digit(bits, p + 1) + 4 * Digit(bits, p + 2) + 2 * Digit(bits, p + 3) + Digit(bits, p + 4)
  {
    Msb3(bits, p + 2);
    SmallPowers(3);
    SmallPowers(4);
  }

  lemma Msb7(bits: seq<Bit>, p: nat)
    requires p + 7 <= |bits|
    ensures Msb(bits, p, 7) == 64 * Digit(bits, p) + 32 * Digit(bits, p + 1) + 16 * Digit(bits, p + 2) + 8 * Digit(bits, p
        + 3) + 4 * Digit(bits, p + 4) + 2 * Digit(bits, p + 5) + Digit(bits, p + 6)
  {
    Msb5(bits, p + 2);
    SmallPowers(5);
    SmallPowers(6);
  }

  lemma Msb8(bits: seq<Bit>, p: nat)
    requires p + 8 <= |bits|
    ensures Msb(bits, p, 8) == 128 * Digit(bits, p) + 64 * Digit(bits, p + 1) + 32 * Digit(bits, p + 2) + 16 * Digit(bits, p
        + 3) + 8 * Digit(bits, p + 4) + 4 * Digit(bits, p + 5) + 2 * Digit(bits, p + 6) + Digit(bits, p + 7)
  {
    Msb7(bits, p + 1);
    SmallPowers(7);
  }

  lemma TwoBytes(bytes: seq<Byte>, i: nat)
    requires i + 1 < |bytes|
    ensures Lsb(BitList(bytes), 8 * i, 16) == bytes[i] as int + 256 * (bytes[i + 1] as int)
  {
    hide BitList, Lsb;
    ByteFromBits(bytes, i);
    ByteFromBits(bytes, i + 1);
    LsbSplit(BitList(bytes), 8 * i, 8, 8);
    Pow2Values();
  }

  /** A stream with one final block. */
  lemma OneBlockStream(src: seq<Byte>, kind: nat, out: seq<Byte>, q: nat)
    requires GoodHeader(src)
    requires
        var bits := BitList(src[2..]);
        && Lsb(bits, 0, 1) == 1 && Lsb(bits, 1, 2) == kind && OneBlock(kind, bits, 3, []) == Ok(out, q)
        && ByteBoundary(q) + 32 == |bits| && BigEndian32(bits, ByteBoundary(q)) == AdlerSum(out)
    ensures Zlib(src) == Ok(out, |src| * 8 - 16)
  {
    hide OneBlock, BitList, Lsb, AdlerSum, BigEndian32, ByteBoundary;
    var bits := BitList(src[2..]);
    assert Blocks(bits, 0, []) == Ok(out, q);
    hide Blocks;
  }

  /** The last four bytes. */
  lemma Trailer(bytes: seq<Byte>, i: nat)
    requires i + 4 == |bytes|
    ensures BigEndian32(BitList(bytes), 8 * i)
         == (bytes[i] as int) * 0x100_0000 + (bytes[i + 1] as int) * 0x1_0000 + (bytes[i + 2] as int) * 0x100 + bytes[i + 3]
  {
    hide Lsb, BitList;
    ByteFromBits(bytes, i);
    ByteFromBits(bytes, i + 1);
    ByteFromBits(bytes, i + 2);
    ByteFromBits(bytes, i + 3);
  }

  lemma EndAt(bits: seq<Bit>, p: nat, out: seq<Byte>)
    requires Spells(bits, p, 7, 0)
    ensures HuffmanBlock(FixedLitLens(), FixedDistLens(), bits, p, out) == Ok(out, p + 7)
  {
    hide FixedLitLens, FixedDistLens, Symbol, BackReference, Copy;
    FixedSymbol(bits, p, 256);
  }

  /** A block with the fixed trees. */
  lemma FixedBlock(bits: seq<Bit>, p: nat, out: seq<Byte>)
    requires p <= |bits|
    ensures OneBlock(1, bits, p, out) == HuffmanBlock(FixedLitLens(), FixedDistLens(), bits, p, out)
  {
    hide HuffmanBlock, FixedLitLens, FixedDistLens;
  }

  /** The empty content in a block with the fixed trees. */
  lemma EmptyInflates()
    ensures Zlib([0x78, 0x9C, 0x03, 0x00, 0x00, 0x00, 0x00, 0x01]) == Ok([], 48)
  {
    hide BitList, Zlib, HuffmanBlock, Spells, OneBlock, BigEndian32, Lsb;
    var bytes: seq<Byte> := [0x03, 0x00, 0x00, 0x00, 0x00, 0x01];
    var bits := BitList(bytes);
    EmptyBits(bytes);
    EndAt(bits, 3, []);
    FixedBlock(bits, 3, []);
    Trailer(bytes, 2);
    var src: seq<Byte> := [0x78, 0x9C, 0x03, 0x00, 0x00, 0x00, 0x00, 0x01];
    assert src[2..] == bytes;
    assert GoodHeader(src) && AdlerSum([]) == 1;
    OneBlockStream(src, 1, [], 10);
  }

  lemma EmptyBits(bytes: seq<Byte>)
    requires |bytes| > 1 && bytes[0] == 0x03 && bytes[1] == 0x00
    ensures
        var bits := BitList(bytes);
        Lsb(bits, 0, 1) == 1 && Lsb(bits, 1, 2) == 1 && Spells(bits, 3, 7, 0)
  {
    hide BitList, Lsb, Msb;
    var bits := BitList(bytes);
    Octet(bytes, 0, 1, 1, 0, 0, 0, 0, 0, 0);
    Octet(bytes, 1, 0, 0, 0, 0, 0, 0, 0, 0);
    Lsb1(bits, 0);
    Lsb2(bits, 1);
    Msb7(bits, 3);
  }

  lemma LiteralAt(bits: seq<Bit>, p: nat, out: seq<Byte>, b: Byte, more: seq<Byte>)
    requires more == out + [b] && b < 144 && Spells(bits, p, 8, 0x30 + b)
    ensures p + 8 <= |bits|
    ensures HuffmanBlock(FixedLitLens(), FixedDistLens(), bits, p, out)
         == HuffmanBlock(FixedLitLens(), FixedDistLens(), bits, p + 8, more)
  {
    hide FixedLitLens, FixedDistLens, Symbol, BackReference, Copy;
    FixedSymbol(bits, p, b);
  }

  lemma AdlerAppend(data: seq<Byte>, b: Byte, more: seq<Byte>)
    requires more == data + [b]
    ensures AdlerLow(more) == AdlerLow(data) + b
    ensures AdlerHigh(more) == AdlerHigh(data) + AdlerLow(data) + b
  {
    assert more[..|data|] == data;
  }

  /** A text in a block with the fixed trees. */
  lemma HelloInflates()
    ensures Zlib([0x78, 0x9C, 0xCB, 0x48, 0xCD, 0xC9, 0xC9, 0x07, 0x00, 0x06, 0x2C, 0x02, 0x15])
         == Ok(['h' as int, 'e' as int, 'l' as int, 'l' as int, 'o' as int], 88)
  {
    hide BitList, Zlib, HuffmanBlock, Spells, OneBlock, BigEndian32, Lsb, AdlerSum;
    var bytes: seq<Byte> := [0xCB, 0x48, 0xCD, 0xC9, 0xC9, 0x07, 0x00, 0x06, 0x2C, 0x02, 0x15];
    var bits := BitList(bytes);
    HelloStarts(bytes);
    HelloEnds(bytes);
    FixedBlock(bits, 3, []);
    LiteralAt(bits, 3, [], 0x68, [0x68]);
    LiteralAt(bits, 11, [0x68], 0x65, [0x68, 0x65]);
    LiteralAt(bits, 19, [0x68, 0x65], 0x6C, [0x68, 0x65, 0x6C]);
    LiteralAt(bits, 27, [0x68, 0x65, 0x6C], 0x6C, [0x68, 0x65, 0x6C, 0x6C]);
    LiteralAt(bits, 35, [0x68, 0x65, 0x6C, 0x6C], 0x6F, [0x68, 0x65, 0x6C, 0x6C, 0x6F]);
    EndAt(bits, 43, [0x68, 0x65, 0x6C, 0x6C, 0x6F]);
    Trailer(bytes, 7);
    HelloSum();
    var src: seq<Byte> := [0x78, 0x9C, 0xCB, 0x48, 0xCD, 0xC9, 0xC9, 0x07, 0x00, 0x06, 0x2C, 0x02, 0x15];
    assert src[2..] == bytes;
    assert GoodHeader(src);
    OneBlockStream(src, 1, [0x68, 0x65, 0x6C, 0x6C, 0x6F], 50);
  }

  lemma HelloSum()
    ensures AdlerSum([0x68, 0x65, 0x6C, 0x6C, 0x6F]) == 0x062C0215
  {
    hide AdlerLow, AdlerHigh;
    NothingSummed();
    AdlerAppend([], 0x68, [0x68]);
    AdlerAppend([0x68], 0x65, [0x68, 0x65]);
    AdlerAppend([0x68, 0x65], 0x6C, [0x68, 0x65, 0x6C]);
    AdlerAppend([0x68, 0x65, 0x6C], 0x6C, [0x68, 0x65, 0x6C, 0x6C]);
    AdlerAppend([0x68, 0x65, 0x6C, 0x6C], 0x6F, [0x68, 0x65, 0x6C, 0x6C, 0x6F]);
  }

  lemma NothingSummed()
    ensures AdlerLow([]) == 1 && AdlerHigh([]) == 0
  {
  }

  lemma HelloStarts(bytes: seq<Byte>)
    requires |bytes| > 3 && bytes[0] == 0xCB && bytes[1] == 0x48 && bytes[2] == 0xCD && bytes[3] == 0xC9
    ensures
        var bits := BitList(bytes);
        && Lsb(bits, 0, 1) == 1 && Lsb(bits, 1, 2) == 1
        && Spells(bits, 3, 8, 0x98) && Spells(bits, 11, 8, 0x95) && Spells(bits, 19, 8, 0x9C)
  {
    hide BitList, Lsb, Msb;
    var bits := BitList(bytes);
    Octet(bytes, 0, 1, 1, 0, 1, 0, 0, 1, 1);
    Octet(bytes, 1, 0, 0, 0, 1, 0, 0, 1, 0);
    Octet(bytes, 2, 1, 0, 1, 1, 0, 0, 1, 1);
    Octet(bytes, 3, 1, 0, 0, 1, 0, 0, 1, 1);
    Lsb1(bits, 0);
    Lsb2(bits, 1);
    Msb8(bits, 3);
    Msb8(bits, 11);
    Msb8(bits, 19);
  }

  lemma HelloEnds(bytes: seq<Byte>)
    requires |bytes| > 6 && bytes[3] == 0xC9 && bytes[4] == 0xC9 && bytes[5] == 0x07 && bytes[6] == 0x00
    ensures
        var bits := BitList(bytes);
        Spells(bits, 27, 8, 0x9C) && Spells(bits, 35, 8, 0x9F) && Spells(bits, 43, 7, 0)
  {
    hide BitList, Msb;
    var bits := BitList(bytes);
    Octet(bytes, 3, 1, 0, 0, 1, 0, 0, 1, 1);
    Octet(bytes, 4, 1, 0, 0, 1, 0, 0, 1, 1);
    Octet(bytes, 5, 1, 1, 1, 0, 0, 0, 0, 0);
    Octet(bytes, 6, 0, 0, 0, 0, 0, 0, 0, 0);
    Msb8(bits, 27);
    Msb8(bits, 35);
    Msb7(bits, 43);
  }

  /** A stored block. */
  lemma StoredInflates()
    ensures Zlib([0x78, 0x01, 0x01, 0x01, 0x00, 0xFE, 0xFF, 0x61, 0x00, 0x62, 0x00, 0x62]) == Ok(['a' as int], 80)
  {
    hide BitList, Zlib, OneBlock, BigEndian32, Lsb, AdlerSum;
    var bytes: seq<Byte> := [0x01, 0x01, 0x00, 0xFE, 0xFF, 0x61, 0x00, 0x62, 0x00, 0x62];
    StoredBits(bytes);
    Trailer(bytes, 6);
    LetterSum();
    var src: seq<Byte> := [0x78, 0x01, 0x01, 0x01, 0x00, 0xFE, 0xFF, 0x61, 0x00, 0x62, 0x00, 0x62];
    assert src[2..] == bytes;
    assert GoodHeader(src);
    OneBlockStream(src, 0, [0x61], 48);
  }

  lemma LetterSum()
    ensures AdlerSum([0x61]) == 0x0062_0062
  {
    hide AdlerLow, AdlerHigh;
    NothingSummed();
    AdlerAppend([], 0x61, [0x61]);
  }

  lemma StoredBits(bytes: seq<Byte>)
    requires bytes == [0x01, 0x01, 0x00, 0xFE, 0xFF, 0x61, 0x00, 0x62, 0x00, 0x62]
    ensures
        var bits := BitList(bytes);
        && Lsb(bits, 0, 1) == 1 && Lsb(bits, 1, 2) == 0 && OneBlock(0, bits, 3, []) == Ok([0x61], 48)
  {
    hide BitList, Lsb, HuffmanBlock, DynamicTrees;
    var bits := BitList(bytes);
    Octet(bytes, 0, 1, 0, 0, 0, 0, 0, 0, 0);
    Lsb1(bits, 0);
    Lsb2(bits, 1);
    TwoBytes(bytes, 1);
    TwoBytes(bytes, 3);
    ByteFromBits(bytes, 5);
    assert StoredBytes(bits, 40, 1) == [0x61];
    assert Lsb(bits, 8, 16) == 1 && Lsb(bits, 24, 16) == 0xFFFE;
    assert [] + [0x61] == [0x61];
    assert StoredBlock(bits, 3, []) == Ok([0x61], 48);
  }

  /** What is refused: another method, a header that is no multiple of 31, a preset dictionary, and
      a wrong checksum, here the one of the text with its last byte changed. */
  lemma StreamsRefused(rest: seq<Byte>)
    ensures Zlib([0x79, 0x9C] + rest) == Bad && Zlib([0x78, 0x9D] + rest) == Bad && Zlib([0x78, 0x20] + rest) == Bad
    ensures Zlib([0x78, 0x9C, 0xCB, 0x48, 0xCD, 0xC9, 0xC9, 0x07, 0x00, 0x06, 0x2C, 0x02, 0x16]) == Bad
  {
    hide BitList, Blocks, BigEndian32, AdlerSum;
    WrongSum();
  }

  lemma WrongSum()
    ensures Zlib([0x78, 0x9C, 0xCB, 0x48, 0xCD, 0xC9, 0xC9, 0x07, 0x00, 0x06, 0x2C, 0x02, 0x16]) == Bad
  {
    hide BitList, Zlib, HuffmanBlock, Spells, OneBlock, BigEndian32, Lsb, AdlerSum;
    var bytes: seq<Byte> := [0xCB, 0x48, 0xCD, 0xC9, 0xC9, 0x07, 0x00, 0x06, 0x2C, 0x02, 0x16];
    var bits := BitList(bytes);
    HelloStarts(bytes);
    HelloEnds(bytes);
    FixedBlock(bits, 3, []);
    LiteralAt(bits, 3, [], 0x68, [0x68]);
    LiteralAt(bits, 11, [0x68], 0x65, [0x68, 0x65]);
    LiteralAt(bits, 19, [0x68, 0x65], 0x6C, [0x68, 0x65, 0x6C]);
    LiteralAt(bits, 27, [0x68, 0x65, 0x6C], 0x6C, [0x68, 0x65, 0x6C, 0x6C]);
    LiteralAt(bits, 35, [0x68, 0x65, 0x6C, 0x6C], 0x6F, [0x68, 0x65, 0x6C, 0x6C, 0x6F]);
    EndAt(bits, 43, [0x68, 0x65, 0x6C, 0x6C, 0x6F]);
    Trailer(bytes, 7);
    HelloSum();
    var src: seq<Byte> := [0x78, 0x9C, 0xCB, 0x48, 0xCD, 0xC9, 0xC9, 0x07, 0x00, 0x06, 0x2C, 0x02, 0x16];
    assert src[2..] == bytes;
    OneBlockWrongSum(src, 1, [0x68, 0x65, 0x6C, 0x6C, 0x6F], 50);
  }

  lemma OneBlockWrongSum(src: seq<Byte>, kind: nat, out: seq<Byte>, q: nat)
    requires |src| >= 2
    requires
        var bits := BitList(src[2..]);
        && |bits| >= 3 && Lsb(bits, 0, 1) == 1 && Lsb(bits, 1, 2) == kind && OneBlock(kind, bits, 3, []) == Ok(out, q)
        && ByteBoundary(q) + 32 == |bits| && BigEndian32(bits, ByteBoundary(q)) != AdlerSum(out)
    ensures Zlib(src) == Bad
  {
    hide OneBlock, BitList, Lsb, AdlerSum, BigEndian32, ByteBoundary;
    if GoodHeader(src) {
      var bits := BitList(src[2..]);
      assert Blocks(bits, 0, []) == Ok(out, q);
      hide Blocks;
    }
  }

  /** The checksum of 257 bytes 255, whose sums pass the modulus 65521. */
  lemma SumOfMany()
    ensures AdlerSum(Same(255, 257)) == 0x080F_000F
  {
    hide AdlerLow, AdlerHigh;
    SumOfSame(255, 257);
  }

  function Same(x: Byte, n: nat): (r: seq<Byte>)
    ensures |r| == n
  {
    seq(n, _ => x)
  }

  lemma {:induction false} SumOfSame(x: Byte, n: nat)
    ensures AdlerLow(Same(x, n)) == 1 + x as int * n
    ensures 2 * AdlerHigh(Same(x, n)) == 2 * n + x as int * (n * (n + 1))
  {
    hide AdlerLow, AdlerHigh;
    if n == 0 {
      NothingSummed();
      assert Same(x, 0) == [];
    } else {
      SumOfSame(x, n - 1);
      assert Same(x, n) == Same(x, n - 1) + [x];
      AdlerAppend(Same(x, n - 1), x, Same(x, n));
      Distribute(x, n - 1, 1);
      assert n * (n + 1) == (n - 1) * n + 2 * n;
      Distribute(x, (n - 1) * n, 2 * n);
      assert x as int * (2 * n) == 2 * (x as int * n);
    }
  }
}
