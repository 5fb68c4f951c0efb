/** A whole zlib stream whose block declares its own trees, byte by byte. */
module KnownDynamic {
  import opened Bits
  import opened CanonicalCodes
  import opened HuffmanTables
  import opened Deflate
  import opened FixedCodes
  import opened KnownStreams

  /** The block and the checksum. */
  ghost predicate Body(bytes: seq<Byte>) {
    && |bytes| == 22
    && bytes[0] == 0x0D && bytes[1] == 0xC1 && bytes[2] == 0x37 && bytes[3] == 0x01 && bytes[4] == 0x00 && bytes[5] == 0x00
    && bytes[6] == 0x00 && bytes[7] == 0xC2 && bytes[8] == 0x30 && bytes[9] == 0xAD && bytes[10] == 0x8C && bytes[11] == 0xC3
    && bytes[12] == 0xBF && bytes[13] == 0x83 && bytes[14] == 0x36 && bytes[15] == 0x49 && bytes[16] == 0x77 && bytes[17] == 0x01
    && bytes[18] == 0x0A && bytes[19] == 0xD1 && bytes[20] == 0x02 && bytes[21] == 0xB7
  }

  /** The code of the code lengths: 1 to 3 and the three kinds of runs are used. */
  const RUN_LENS: seq<nat> := [0, 3, 3, 2, 0, 0, 0, 0, 0, 0, 0, 0, 0, 0, 0, 0, 3, 3, 2]

  /** The declared trees: the letters a to d, the end and the length 3; the distances 1 and 2. */
  function LitLens(): (r: seq<nat>)
    ensures |r| == 258
  {
    Repeat(0, 97) + Repeat(3, 4) + Repeat(0, 155) + Repeat(2, 2)
  }

  const DIST_LENS: seq<nat> := [1, 1]

  /** Codes of lengths 2 and 3, two of length 2. */
  lemma ShortCodes(lens: seq<nat>)
    requires Count(lens, 1) == 0 && Count(lens, 2) == 2
    ensures FirstCode(lens, 2) == 0 && FirstCode(lens, 3) == 4
  {
    assert FirstCode(lens, 1) == 0 by { assert FirstCode(lens, 0) == 0; }
  }

  lemma RunCounts(len: nat)
    ensures Count(RUN_LENS[..1], len) == if len == 0 then 1 else 0
    ensures Count(RUN_LENS[..2], len) == if len == 0 || len == 3 then 1 else 0
    ensures Count(RUN_LENS[..3], len) == if len == 0 then 1 else if len == 3 then 2 else 0
    ensures Count(RUN_LENS[..16], len) == if len == 0 then 13 else if len == 3 then 2 else if len == 2 then 1 else 0
    ensures Count(RUN_LENS[..17], len) == if len == 0 then 13 else if len == 3 then 3 else if len == 2 then 1 else 0
    ensures Count(RUN_LENS[..18], len) == if len == 0 then 13 else if len == 3 then 4 else if len == 2 then 1 else 0
    ensures Count(RUN_LENS, len) == if len == 0 then 13 else if len == 3 then 4 else if len == 2 then 2 else 0
  {
    hide Count;
    NoCounts(len);
    CountRepeat([], 0, 1, len);
    CountRepeat(RUN_LENS[..1], 3, 1, len);
    CountRepeat(RUN_LENS[..2], 3, 1, len);
    CountRepeat(RUN_LENS[..3], 2, 1, len);
    CountRepeat(RUN_LENS[..4], 0, 12, len);
    CountRepeat(RUN_LENS[..16], 3, 1, len);
    CountRepeat(RUN_LENS[..17], 3, 1, len);
    CountRepeat(RUN_LENS[..18], 2, 1, len);
    assert [] + Repeat(0, 1) == RUN_LENS[..1] && RUN_LENS[..1] + Repeat(3, 1) == RUN_LENS[..2];
    assert RUN_LENS[..2] + Repeat(3, 1) == RUN_LENS[..3] && RUN_LENS[..3] + Repeat(2, 1) == RUN_LENS[..4];
    assert RUN_LENS[..4] + Repeat(0, 12) == RUN_LENS[..16] && RUN_LENS[..16] + Repeat(3, 1) == RUN_LENS[..17];
    assert RUN_LENS[..17] + Repeat(3, 1) == RUN_LENS[..18] && RUN_LENS[..18] + Repeat(2, 1) == RUN_LENS;
  }

  /** The codes of the code lengths. */
  lemma RunSymbols(bits: seq<Bit>, p: nat)
    ensures Spells(bits, p, 2, 0) ==> Symbol(RUN_LENS, bits, p) == Ok(3, p + 2)
    ensures Spells(bits, p, 2, 1) ==> Symbol(RUN_LENS, bits, p) == Ok(18, p + 2)
    ensures Spells(bits, p, 3, 4) ==> Symbol(RUN_LENS, bits, p) == Ok(1, p + 3)
    ensures Spells(bits, p, 3, 5) ==> Symbol(RUN_LENS, bits, p) == Ok(2, p + 3)
    ensures Spells(bits, p, 3, 6) ==> Symbol(RUN_LENS, bits, p) == Ok(16, p + 3)
    ensures Spells(bits, p, 3, 7) ==> Symbol(RUN_LENS, bits, p) == Ok(17, p + 3)
  {
    RunTree();
    RunCodes();
    hide Code, Symbol, Spells, Kraft;
    ReadExactlyWhen(RUN_LENS, bits, p, 3);
    ReadExactlyWhen(RUN_LENS, bits, p, 18);
    ReadExactlyWhen(RUN_LENS, bits, p, 1);
    ReadExactlyWhen(RUN_LENS, bits, p, 2);
    ReadExactlyWhen(RUN_LENS, bits, p, 16);
    ReadExactlyWhen(RUN_LENS, bits, p, 17);
  }

  lemma RunCodes()
    ensures Code(RUN_LENS, 3) == 0 && Code(RUN_LENS, 18) == 1
    ensures Code(RUN_LENS, 1) == 4 && Code(RUN_LENS, 2) == 5 && Code(RUN_LENS, 16) == 6 && Code(RUN_LENS, 17) == 7
  {
    hide Count, FirstCode;
    RunCounts(1);
    RunCounts(2);
    RunCounts(3);
    ShortCodes(RUN_LENS);
  }

  lemma RunTree()
    ensures NotOversubscribed(RUN_LENS) && LengthsFit(RUN_LENS)
  {
    Shares();
    hide Kraft, Repeat;
    KraftRepeat([], 0, 1);
    KraftRepeat([] + Repeat(0, 1), 3, 2);
    KraftRepeat([] + Repeat(0, 1) + Repeat(3, 2), 2, 1);
    KraftRepeat([] + Repeat(0, 1) + Repeat(3, 2) + Repeat(2, 1), 0, 12);
    KraftRepeat([] + Repeat(0, 1) + Repeat(3, 2) + Repeat(2, 1) + Repeat(0, 12), 3, 2);
    KraftRepeat([] + Repeat(0, 1) + Repeat(3, 2) + Repeat(2, 1) + Repeat(0, 12) + Repeat(3, 2), 2, 1);
    RunLensAre();
  }

  lemma RunLensAre()
    ensures RUN_LENS == [] + Repeat(0, 1) + Repeat(3, 2) + Repeat(2, 1) + Repeat(0, 12) + Repeat(3, 2) + Repeat(2, 1)
  {
  }

  lemma Shares()
    ensures Share(0) == 0 && Share(1) == 0x4000 && Share(2) == 0x2000 && Share(3) == 0x1000 && Pow2(15) == 0x8000 && Kraft([]) == 0
  {
    Pow2Values();
    assert Pow2(14) == 2 * Pow2(13) && Pow2(13) == 2 * Pow2(12) && Pow2(15) == 2 * Pow2(14);
  }

  lemma LitCounts(n: nat, len: nat)
    requires 97 <= n <= 258
    ensures len == 1 ==> Count(LitLens()[..n], len) == 0
    ensures len == 3 ==> Count(LitLens()[..n], len) == if n <= 101 then n - 97 else 4
    ensures len == 2 ==> Count(LitLens()[..n], len) == if n <= 256 then 0 else n - 256
  {
    hide Count;
    var a, b, c := Repeat(0, 97), Repeat(3, 4), Repeat(0, 155);
    NoCounts(len);
    CountRepeat([], 0, 97, len);
    CountRepeat([] + a, 3, 4, len);
    CountRepeat([] + a + b, 0, 155, len);
    if n <= 101 {
      CountRepeat([] + a, 3, n - 97, len);
      assert LitLens()[..n] == [] + a + Repeat(3, n - 97);
    } else if n <= 256 {
      CountRepeat([] + a + b, 0, n - 101, len);
      assert LitLens()[..n] == [] + a + b + Repeat(0, n - 101);
    } else {
      CountRepeat([] + a + b + c, 2, n - 256, len);
      assert LitLens()[..n] == [] + a + b + c + Repeat(2, n - 256);
    }
  }

  lemma LitTree()
    ensures NotOversubscribed(LitLens()) && LengthsFit(LitLens())
  {
    Shares();
    assert LitLens() == [] + Repeat(0, 97) + Repeat(3, 4) + Repeat(0, 155) + Repeat(2, 2);
    hide Kraft, Repeat;
    KraftRepeat([], 0, 97);
    KraftRepeat([] + Repeat(0, 97), 3, 4);
    KraftRepeat([] + Repeat(0, 97) + Repeat(3, 4), 0, 155);
    KraftRepeat([] + Repeat(0, 97) + Repeat(3, 4) + Repeat(0, 155), 2, 2);
  }

  lemma LitCodes(s: nat)
    requires 97 <= s <= 100 || s == 256 || s == 257
    ensures s <= 100 ==> LitLens()[s] == 3 && Code(LitLens(), s) == s - 93
    ensures s >= 256 ==> LitLens()[s] == 2 && Code(LitLens(), s) == s - 256
  {
    LitCounts(s, LitLens()[s]);
    LitCounts(258, 1);
    LitCounts(258, 2);
    assert LitLens()[..258] == LitLens();
    hide Count, FirstCode;
    ShortCodes(LitLens());
  }

  /** The codes of the letters a to d, the end and the length 3. */
  lemma LitSymbols(bits: seq<Bit>, p: nat, s: nat)
    requires 97 <= s <= 100 || s == 256 || s == 257
    ensures s <= 100 && Spells(bits, p, 3, s - 93) ==> Symbol(LitLens(), bits, p) == Ok(s, p + 3)
    ensures s >= 256 && Spells(bits, p, 2, s - 256) ==> Symbol(LitLens(), bits, p) == Ok(s, p + 2)
  {
    hide Code, Symbol, Spells, Kraft, LitLens;
    LitTree();
    LitCodes(s);
    ReadExactlyWhen(LitLens(), bits, p, s);
  }

  /** The code of distance 1. */
  lemma DistSymbol(bits: seq<Bit>, p: nat)
    requires Spells(bits, p, 1, 0)
    ensures Symbol(DIST_LENS, bits, p) == Ok(0, p + 1)
  {
    DistTree();
    assert Code(DIST_LENS, 0) == 0 by {
      assert FirstCode(DIST_LENS, 0) == 0;
      assert DIST_LENS[..0] == [];
    }
    hide Code, Symbol, Spells, Kraft;
    ReadExactlyWhen(DIST_LENS, bits, p, 0);
  }

  lemma DistTree()
    ensures NotOversubscribed(DIST_LENS) && LengthsFit(DIST_LENS)
  {
    Shares();
    hide Kraft;
    KraftRepeat([], 1, 2);
    assert DIST_LENS == [] + Repeat(1, 2);
  }

  lemma CountFields(bytes: seq<Byte>)
    requires Body(bytes)
    ensures
        var bits := BitList(bytes);
        && Lsb(bits, 0, 1) == 1 && Lsb(bits, 1, 2) == 2 && Lsb(bits, 3, 5) == 1 && Lsb(bits, 8, 5) == 1
        && Lsb(bits, 13, 4) == 14
  {
    hide BitList, Lsb, Msb;
    var bits := BitList(bytes);
    Octet(bytes, 0, 1, 0, 1, 1, 0, 0, 0, 0);
    Octet(bytes, 1, 1, 0, 0, 0, 0, 0, 1, 1);
    Octet(bytes, 2, 1, 1, 1, 0, 1, 1, 0, 0);
    Lsb1(bits, 0);
    Lsb2(bits, 1);
    Lsb5(bits, 3);
    Lsb5(bits, 8);
    Lsb4(bits, 13);
  }

  lemma FirstLengthFields(bytes: seq<Byte>)
    requires Body(bytes)
    ensures
        var bits := BitList(bytes);
        && Lsb(bits, 17, 3) == 3 && Lsb(bits, 20, 3) == 3 && Lsb(bits, 23, 3) == 2 && Lsb(bits, 26, 3) == 0
        && Lsb(bits, 29, 3) == 0 && Lsb(bits, 32, 3) == 0 && Lsb(bits, 35, 3) == 0
  {
    hide BitList, Lsb, Msb;
    var bits := BitList(bytes);
    Octet(bytes, 2, 1, 1, 1, 0, 1, 1, 0, 0);
    Octet(bytes, 3, 1, 0, 0, 0, 0, 0, 0, 0);
    Octet(bytes, 4, 0, 0, 0, 0, 0, 0, 0, 0);
    Lsb3(bits, 17);
    Lsb3(bits, 20);
    Lsb3(bits, 23);
    Lsb3(bits, 26);
    Lsb3(bits, 29);
    Lsb3(bits, 32);
    Lsb3(bits, 35);
  }

  lemma MiddleLengthFields(bytes: seq<Byte>)
    requires Body(bytes)
    ensures
        var bits := BitList(bytes);
        && Lsb(bits, 38, 3) == 0 && Lsb(bits, 41, 3) == 0 && Lsb(bits, 44, 3) == 0 && Lsb(bits, 47, 3) == 0
        && Lsb(bits, 50, 3) == 0 && Lsb(bits, 53, 3) == 0
  {
    hide BitList, Lsb, Msb;
    var bits := BitList(bytes);
    Octet(bytes, 4, 0, 0, 0, 0, 0, 0, 0, 0);
    Octet(bytes, 5, 0, 0, 0, 0, 0, 0, 0, 0);
    Octet(bytes, 6, 0, 0, 0, 0, 0, 0, 0, 0);
    Lsb3(bits, 38);
    Lsb3(bits, 41);
    Lsb3(bits, 44);
    Lsb3(bits, 47);
    Lsb3(bits, 50);
    Lsb3(bits, 53);
  }

  lemma LastLengthFields(bytes: seq<Byte>)
    requires Body(bytes)
    ensures
        var bits := BitList(bytes);
        && Lsb(bits, 56, 3) == 2 && Lsb(bits, 59, 3) == 0 && Lsb(bits, 62, 3) == 3 && Lsb(bits, 65, 3) == 0
        && Lsb(bits, 68, 3) == 3
  {
    hide BitList, Lsb, Msb;
    var bits := BitList(bytes);
    Octet(bytes, 7, 0, 1, 0, 0, 0, 0, 1, 1);
    Octet(bytes, 8, 0, 0, 0, 0, 1, 1, 0, 0);
    Lsb3(bits, 56);
    Lsb3(bits, 59);
    Lsb3(bits, 62);
    Lsb3(bits, 65);
    Lsb3(bits, 68);
  }

  /** The declared code of the code lengths. */
  lemma RunLensRead(bytes: seq<Byte>)
    requires Body(bytes)
    ensures CodeLengthCode(BitList(bytes), 17, 18) == RUN_LENS
  {
    hide BitList, Lsb, CodeLengthCode, Body;
    var bits := BitList(bytes);
    BodySize(bytes);
    FirstLengthFields(bytes);
    MiddleLengthFields(bytes);
    LastLengthFields(bytes);
    forall sym | 0 <= sym < 19
      ensures CodeLengthCode(bits, 17, 18)[sym] == RUN_LENS[sym]
    {
      CodeLengthPlaces(bits, 17, 18, sym);
    }
  }

  lemma FirstRuns(bytes: seq<Byte>)
    requires Body(bytes)
    ensures
        var bits := BitList(bytes);
        && Spells(bits, 71, 2, 1) && Lsb(bits, 73, 7) == 86 && Spells(bits, 80, 2, 0) && Spells(bits, 82, 3, 6)
        && Lsb(bits, 85, 2) == 0
  {
    hide BitList, Lsb, Msb;
    var bits := BitList(bytes);
    Octet(bytes, 8, 0, 0, 0, 0, 1, 1, 0, 0);
    Octet(bytes, 9, 1, 0, 1, 1, 0, 1, 0, 1);
    Octet(bytes, 10, 0, 0, 1, 1, 0, 0, 0, 1);
    Msb2(bits, 71);
    Lsb7(bits, 73);
    Msb2(bits, 80);
    Msb3(bits, 82);
    Lsb2(bits, 85);
  }

  lemma MiddleRuns(bytes: seq<Byte>)
    requires Body(bytes)
    ensures
        var bits := BitList(bytes);
        && Spells(bits, 87, 3, 7) && Lsb(bits, 90, 3) == 0 && Spells(bits, 93, 2, 1) && Lsb(bits, 95, 7) == 127
  {
    hide BitList, Lsb, Msb;
    var bits := BitList(bytes);
    Octet(bytes, 10, 0, 0, 1, 1, 0, 0, 0, 1);
    Octet(bytes, 11, 1, 1, 0, 0, 0, 0, 1, 1);
    Octet(bytes, 12, 1, 1, 1, 1, 1, 1, 0, 1);
    Msb3(bits, 87);
    Lsb3(bits, 90);
    Msb2(bits, 93);
    Lsb7(bits, 95);
  }

  lemma LastRuns(bytes: seq<Byte>)
    requires Body(bytes)
    ensures
        var bits := BitList(bytes);
        && Spells(bits, 102, 2, 1) && Lsb(bits, 104, 7) == 3 && Spells(bits, 111, 3, 5) && Spells(bits, 114, 3, 5)
        && Spells(bits, 117, 3, 4) && Spells(bits, 120, 3, 4)
  {
    hide BitList, Lsb, Msb;
    var bits := BitList(bytes);
    Octet(bytes, 12, 1, 1, 1, 1, 1, 1, 0, 1);
    Octet(bytes, 13, 1, 1, 0, 0, 0, 0, 0, 1);
    Octet(bytes, 14, 0, 1, 1, 0, 1, 1, 0, 0);
    Octet(bytes, 15, 1, 0, 0, 1, 0, 0, 1, 0);
    Msb2(bits, 102);
    Lsb7(bits, 104);
    Msb3(bits, 111);
    Msb3(bits, 114);
    Msb3(bits, 117);
    Msb3(bits, 120);
  }

  lemma Tokens(bytes: seq<Byte>)
    requires Body(bytes)
    ensures
        var bits := BitList(bytes);
        && Spells(bits, 123, 3, 4) && Spells(bits, 126, 3, 5) && Spells(bits, 129, 3, 6) && Spells(bits, 132, 3, 7)
        && Spells(bits, 135, 2, 1) && Spells(bits, 137, 1, 0) && Spells(bits, 138, 2, 0)
  {
    hide BitList, Lsb, Msb;
    var bits := BitList(bytes);
    Octet(bytes, 15, 1, 0, 0, 1, 0, 0, 1, 0);
    Octet(bytes, 16, 1, 1, 1, 0, 1, 1, 1, 0);
    Octet(bytes, 17, 1, 0, 0, 0, 0, 0, 0, 0);
    Msb3(bits, 123);
    Msb3(bits, 126);
    Msb3(bits, 129);
    Msb3(bits, 132);
    Msb2(bits, 135);
    Msb1(bits, 137);
    Msb2(bits, 138);
  }

  /** One length as it stands. */
  lemma LenAt(total: nat, bits: seq<Bit>, p: nat, q: nat, acc: seq<nat>, n: nat, more: seq<nat>)
    requires |acc| < total && n <= 15 && p <= |bits| && Symbol(RUN_LENS, bits, p) == Ok(n, q) && more == acc + [n]
    ensures CodeLengths(RUN_LENS, total, bits, p, acc) == CodeLengths(RUN_LENS, total, bits, q, more)
  {
    hide Symbol;
  }

  /** The length before, three to six times. */
  lemma AgainAt(total: nat, bits: seq<Bit>, p: nat, q: nat, acc: seq<nat>, extra: nat, more: seq<nat>)
    requires 0 < |acc| < total && p <= |bits| && Symbol(RUN_LENS, bits, p) == Ok(16, q)
    requires q + 2 <= |bits| && Lsb(bits, q, 2) == extra && more == acc + Repeat(acc[|acc| - 1], 3 + extra)
    ensures CodeLengths(RUN_LENS, total, bits, p, acc) == CodeLengths(RUN_LENS, total, bits, q + 2, more)
  {
    hide Symbol, Lsb;
  }

  /** Three to ten zeros. */
  lemma FewZerosAt(total: nat, bits: seq<Bit>, p: nat, q: nat, acc: seq<nat>, extra: nat, more: seq<nat>)
    requires |acc| < total && p <= |bits| && Symbol(RUN_LENS, bits, p) == Ok(17, q)
    requires q + 3 <= |bits| && Lsb(bits, q, 3) == extra && more == acc + Repeat(0, 3 + extra)
    ensures CodeLengths(RUN_LENS, total, bits, p, acc) == CodeLengths(RUN_LENS, total, bits, q + 3, more)
  {
    hide Symbol, Lsb;
  }

  /** 11 to 138 zeros. */
  lemma ManyZerosAt(total: nat, bits: seq<Bit>, p: nat, q: nat, acc: seq<nat>, extra: nat, more: seq<nat>)
    requires |acc| < total && p <= |bits| && Symbol(RUN_LENS, bits, p) == Ok(18, q)
    requires q + 7 <= |bits| && Lsb(bits, q, 7) == extra && more == acc + Repeat(0, 11 + extra)
    ensures CodeLengths(RUN_LENS, total, bits, p, acc) == CodeLengths(RUN_LENS, total, bits, q + 7, more)
  {
    hide Symbol, Lsb;
  }

  lemma FirstRunsRead(bytes: seq<Byte>)
    requires Body(bytes)
    ensures
        var bits := BitList(bytes);
        CodeLengths(RUN_LENS, 260, bits, 71, []) == CodeLengths(RUN_LENS, 260, bits, 93, Repeat(0, 97) + Repeat(3, 4) + Repeat(0, 3))
  {
    hide BitList, Lsb, CodeLengths, Symbol, Spells;
    var bits := BitList(bytes);
    FirstRuns(bytes);
    MiddleRuns(bytes);
    var a, b := Repeat(0, 97), Repeat(0, 97) + [3];
    RunSymbols(bits, 71);
    ManyZerosAt(260, bits, 71, 73, [], 86, a);
    RunSymbols(bits, 80);
    LenAt(260, bits, 80, 82, a, 3, b);
    RunSymbols(bits, 82);
    AgainAt(260, bits, 82, 85, b, 0, a + Repeat(3, 4));
    RunSymbols(bits, 87);
    FewZerosAt(260, bits, 87, 90, a + Repeat(3, 4), 0, a + Repeat(3, 4) + Repeat(0, 3));
  }

  lemma LastRunsRead(bytes: seq<Byte>)
    requires Body(bytes)
    ensures
        var bits := BitList(bytes);
        CodeLengths(RUN_LENS, 260, bits, 93, Repeat(0, 97) + Repeat(3, 4) + Repeat(0, 3)) == Ok(LitLens() + DIST_LENS, 123)
  {
    hide BitList, Lsb, CodeLengths, Symbol, Spells;
    var bits := BitList(bytes);
    MiddleRuns(bytes);
    LastRuns(bytes);
    var a := Repeat(0, 97) + Repeat(3, 4);
    var c := a + Repeat(0, 155);
    RunSymbols(bits, 93);
    ManyZerosAt(260, bits, 93, 95, a + Repeat(0, 3), 127, a + Repeat(0, 141));
    RunSymbols(bits, 102);
    ManyZerosAt(260, bits, 102, 104, a + Repeat(0, 141), 3, c);
    RunSymbols(bits, 111);
    LenAt(260, bits, 111, 114, c, 2, c + [2]);
    RunSymbols(bits, 114);
    LenAt(260, bits, 114, 117, c + [2], 2, LitLens());
    RunSymbols(bits, 117);
    LenAt(260, bits, 117, 120, LitLens(), 1, LitLens() + [1]);
    RunSymbols(bits, 120);
    LenAt(260, bits, 120, 123, LitLens() + [1], 1, LitLens() + DIST_LENS);
    AllRead(bits, LitLens() + DIST_LENS);
  }

  lemma AllRead(bits: seq<Bit>, lens: seq<nat>)
    requires |lens| == 260 && 123 <= |bits|
    ensures CodeLengths(RUN_LENS, 260, bits, 123, lens) == Ok(lens, 123)
  {
    assert lens[..260] == lens;
  }

  lemma TreesRead(bytes: seq<Byte>)
    requires Body(bytes)
    ensures 3 <= |BitList(bytes)| && DynamicTrees(BitList(bytes), 3) == Ok((LitLens(), DIST_LENS), 123)
  {
    hide BitList, Lsb, CodeLengths, CodeLengthCode, Kraft, LitLens, Body, Accepts;
    var bits := BitList(bytes);
    BodySize(bytes);
    CountFields(bytes);
    RunLensRead(bytes);
    FirstRunsRead(bytes);
    LastRunsRead(bytes);
    RunTree();
    LitTree();
    DistTree();
    var all := LitLens() + DIST_LENS;
    assert all[..258] == LitLens() && all[258..] == DIST_LENS;
    assert CodedTrees(RUN_LENS, bits, 71, 258, 2) == Ok((LitLens(), DIST_LENS), 123);
    assert DeclaredTrees(bits, 17, 258, 2, 18) == Ok((LitLens(), DIST_LENS), 123);
  }

  lemma BodySize(bytes: seq<Byte>)
    requires Body(bytes)
    ensures |bytes| == 22
  {
  }

  lemma LetterAt(bits: seq<Bit>, p: nat, out: seq<Byte>, b: Byte, more: seq<Byte>)
    requires 97 <= b <= 100 && Spells(bits, p, 3, b - 93) && more == out + [b]
    ensures p + 3 <= |bits|
    ensures HuffmanBlock(LitLens(), DIST_LENS, bits, p, out) == HuffmanBlock(LitLens(), DIST_LENS, bits, p + 3, more)
  {
    hide Symbol, BackReference, Copy, LitLens;
    LitSymbols(bits, p, b);
  }

  /** Three times the byte before. */
  lemma ReferenceAt(bits: seq<Bit>, p: nat, out: seq<Byte>)
    requires Spells(bits, p, 2, 1) && Spells(bits, p + 2, 1, 0) && |out| >= 1
    ensures p + 3 <= |bits|
    ensures HuffmanBlock(LitLens(), DIST_LENS, bits, p, out)
         == HuffmanBlock(LitLens(), DIST_LENS, bits, p + 3, out + [out[|out| - 1], out[|out| - 1], out[|out| - 1]])
  {
    hide Symbol, Copy, LitLens;
    LitSymbols(bits, p, 257);
    DistSymbol(bits, p + 2);
    assert LengthCode(257) == (3, 0) && DistanceCode(0) == (1, 0);
    assert Lsb(bits, p + 2, 0) == 0 && Lsb(bits, p + 3, 0) == 0;
    ThreeCopies(out);
    assert BackReference(DIST_LENS, 257, bits, p + 2) == Ok((3, 1), p + 3);
  }

  lemma ThreeCopies(out: seq<Byte>)
    requires |out| >= 1
    ensures Copy(out, 1, 3) == out + [out[|out| - 1], out[|out| - 1], out[|out| - 1]]
  {
    hide Copy;
    var b := out[|out| - 1];
    CopyOne(out, 3);
    CopyOne(out + [b], 2);
    CopyOne(out + [b] + [b], 1);
    CopyNone(out + [b] + [b] + [b]);
    assert out + [b] + [b] + [b] == out + [b, b, b];
  }

  lemma CopyOne(out: seq<Byte>, n: nat)
    requires |out| >= 1 && n >= 1
    ensures Copy(out, 1, n) == Copy(out + [out[|out| - 1]], 1, n - 1)
  {
  }

  lemma CopyNone(out: seq<Byte>)
    requires |out| >= 1
    ensures Copy(out, 1, 0) == out
  {
  }

  lemma EndHere(bits: seq<Bit>, p: nat, out: seq<Byte>)
    requires Spells(bits, p, 2, 0)
    ensures p <= |bits| && HuffmanBlock(LitLens(), DIST_LENS, bits, p, out) == Ok(out, p + 2)
  {
    hide Symbol, BackReference, Copy, LitLens;
    LitSymbols(bits, p, 256);
  }

  lemma TokensRead(bytes: seq<Byte>)
    requires Body(bytes)
    ensures
        && 123 <= |BitList(bytes)|
        && HuffmanBlock(LitLens(), DIST_LENS, BitList(bytes), 123, []) == Ok([97, 98, 99, 100, 100, 100, 100], 140)
  {
    hide BitList, HuffmanBlock, Spells, LitLens;
    var bits := BitList(bytes);
    Tokens(bytes);
    LetterAt(bits, 123, [], 97, [97]);
    LetterAt(bits, 126, [97], 98, [97, 98]);
    LetterAt(bits, 129, [97, 98], 99, [97, 98, 99]);
    LetterAt(bits, 132, [97, 98, 99], 100, [97, 98, 99, 100]);
    ReferenceAt(bits, 135, [97, 98, 99, 100]);
    assert [97, 98, 99, 100] + [100, 100, 100] == [97, 98, 99, 100, 100, 100, 100];
    EndHere(bits, 138, [97, 98, 99, 100, 100, 100, 100]);
  }

  lemma DynamicBlock(bits: seq<Bit>, lit: seq<nat>, dist: seq<nat>, q: nat, out: seq<Byte>, end: nat)
    requires 3 <= |bits| && DynamicTrees(bits, 3) == Ok((lit, dist), q) && q <= |bits| && HuffmanBlock(lit, dist, bits, q, []) == Ok(out, end)
    ensures OneBlock(2, bits, 3, []) == Ok(out, end)
  {
    hide HuffmanBlock, DynamicTrees;
  }

  lemma DynamicSum()
    ensures AdlerSum([97, 98, 99, 100, 100, 100, 100]) == 0x0AD102B7
  {
    hide AdlerLow, AdlerHigh;
    NothingSummed();
    AdlerAppend([], 97, [97]);
    AdlerAppend([97], 98, [97, 98]);
    AdlerAppend([97, 98], 99, [97, 98, 99]);
    AdlerAppend([97, 98, 99], 100, [97, 98, 99, 100]);
    AdlerAppend([97, 98, 99, 100], 100, [97, 98, 99, 100, 100]);
    AdlerAppend([97, 98, 99, 100, 100], 100, [97, 98, 99, 100, 100, 100]);
    AdlerAppend([97, 98, 99, 100, 100, 100], 100, [97, 98, 99, 100, 100, 100, 100]);
  }

  /** A block that declares its own trees: three kinds of runs, four letters, a reference back
      and the end. */
  lemma DynamicInflates(src: seq<Byte>)
    requires src == [0x78, 0x9C, 0x0D, 0xC1, 0x37, 0x01, 0x00, 0x00, 0x00, 0xC2, 0x30, 0xAD,
                     0x8C, 0xC3, 0xBF, 0x83, 0x36, 0x49, 0x77, 0x01, 0x0A, 0xD1, 0x02, 0xB7]
    ensures Zlib(src) == Ok(['a' as int, 'b' as int, 'c' as int, 'd' as int, 'd' as int, 'd' as int, 'd' as int], 176)
  {
    hide BitList, Zlib, HuffmanBlock, DynamicTrees, OneBlock, BigEndian32, Lsb, AdlerSum, LitLens;
    var bytes := src[2..];
    assert Body(bytes);
    assert bytes[18] == 0x0A && bytes[19] == 0xD1 && bytes[20] == 0x02 && bytes[21] == 0xB7;
    hide Body;
    CountFields(bytes);
    TreesRead(bytes);
    TokensRead(bytes);
    DynamicBlock(BitList(bytes), LitLens(), DIST_LENS, 123, [97, 98, 99, 100, 100, 100, 100], 140);
    DynamicSum();
    Trailer(bytes, 18);
    assert GoodHeader(src);
    OneBlockStream(src, 2, [97, 98, 99, 100, 100, 100, 100], 140);
  }
}
