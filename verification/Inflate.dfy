/** The zlib decoder of `src/kad/packed.rs`, block by block, against the bit-list format. */
module Inflate {
  import opened Wrappers
  import opened Collections
  import opened Bits
  import opened BitReaders
  import opened CanonicalCodes
  import opened HuffmanTables
  import opened Deflate

  /** No continuation can yield a complete stream within the limit: the format has no
      result here, or its result leaves no room for the 32-bit checksum, or is too long.
      The table lookup may fail for want of bits a little before the format does. */
  ghost predicate Hopeless(r: Parsed<seq<Byte>>, nbits: nat, maxOut: nat) {
    r.Ok? ==> r.next + 32 > nbits || |r.value| > maxOut
  }

  /** What a decoding step owes the format, on success and on failure. */
  ghost predicate Agrees(r: Result<seq<Byte>, InflateError>, at: nat, spec: Parsed<seq<Byte>>, nbits: nat, maxOut: nat) {
    match r
    case Success(out) => spec == Ok(out, at)
    case Failure(_) => Hopeless(spec, nbits, maxOut)
  }

  /** The length of a stored block, at the next byte boundary, with its complement. */
  method ReadStoredLength(br: BitReader) returns (r: Result<nat, InflateError>)
    requires br.Valid()
    modifies br
    ensures br.Valid()
    ensures
        var bits, q := br.Stream(), ByteBoundary(old(br.At()));
        && (r.Success? <==> q + 32 <= |bits| && Lsb(bits, q + 16, 16) == 0xFFFF - Lsb(bits, q, 16))
        && (r.Success? ==> r.value == Lsb(bits, q, 16) && br.At() == q + 32)
  {
    hide Lsb, BitList, Pow2, ByteBoundary;
    br.AlignToByte();
    var len :- br.ReadBits(16);
    var nlen :- br.ReadBits(16);
    // On 16-bit values, `len ^ nlen == 0xFFFF` says that they sum to 0xFFFF.
    if len + nlen != 0xFFFF {
      return Failure(StoredLengthMismatch);
    }
    return Success(len);
  }

  method DecodeStoredBlock(br: BitReader, out: seq<Byte>, maxOut: nat) returns (r: Result<seq<Byte>, InflateError>)
    requires br.Valid() && |out| <= maxOut
    modifies br
    ensures br.Valid()
    ensures r.Success? ==> br.At() > old(br.At()) && |r.value| <= maxOut
    ensures Agrees(r, br.At(), StoredBlock(br.Stream(), old(br.At()), out), |br.Stream()|, maxOut)
  {
    hide Lsb, BitList, Pow2;
    ghost var bits, q := br.Stream(), ByteBoundary(br.At());
    var len :- ReadStoredLength(br);
    if |out| + len > maxOut {
      return Failure(OutputTooLarge);
    }
    var more := out;
    NoStoredBytes(bits, q + 32);
    hide StoredBytes, ByteAt;
    for i := 0 to len
      invariant br.Valid() && br.At() == q + 32 + 8 * i
      invariant more == out + StoredBytes(bits, q + 32, i)
    {
      var b :- br.ReadBits(8);
      NextStoredByte(bits, q + 32, i);
      Associative(out, StoredBytes(bits, q + 32, i), [b]);
      more := more + [b];
    }
    return Success(more);
  }

  lemma NoStoredBytes(bits: seq<Bit>, p: nat)
    requires p <= |bits|
    ensures StoredBytes(bits, p, 0) == []
  {
  }

  lemma NextStoredByte(bits: seq<Bit>, p: nat, i: nat)
    requires p + 8 * (i + 1) <= |bits|
    ensures Lsb(bits, p + 8 * i, 8) == ByteAt(bits, p + 8 * i)
    ensures StoredBytes(bits, p, i + 1) == StoredBytes(bits, p, i) + [ByteAt(bits, p + 8 * i)]
  {
    hide ByteAt, Lsb;
    assert ByteAt(bits, p + 8 * i) == Lsb(bits, p + 8 * i, 8) by { StoredByteIs(bits, p + 8 * i); }
  }

  lemma StoredByteIs(bits: seq<Bit>, p: nat)
    requires p + 8 <= |bits|
    ensures ByteAt(bits, p) == Lsb(bits, p, 8)
  {
    hide Lsb;
  }

  lemma {:induction false} CopyLast(out: seq<Byte>, distance: nat, length: nat)
    requires 1 <= distance <= |out|
    ensures Copy(out, distance, length + 1)
         == Copy(out, distance, length) + [Copy(out, distance, length)[|out| + length - distance]]
    decreases length
  {
    if length > 0 {
      CopyLast(out + [out[|out| - distance]], distance, length - 1);
    }
  }

  /** Indexing the history modulo the distance equals the overlapping byte-by-byte copy. */
  method CopyFromHistory(out: seq<Byte>, distance: nat, length: nat, maxOut: nat)
    returns (r: Result<seq<Byte>, InflateError>)
    ensures r.Success? <==> 1 <= distance <= |out| && |out| + length <= maxOut
    ensures r.Success? ==> r.value == Copy(out, distance, length)
  {
    if distance == 0 || distance > |out| {
      return Failure(BadDistance);
    }
    if |out| + length > maxOut {
      return Failure(OutputTooLarge);
    }
    hide Copy, ClassOf;
    var start := |out| - distance;
    var more := out;
    CopyNone(out, distance);
    LowestOfClass(distance);
    for i := 0 to length
      invariant more == Copy(out, distance, i)
      invariant forall j: nat :: j < distance + i ==> more[start + j] == out[start + ClassOf(j, distance)]
    {
      CopyLast(out, distance, i);
      NextCopied(out, more, distance, i);
      more := more + [more[start + ClassOf(i, distance)]];
    }
    return Success(more);
  }

  /** The history repeats with the period of the distance, and the next byte goes on so. */
  lemma NextCopied(out: seq<Byte>, more: seq<Byte>, distance: nat, i: nat)
    requires 1 <= distance <= |out| && |more| == |out| + i
    requires forall j: nat :: j < distance + i ==> more[|out| - distance + j] == out[|out| - distance + ClassOf(j, distance)]
    ensures
        var start := |out| - distance;
        var next := more[start + ClassOf(i, distance)];
        && next == more[|out| + i - distance]
        && forall j: nat :: j < distance + i + 1 ==> (more + [next])[start + j] == out[start + ClassOf(j, distance)]
  {
    LowestOfClass(distance);
    hide ClassOf;
    StepKeepsClass(distance, i);
    var c := ClassOf(i, distance);
    assert ClassOf(c, distance) == c;
  }

  lemma CopyNone(out: seq<Byte>, distance: nat)
    requires 1 <= distance <= |out|
    ensures Copy(out, distance, 0) == out
  {
  }

  /** A symbol read from the table is the symbol of the format, unless bits ran short. */
  ghost predicate SymbolAgrees(r: Result<nat, InflateError>, lens: seq<nat>, bits: seq<Bit>, p: nat, at: nat) {
    match r
    case Success(s) => Symbol(lens, bits, p) == Ok(s, at)
    case Failure(_) => p + MAX_BITS > |bits| || Symbol(lens, bits, p) == Bad
  }

  /** The symbol of the format is what the table holds. */
  lemma SymbolIsLastStart(lens: seq<nat>, bits: seq<Bit>, p: nat)
    requires LengthsFit(lens)
    ensures
        var last := LastStart(lens, bits, p, |lens|);
        Symbol(lens, bits, p) == if last.Some? then Ok(last.value, p + lens[last.value]) else Bad
  {
    hide Starts16, Matches, Kraft;
    var last := LastStart(lens, bits, p, |lens|);
    if NotOversubscribed(lens) {
      forall s: nat | Matches(lens, bits, p, s)
        ensures s < |lens| && last == Some(s)
      {
        MatchHasLength(lens, bits, p, s);
        StartIsMatch(lens, bits, p, s);
        StartIsMatch(lens, bits, p, last.value);
        PrefixFree(lens, bits, p, s, last.value);
      }
      if last.Some? {
        StartIsMatch(lens, bits, p, last.value);
      }
    }
  }

  lemma MatchHasLength(lens: seq<nat>, bits: seq<Bit>, p: nat, s: nat)
    requires Matches(lens, bits, p, s)
    ensures s < |lens|
  {
  }

  lemma TableFits(t: HuffmanTable, lens: seq<nat>)
    requires Represents(t, lens)
    ensures LengthsFit(lens)
  {
  }

  method DecodeSymbol(t: HuffmanTable, br: BitReader, ghost lens: seq<nat>) returns (r: Result<nat, InflateError>)
    requires br.Valid() && Represents(t, lens)
    modifies br
    ensures br.Valid()
    ensures r.Success? ==> br.At() > old(br.At())
    ensures r.Failure? ==> br.At() == old(br.At())
    ensures SymbolAgrees(r, lens, br.Stream(), old(br.At()), br.At())
  {
    hide Lsb, BitList, Pow2, Represents, LastStart, Symbol;
    TableFits(t, lens);
    SymbolIsLastStart(lens, br.Stream(), br.At());
    r := Decode(t, br, lens);
  }

  method ReadExtra(br: BitReader, base: nat, extra: nat) returns (r: Result<nat, InflateError>)
    requires br.Valid() && extra <= 13
    modifies br
    ensures br.Valid()
    ensures r.Success? ==> WithExtra(base, extra, br.Stream(), old(br.At())) == Ok(r.value, br.At())
    ensures r.Failure? ==> WithExtra(base, extra, br.Stream(), old(br.At())) == Bad
  {
    hide BitList, Pow2;
    if extra == 0 {
      return Success(base);
    }
    var v :- br.ReadBits(extra);
    return Success(base + v);
  }

  method DecodeBackReference(sym: nat, dist: HuffmanTable, br: BitReader, ghost distLens: seq<nat>)
    returns (r: Result<(nat, nat), InflateError>)
    requires br.Valid() && Represents(dist, distLens) && 257 <= sym <= 285
    modifies br
    ensures br.Valid()
    ensures r.Success? ==> br.At() >= old(br.At())
    ensures
        var spec := BackReference(distLens, sym, br.Stream(), old(br.At()));
        match r
        case Success(back) => spec == Ok(back, br.At())
        case Failure(_) => spec.Ok? ==> spec.next + 32 > |br.Stream()|
  {
    hide Lsb, BitList, Pow2, Represents, Symbol, LengthCode, DistanceCode;
    var length :- ReadExtra(br, LengthCode(sym).0, LengthCode(sym).1);
    var d :- DecodeSymbol(dist, br, distLens);
    if d >= 30 {
      return Failure(InvalidSymbol);
    }
    var distance :- ReadExtra(br, DistanceCode(d).0, DistanceCode(d).1);
    return Success((length, distance));
  }

  method DecodeCompressedBlock(br: BitReader, out: seq<Byte>, lit: HuffmanTable, dist: HuffmanTable, maxOut: nat,
                               ghost litLens: seq<nat>, ghost distLens: seq<nat>)
    returns (r: Result<seq<Byte>, InflateError>)
    requires br.Valid() && Represents(lit, litLens) && Represents(dist, distLens) && |out| <= maxOut
    modifies br
    ensures br.Valid()
    ensures r.Success? ==> br.At() > old(br.At()) && |r.value| <= maxOut
    ensures Agrees(r, br.At(), HuffmanBlock(litLens, distLens, br.Stream(), old(br.At()), out), |br.Stream()|, maxOut)
  {
    hide Lsb, BitList, Pow2, Represents, Symbol, Copy;
    ghost var bits, p := br.Stream(), br.At();
    var more := out;
    while true
      invariant br.Valid() && br.At() >= p && |more| <= maxOut
      invariant
          HuffmanBlock(litLens, distLens, bits, br.At(), more) == HuffmanBlock(litLens, distLens, bits, p, out)
      decreases |bits| - br.At()
    {
      var sym :- DecodeSymbol(lit, br, litLens);
      if sym < 256 {
        if |more| + 1 > maxOut {
          return Failure(OutputTooLarge);
        }
        more := more + [sym];
      } else if sym == 256 {
        return Success(more);
      } else if sym <= 285 {
        var back :- DecodeBackReference(sym, dist, br, distLens);
        more :- CopyFromHistory(more, back.1, back.0, maxOut);
      } else {
        return Failure(InvalidSymbol);
      }
    }
  }

  method ReadCodeLengthCode(br: BitReader, hclen: nat) returns (r: Result<seq<nat>, InflateError>)
    requires br.Valid() && hclen <= 19
    modifies br
    ensures br.Valid()
    ensures r.Success? <==> old(br.At()) + 3 * hclen <= |br.Stream()|
    ensures r.Success? ==> br.At() == old(br.At()) + 3 * hclen
    ensures r.Success? ==> r.value == CodeLengthCode(br.Stream(), old(br.At()), hclen)
  {
    hide Lsb, BitList, Pow2;
    ghost var bits, p := br.Stream(), br.At();
    var code: seq<nat> := seq(19, _ => 0);
    for i := 0 to hclen
      invariant br.Valid() && br.At() == p + 3 * i
      invariant code == CodeLengthCode(bits, p, i)
    {
      var len :- br.ReadBits(3);
      code := code[ORDER[i] := len];
    }
    return Success(code);
  }

  method ReadCodeLengths(br: BitReader, t: HuffmanTable, total: nat, ghost code: seq<nat>)
    returns (r: Result<seq<nat>, InflateError>)
    requires br.Valid() && Represents(t, code) && |code| == 19
    modifies br
    ensures br.Valid()
    ensures r.Success? ==> br.At() >= old(br.At()) && |r.value| == total && LengthsFit(r.value)
    ensures
        var spec := CodeLengths(code, total, br.Stream(), old(br.At()), []);
        match r
        case Success(lens) => spec == Ok(lens, br.At())
        case Failure(_) => spec.Ok? ==> spec.next + 32 > |br.Stream()|
  {
    hide Lsb, BitList, Pow2, Represents, Symbol;
    ghost var bits, p := br.Stream(), br.At();
    var lengths: seq<nat> := [];
    while |lengths| < total
      invariant br.Valid() && br.At() >= p && LengthsFit(lengths)
      invariant
          CodeLengths(code, total, bits, br.At(), lengths) == CodeLengths(code, total, bits, p, [])
      decreases |bits| - br.At()
    {
      var sym :- DecodeSymbol(t, br, code);
      if sym <= 15 {
        lengths := lengths + [sym];
      } else if sym == 16 {
        if |lengths| == 0 {
          return Failure(NoPreviousLength);
        }
        var repeat :- ReadExtra(br, 3, 2);
        lengths := lengths + Repeat(lengths[|lengths| - 1], repeat);
      } else if sym == 17 {
        var repeat :- ReadExtra(br, 3, 3);
        lengths := lengths + Repeat(0, repeat);
      } else if sym == 18 {
        var repeat :- ReadExtra(br, 11, 7);
        lengths := lengths + Repeat(0, repeat);
      } else {
        return Failure(InvalidSymbol);
      }
    }
    return Success(lengths[..total]);
  }

  method DecodeDynamicTables(br: BitReader)
    returns (r: Result<(HuffmanTable, HuffmanTable), InflateError>, ghost litLens: seq<nat>, ghost distLens: seq<nat>)
    requires br.Valid()
    modifies br
    ensures br.Valid()
    ensures r.Success? ==> br.At() > old(br.At())
    ensures
        var spec := DynamicTrees(br.Stream(), old(br.At()));
        match r
        case Success(tables) =>
          && spec == Ok((litLens, distLens), br.At())
          && Represents(tables.0, litLens) && Represents(tables.1, distLens)
        case Failure(_) => spec.Ok? ==> spec.next + 32 > |br.Stream()|
  {
    hide Lsb, BitList, Pow2, Represents, DeclaredTrees;
    litLens, distLens := [], [];
    ghost var bits, p := br.Stream(), br.At();
    var hlit, hdist, hclen;
    hlit :- br.ReadBits(5);
    hdist :- br.ReadBits(5);
    hclen :- br.ReadBits(4);
    SmallFields(bits, p);
    r, litLens, distLens := DecodeDeclaredTables(br, hlit + 257, hdist + 1, hclen + 4);
  }

  /** The tables behind the three counts. */
  method DecodeDeclaredTables(br: BitReader, hlit: nat, hdist: nat, hclen: nat)
    returns (r: Result<(HuffmanTable, HuffmanTable), InflateError>, ghost litLens: seq<nat>, ghost distLens: seq<nat>)
    requires br.Valid() && hclen <= 19 && hlit + hdist < 0x1_0000
    modifies br
    ensures br.Valid()
    ensures r.Success? ==> br.At() >= old(br.At())
    ensures
        var spec := DeclaredTrees(br.Stream(), old(br.At()), hlit, hdist, hclen);
        match r
        case Success(tables) =>
          && spec == Ok((litLens, distLens), br.At())
          && Represents(tables.0, litLens) && Represents(tables.1, distLens)
        case Failure(_) => spec.Ok? ==> spec.next + 32 > |br.Stream()|
  {
    hide Lsb, BitList, Pow2, Represents, Accepts, TwoTrees, CodeLengths, CodeLengthCode;
    litLens, distLens := [], [];
    var code :- ReadCodeLengthCode(br, hclen);
    var codeTable :- Build(code);
    var lengths :- ReadCodeLengths(br, codeTable, hlit + hdist, code);
    litLens, distLens := lengths[..hlit], lengths[hlit..];
    r := BuildTables(lengths, hlit, br.At());
  }

  method BuildTables(lengths: seq<nat>, hlit: nat, ghost at: nat) returns (r: Result<(HuffmanTable, HuffmanTable), InflateError>)
    requires hlit <= |lengths| < 0x1_0000 && LengthsFit(lengths)
    ensures
        var spec := TwoTrees(lengths, hlit, at);
        match r
        case Success(tables) =>
          spec.Ok? && Represents(tables.0, lengths[..hlit]) && Represents(tables.1, lengths[hlit..])
        case Failure(_) => !spec.Ok?
  {
    hide Represents, Accepts;
    var lit :- Build(lengths[..hlit]);
    var dist :- Build(lengths[hlit..]);
    return Success((lit, dist));
  }

  lemma SmallFields(bits: seq<Bit>, p: nat)
    requires p + 14 <= |bits|
    ensures Lsb(bits, p, 5) < 32 && Lsb(bits, p + 5, 5) < 32 && Lsb(bits, p + 10, 4) < 16
  {
    Pow2Values();
    assert Pow2(5) == 2 * Pow2(4);
  }

  /** The fixed trees are complete, so `build` accepts them and the `expect`s never fire. */
  lemma FixedTreesComplete()
    ensures Kraft(FixedLitLens()) == Pow2(MAX_BITS) && LengthsFit(FixedLitLens())
    ensures Kraft(FixedDistLens()) == Pow2(MAX_BITS) && LengthsFit(FixedDistLens())
  {
    hide Repeat, Kraft;
    Pow2Values();
    assert Share(8) == 0x80 && Share(9) == 0x40 && Share(7) == 0x100 && Share(5) == 0x400 by {
      assert Pow2(8) == 2 * Pow2(7) && Pow2(7) == 2 * Pow2(6);
      assert Pow2(10) == 4 * Pow2(8);
    }
    assert Kraft([]) == 0 by { KraftOfUnused([]); }
    KraftRepeat([], 8, 144);
    KraftRepeat([] + Repeat(8, 144), 9, 112);
    KraftRepeat([] + Repeat(8, 144) + Repeat(9, 112), 7, 24);
    KraftRepeat([] + Repeat(8, 144) + Repeat(9, 112) + Repeat(7, 24), 8, 8);
    KraftRepeat([], 5, 32);
    assert [] + Repeat(8, 144) == Repeat(8, 144);
    assert [] + Repeat(5, 32) == FixedDistLens();
    RepeatsFit();
  }

  lemma RepeatsFit()
    ensures LengthsFit(FixedLitLens()) && LengthsFit(FixedDistLens())
  {
  }

  method FixedTables() returns (lit: HuffmanTable, dist: HuffmanTable)
    ensures Represents(lit, FixedLitLens()) && Represents(dist, FixedDistLens())
  {
    FixedTreesComplete();
    AcceptsExactlyWhen(FixedLitLens());
    AcceptsExactlyWhen(FixedDistLens());
    hide FixedLitLens, FixedDistLens, Represents;
    var litResult := Build(FixedLitLens());
    var distResult := Build(FixedDistLens());
    return litResult.value, distResult.value;
  }

  /** Reducing at every byte in 32 bits gives the checksum reduced once at the end. */
  method Adler32(data: seq<Byte>) returns (sum: nat)
    ensures sum == AdlerSum(data)
  {
    var s1: nat, s2: nat := 1, 0;
    for i := 0 to |data|
      invariant s1 == AdlerLow(data[..i]) % 65521 && s2 == AdlerHigh(data[..i]) % 65521
    {
      AdlerStep(data, i);
      s1 := (s1 + data[i]) % 65521;
      s2 := (s2 + s1) % 65521;
    }
    assert data[..|data|] == data;
    sum := s2 * 0x1_0000 + s1;
  }

  lemma AdlerStep(data: seq<Byte>, i: nat)
    requires i < |data|
    ensures AdlerLow(data[..i + 1]) % 65521 == (AdlerLow(data[..i]) % 65521 + data[i]) % 65521
    ensures AdlerHigh(data[..i + 1]) % 65521
         == (AdlerHigh(data[..i]) % 65521 + AdlerLow(data[..i + 1]) % 65521) % 65521
  {
    assert data[..i + 1][..i] == data[..i];
    AddReduced(AdlerLow(data[..i]), data[i]);
    AddReduced(AdlerHigh(data[..i]), AdlerLow(data[..i + 1]));
  }

  lemma AddReduced(a: nat, b: nat)
    ensures (a % 65521 + b) % 65521 == (a + b) % 65521
    ensures (a % 65521 + b % 65521) % 65521 == (a + b) % 65521
  {
  }

  method DecodeBlock(kind: nat, br: BitReader, out: seq<Byte>, maxOut: nat) returns (r: Result<seq<Byte>, InflateError>)
    requires br.Valid() && |out| <= maxOut
    modifies br
    ensures br.Valid()
    ensures r.Success? ==> br.At() > old(br.At()) && |r.value| <= maxOut
    ensures Agrees(r, br.At(), OneBlock(kind, br.Stream(), old(br.At()), out), |br.Stream()|, maxOut)
  {
    hide BitList, Represents, HuffmanBlock, DynamicTrees, StoredBlock;
    if kind == 0 {
      r := DecodeStoredBlock(br, out, maxOut);
    } else if kind == 1 {
      var lit, dist := FixedTables();
      r := DecodeCompressedBlock(br, out, lit, dist, maxOut, FixedLitLens(), FixedDistLens());
    } else if kind == 2 {
      var tables, litLens, distLens := DecodeDynamicTables(br);
      if tables.Failure? {
        return Failure(tables.error);
      }
      r := DecodeCompressedBlock(br, out, tables.value.0, tables.value.1, maxOut, litLens, distLens);
    } else {
      return Failure(InvalidBlockType);
    }
  }

  method DecodeBlocks(br: BitReader, maxOut: nat) returns (r: Result<seq<Byte>, InflateError>)
    requires br.Valid()
    modifies br
    ensures br.Valid()
    ensures r.Success? ==> |r.value| <= maxOut
    ensures Agrees(r, br.At(), Blocks(br.Stream(), old(br.At()), []), |br.Stream()|, maxOut)
  {
    hide BitList, Lsb, OneBlock;
    ghost var bits, p := br.Stream(), br.At();
    var out: seq<Byte> := [];
    while true
      invariant br.Valid() && br.At() >= p && |out| <= maxOut
      invariant Blocks(bits, br.At(), out) == Blocks(bits, p, [])
      decreases |bits| - br.At()
    {
      var bfinal :- br.ReadBits(1);
      var btype :- br.ReadBits(2);
      out :- DecodeBlock(btype, br, out, maxOut);
      if bfinal == 1 {
        return Success(out);
      }
    }
  }

  method ReadChecksum(br: BitReader) returns (r: Result<nat, InflateError>)
    requires br.Valid()
    modifies br
    ensures br.Valid()
    ensures r.Success? <==> ByteBoundary(old(br.At())) + 32 <= |br.Stream()|
    ensures r.Success? ==> r.value == BigEndian32(br.Stream(), ByteBoundary(old(br.At())))
  {
    hide BitList, Lsb, Pow2;
    br.AlignToByte();
    var a0 :- br.ReadBits(8);
    var a1 :- br.ReadBits(8);
    var a2 :- br.ReadBits(8);
    var a3 :- br.ReadBits(8);
    return Success(a0 * 0x100_0000 + a1 * 0x1_0000 + a2 * 0x100 + a3);
  }

  /** `inflate_zlib`: on every input it ends and stays within the limit, and it succeeds
      exactly on the streams whose content fits the limit, and returns that content. */
  method InflateZlib(src: seq<Byte>, maxOut: nat) returns (r: Result<seq<Byte>, InflateError>)
    ensures r.Success? <==> Zlib(src).Ok? && |Zlib(src).value| <= maxOut
    ensures r.Success? ==> r.value == Zlib(src).value
  {
    hide BitList, Lsb, Blocks, AdlerSum, BigEndian32;
    if |src| < 6 {
      return Failure(StreamTooSmall);
    }
    var cmf: nat, flg: nat := src[0], src[1];
    if cmf % 16 != 8 {
      return Failure(UnsupportedMethod);
    }
    if (256 * cmf + flg) % 31 != 0 {
      return Failure(BadHeaderCheck);
    }
    if flg / 32 % 2 != 0 {
      return Failure(PresetDictionary);
    }
    var br := new BitReader(src[2..]);
    var out :- DecodeBlocks(br, maxOut);
    var expected :- ReadChecksum(br);
    var got := Adler32(out);
    if expected != got {
      return Failure(AdlerMismatch);
    }
    return Success(out);
  }
}
