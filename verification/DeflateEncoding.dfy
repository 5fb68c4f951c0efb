/** An encoder for the DEFLATE format, and the proof that decoding inverts it: whatever
    literals and back references a compressor chooses, the decoder restores what they mean. */
module DeflateEncoding {
  import opened Bits
  import opened BitReaders
  import opened CanonicalCodes
  import opened HuffmanTables
  import opened Deflate
  import opened Inflate

  /** A reference is a length symbol and a distance symbol with the values of their extra bits. */
  datatype Token =
    | Literal(byte: Byte)
    | Reference(lengthSym: nat, lengthExtra: nat, distanceSym: nat, distanceExtra: nat)

  ghost predicate Encodable(t: Token, lit: seq<nat>, dist: seq<nat>) {
    match t
    case Literal(b) => b < |lit| && lit[b] > 0
    case Reference(l, le, d, de) =>
      && 257 <= l <= 285 && l < |lit| && lit[l] > 0 && le < Pow2(LengthCode(l).1)
      && d < 30 && d < |dist| && dist[d] > 0 && de < Pow2(DistanceCode(d).1)
  }

  /** The output after one token: `Bad` if a reference starts before the output. */
  ghost function After(t: Token, out: seq<Byte>): Parsed<seq<Byte>>
    requires t.Reference? ==> 257 <= t.lengthSym <= 285 && t.distanceSym < 30
  {
    match t
    case Literal(b) => Ok(out + [b], 0)
    case Reference(l, le, d, de) =>
      var distance := DistanceCode(d).0 + de;
      if distance <= |out| then Ok(Copy(out, distance, LengthCode(l).0 + le), 0) else Bad
  }

  /** Every symbol names a length or a distance of the format. */
  ghost predicate InFormat(tokens: seq<Token>) {
    forall t :: t in tokens && t.Reference? ==> 257 <= t.lengthSym <= 285 && t.distanceSym < 30
  }

  ghost function Meaning(tokens: seq<Token>, out: seq<Byte>): Parsed<seq<Byte>>
    requires InFormat(tokens)
  {
    if tokens == [] then Ok(out, 0)
    else
      match After(tokens[0], out)
      case Ok(more, _) => Meaning(tokens[1..], more)
      case _ => Bad
  }

  /** An n-bit number, most significant bit first. */
  function HighBits(v: nat, n: nat): (r: seq<Bit>)
    ensures |r| == n
    decreases n
  {
    if n == 0 then [] else [v / Pow2(n - 1) % 2] + HighBits(v % Pow2(n - 1), n - 1)
  }

  ghost predicate Carries(bits: seq<Bit>, p: nat, part: seq<Bit>) {
    p + |part| <= |bits| && bits[p..p + |part|] == part
  }

  lemma CarriesBoth(bits: seq<Bit>, p: nat, a: seq<Bit>, b: seq<Bit>)
    requires Carries(bits, p, a + b)
    ensures Carries(bits, p, a) && Carries(bits, p + |a|, b)
  {
    var whole := bits[p..p + |a + b|];
    assert bits[p..p + |a|] == whole[..|a|] == a;
    assert bits[p + |a|..p + |a| + |b|] == whole[|a|..] == b;
  }

  lemma {:induction false} HighBitsRead(bits: seq<Bit>, p: nat, v: nat, n: nat)
    requires v < Pow2(n) && Carries(bits, p, HighBits(v, n))
    ensures Msb(bits, p, n) == v
    decreases n
  {
    if n > 0 {
      var top, low := SplitTop(v, n);
      hide Msb, HighBits, Pow2;
      CarriesBoth(bits, p, [top], HighBits(low, n - 1));
      HighBitsRead(bits, p + 1, low, n - 1);
      assert bits[p] == bits[p..p + 1][0] == top;
      UnfoldBits(bits, p, n);
    }
  }

  lemma SplitTop(v: nat, n: nat) returns (top: Bit, low: nat)
    requires n > 0 && v < Pow2(n)
    ensures v == top * Pow2(n - 1) + low && low < Pow2(n - 1)
    ensures HighBits(v, n) == [top] + HighBits(low, n - 1)
  {
    var unit := Pow2(n - 1);
    TopBit(v, unit);
    top, low := v / unit, v % unit;
  }

  lemma TopBit(v: nat, unit: nat)
    requires v < 2 * unit
    ensures v / unit < 2 && v == v / unit * unit + v % unit
  {
    MulAtLeast(unit, v / unit - 2);
    Distribute(unit, v / unit - 2, 2);
  }

  lemma {:induction false} LowBitsRead(bits: seq<Bit>, p: nat, v: nat, n: nat)
    requires v < Pow2(n) && Carries(bits, p, LowBits(v, n))
    ensures Lsb(bits, p, n) == v
    decreases n
  {
    if n > 0 {
      CarriesBoth(bits, p, [v % 2], LowBits(v / 2, n - 1));
      LowBitsRead(bits, p + 1, v / 2, n - 1);
      assert bits[p] == bits[p..p + 1][0];
    }
  }

  ghost function SymbolBits(lens: seq<nat>, sym: nat): (r: seq<Bit>)
    requires sym < |lens|
    ensures |r| == lens[sym]
  {
    HighBits(Code(lens, sym), lens[sym])
  }

  /** Decoding a symbol inverts writing its canonical code. */
  lemma SymbolDecodes(lens: seq<nat>, sym: nat, bits: seq<Bit>, p: nat)
    requires NotOversubscribed(lens) && LengthsFit(lens)
    requires sym < |lens| && lens[sym] > 0 && Carries(bits, p, SymbolBits(lens, sym))
    ensures Symbol(lens, bits, p) == Ok(sym, p + lens[sym])
  {
    hide Code, Kraft, Msb, Pow2, HighBits;
    CodeFits(lens, sym);
    HighBitsRead(bits, p, Code(lens, sym), lens[sym]);
    assert Matches(lens, bits, p, sym);
    forall s: nat | Matches(lens, bits, p, s)
      ensures s == sym
    {
      PrefixFree(lens, bits, p, s, sym);
    }
  }

  ghost function TokenBits(t: Token, lit: seq<nat>, dist: seq<nat>): seq<Bit>
    requires Encodable(t, lit, dist)
  {
    match t
    case Literal(b) => SymbolBits(lit, b)
    case Reference(l, le, d, de) =>
      SymbolBits(lit, l) + (LowBits(le, LengthCode(l).1) + (SymbolBits(dist, d) + LowBits(de, DistanceCode(d).1)))
  }

  ghost predicate AllEncodable(tokens: seq<Token>, lit: seq<nat>, dist: seq<nat>) {
    forall t :: t in tokens ==> Encodable(t, lit, dist)
  }

  /** The tokens and the end-of-block symbol. */
  ghost function BlockBits(tokens: seq<Token>, lit: seq<nat>, dist: seq<nat>): seq<Bit>
    requires |lit| > 256 && AllEncodable(tokens, lit, dist)
  {
    if tokens == [] then SymbolBits(lit, 256)
    else TokenBits(tokens[0], lit, dist) + BlockBits(tokens[1..], lit, dist)
  }

  ghost predicate UsableTrees(lit: seq<nat>, dist: seq<nat>) {
    && NotOversubscribed(lit) && LengthsFit(lit) && |lit| > 256 && lit[256] > 0
    && NotOversubscribed(dist) && LengthsFit(dist)
  }

  lemma ExtraRead(base: nat, extra: nat, bits: seq<Bit>, p: nat, v: nat)
    requires v < Pow2(extra) && Carries(bits, p, LowBits(v, extra))
    ensures WithExtra(base, extra, bits, p) == Ok(base + v, p + extra)
  {
    hide Lsb, LowBits, Pow2;
    LowBitsRead(bits, p, v, extra);
  }

  /** The four parts of a written reference stand one after the other. */
  lemma ReferenceParts(t: Token, lit: seq<nat>, dist: seq<nat>, bits: seq<Bit>, p: nat)
    requires t.Reference? && Encodable(t, lit, dist) && Carries(bits, p, TokenBits(t, lit, dist))
    ensures
        var q := p + lit[t.lengthSym];
        var q2 := q + LengthCode(t.lengthSym).1;
        var q3 := q2 + dist[t.distanceSym];
        && Carries(bits, p, SymbolBits(lit, t.lengthSym))
        && Carries(bits, q, LowBits(t.lengthExtra, LengthCode(t.lengthSym).1))
        && Carries(bits, q2, SymbolBits(dist, t.distanceSym))
        && Carries(bits, q3, LowBits(t.distanceExtra, DistanceCode(t.distanceSym).1))
        && p + |TokenBits(t, lit, dist)| == q3 + DistanceCode(t.distanceSym).1
  {
    hide Carries, SymbolBits, LowBits, LengthCode, DistanceCode, Pow2;
    var lenSym, distSym := SymbolBits(lit, t.lengthSym), SymbolBits(dist, t.distanceSym);
    var lenExtra := LowBits(t.lengthExtra, LengthCode(t.lengthSym).1);
    var distExtra := LowBits(t.distanceExtra, DistanceCode(t.distanceSym).1);
    CarriesBoth(bits, p, lenSym, lenExtra + (distSym + distExtra));
    CarriesBoth(bits, p + |lenSym|, lenExtra, distSym + distExtra);
    CarriesBoth(bits, p + |lenSym| + |lenExtra|, distSym, distExtra);
  }

  lemma ReferenceDecodes(t: Token, lit: seq<nat>, dist: seq<nat>, bits: seq<Bit>, p: nat)
    requires UsableTrees(lit, dist) && t.Reference? && Encodable(t, lit, dist)
    requires Carries(bits, p, TokenBits(t, lit, dist))
    ensures Symbol(lit, bits, p) == Ok(t.lengthSym, p + lit[t.lengthSym])
    ensures BackReference(dist, t.lengthSym, bits, p + lit[t.lengthSym])
         == Ok((LengthCode(t.lengthSym).0 + t.lengthExtra, DistanceCode(t.distanceSym).0 + t.distanceExtra),
               p + |TokenBits(t, lit, dist)|)
  {
    hide Symbol, WithExtra, LowBits, Pow2, SymbolBits, TokenBits, Carries, LengthCode, DistanceCode, NotOversubscribed, LengthsFit;
    var Reference(l, le, d, de) := t;
    ReferenceParts(t, lit, dist, bits, p);
    var q := p + lit[l];
    var q2 := q + LengthCode(l).1;
    SymbolDecodes(lit, l, bits, p);
    ExtraRead(LengthCode(l).0, LengthCode(l).1, bits, q, le);
    SymbolDecodes(dist, d, bits, q2);
    ExtraRead(DistanceCode(d).0, DistanceCode(d).1, bits, q2 + dist[d], de);
  }

  /** One token of a block: what the decoder does with it, and where it goes on. */
  lemma TokenDecodes(t: Token, lit: seq<nat>, dist: seq<nat>, bits: seq<Bit>, p: nat, out: seq<Byte>)
    requires UsableTrees(lit, dist) && Encodable(t, lit, dist) && Carries(bits, p, TokenBits(t, lit, dist))
    requires After(t, out).Ok?
    ensures HuffmanBlock(lit, dist, bits, p, out)
         == HuffmanBlock(lit, dist, bits, p + |TokenBits(t, lit, dist)|, After(t, out).value)
  {
    hide Symbol, BackReference, HuffmanBlock, UsableTrees, SymbolBits, LowBits, Pow2, Carries, LengthCode, DistanceCode;
    if t.Literal? {
      LiteralDecodes(t.byte, lit, dist, bits, p, out);
    } else {
      ReferenceToken(t, lit, dist, bits, p, out);
    }
  }

  lemma ReferenceToken(t: Token, lit: seq<nat>, dist: seq<nat>, bits: seq<Bit>, p: nat, out: seq<Byte>)
    requires UsableTrees(lit, dist) && Encodable(t, lit, dist) && Carries(bits, p, TokenBits(t, lit, dist))
    requires t.Reference? && After(t, out).Ok?
    ensures HuffmanBlock(lit, dist, bits, p, out)
         == HuffmanBlock(lit, dist, bits, p + |TokenBits(t, lit, dist)|, After(t, out).value)
  {
    hide Symbol, BackReference, HuffmanBlock, UsableTrees, TokenBits, Copy, LengthCode, DistanceCode;
    ReferenceDecodes(t, lit, dist, bits, p);
    ReferenceStep(lit, dist, bits, p, out);
  }

  /** A decoded reference is copied, and the block goes on behind it. */
  lemma ReferenceStep(lit: seq<nat>, dist: seq<nat>, bits: seq<Bit>, p: nat, out: seq<Byte>)
    requires p <= |bits| && Symbol(lit, bits, p).Ok? && 257 <= Symbol(lit, bits, p).value <= 285
    requires
      var back := BackReference(dist, Symbol(lit, bits, p).value, bits, Symbol(lit, bits, p).next);
      back.Ok? && 1 <= back.value.1 <= |out|
    ensures
        var back := BackReference(dist, Symbol(lit, bits, p).value, bits, Symbol(lit, bits, p).next);
        HuffmanBlock(lit, dist, bits, p, out) == HuffmanBlock(lit, dist, bits, back.next, Copy(out, back.value.1, back.value.0))
  {
    hide Symbol, BackReference, Copy;
  }

  lemma LiteralDecodes(b: Byte, lit: seq<nat>, dist: seq<nat>, bits: seq<Bit>, p: nat, out: seq<Byte>)
    requires UsableTrees(lit, dist) && Encodable(Literal(b), lit, dist) && Carries(bits, p, SymbolBits(lit, b))
    ensures HuffmanBlock(lit, dist, bits, p, out) == HuffmanBlock(lit, dist, bits, p + lit[b], out + [b])
  {
    hide Symbol, BackReference, NotOversubscribed, SymbolBits, LengthsFit;
    SymbolDecodes(lit, b, bits, p);
  }

  /** A block decodes to what its tokens mean, for every tree pair and every token list. */
  lemma {:induction false} BlockDecodes(tokens: seq<Token>, lit: seq<nat>, dist: seq<nat>, bits: seq<Bit>, p: nat, out: seq<Byte>)
    requires UsableTrees(lit, dist) && AllEncodable(tokens, lit, dist)
    requires Carries(bits, p, BlockBits(tokens, lit, dist))
    requires InFormat(tokens) && Meaning(tokens, out).Ok?
    ensures HuffmanBlock(lit, dist, bits, p, out)
         == Ok(Meaning(tokens, out).value, p + |BlockBits(tokens, lit, dist)|)
  {
    hide *;
    if tokens == [] {
      EndOfBlock(lit, dist, bits, p, out);
    } else {
      FirstAndRest(tokens, lit, dist, out);
      var t, rest := tokens[0], tokens[1..];
      CarriesBoth(bits, p, TokenBits(t, lit, dist), BlockBits(rest, lit, dist));
      TokenDecodes(t, lit, dist, bits, p, out);
      BlockDecodes(rest, lit, dist, bits, p + |TokenBits(t, lit, dist)|, After(t, out).value);
    }
  }

  lemma EndOfBlock(lit: seq<nat>, dist: seq<nat>, bits: seq<Bit>, p: nat, out: seq<Byte>)
    requires UsableTrees(lit, dist) && Carries(bits, p, BlockBits([], lit, dist))
    ensures HuffmanBlock(lit, dist, bits, p, out)
         == Ok(Meaning([], out).value, p + |BlockBits([], lit, dist)|)
  {
    hide Symbol, BackReference, NotOversubscribed, SymbolBits;
    SymbolDecodes(lit, 256, bits, p);
  }

  lemma FirstAndRest(tokens: seq<Token>, lit: seq<nat>, dist: seq<nat>, out: seq<Byte>)
    requires tokens != [] && UsableTrees(lit, dist) && AllEncodable(tokens, lit, dist) && InFormat(tokens)
    requires Meaning(tokens, out).Ok?
    ensures |lit| > 256 && Encodable(tokens[0], lit, dist) && AllEncodable(tokens[1..], lit, dist) && InFormat(tokens[1..])
    ensures After(tokens[0], out).Ok? && Meaning(tokens[1..], After(tokens[0], out).value) == Meaning(tokens, out)
    ensures BlockBits(tokens, lit, dist) == TokenBits(tokens[0], lit, dist) + BlockBits(tokens[1..], lit, dist)
  {
  }

  ghost function Pack(bits: seq<Bit>): (r: seq<Byte>)
    requires |bits| % 8 == 0
    ensures |r| == |bits| / 8
  {
    seq(|bits| / 8, i requires 0 <= i < |bits| / 8 => ByteAt(bits, 8 * i))
  }

  /** Bit k of a number read from the list is the k-th bit that was read. */
  lemma BitOfLsb(bits: seq<Bit>, p: nat, n: nat, k: nat)
    requires k < n && p + n <= |bits|
    ensures Lsb(bits, p, n) / Pow2(k) % 2 == bits[p + k]
  {
    hide *;
    var high := Lsb(bits, p + k, n - k);
    assert Lsb(bits, p, n) / Pow2(k) == high by { SplitBits(bits, p, k, n - k); }
    UnfoldBits(bits, p + k, n - k);
    LastBit(bits[p + k], Lsb(bits, p + k + 1, n - k - 1));
  }

  lemma PackBits(bits: seq<Bit>)
    requires |bits| % 8 == 0
    ensures BitList(Pack(bits)) == bits
  {
    forall k: nat | k < |bits|
      ensures BitAt(Pack(bits), k) == bits[k]
    {
      BitOfLsb(bits, 8 * (k / 8), 8, k % 8);
    }
  }

  lemma BitListOfBoth(a: seq<Byte>, b: seq<Byte>)
    ensures BitList(a + b) == BitList(a) + BitList(b)
  {
    forall k: nat | 8 * |a| <= k < 8 * |a + b|
      ensures BitList(a + b)[k] == BitList(b)[k - 8 * |a|]
    {
      assert k / 8 == |a| + (k - 8 * |a|) / 8 && k % 8 == (k - 8 * |a|) % 8;
    }
  }

  ghost function ChecksumBytes(sum: nat): (r: seq<Byte>)
    requires sum < 0x1_0000_0000
    ensures |r| == 4
    ensures (r[0] as int) * 0x100_0000 + (r[1] as int) * 0x1_0000 + (r[2] as int) * 0x100 + r[3] == sum
  {
    var high, low := sum / 0x1_0000, sum % 0x1_0000;
    [high / 0x100, high % 0x100, low / 0x100, low % 0x100]
  }

  lemma AdlerFits(data: seq<Byte>)
    ensures AdlerSum(data) < 0x1_0000_0000
  {
  }

  lemma FixedTreesUsable()
    ensures UsableTrees(FixedLitLens(), FixedDistLens())
  {
    FixedTreesComplete();
  }

  lemma StoredChecksum(packed: seq<Byte>, sum: seq<Byte>)
    requires |sum| == 4
    ensures BigEndian32(BitList(packed + sum), 8 * |packed|)
         == (sum[0] as int) * 0x100_0000 + (sum[1] as int) * 0x1_0000 + (sum[2] as int) * 0x100 + sum[3]
  {
    hide BitList, Lsb;
    var n := |packed|;
    ByteFromBits(packed + sum, n);
    ByteFromBits(packed + sum, n + 1);
    ByteFromBits(packed + sum, n + 2);
    ByteFromBits(packed + sum, n + 3);
  }
}
