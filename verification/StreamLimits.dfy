/** Where the rules of the RFCs draw the line, in numbers: the last streams that keep to them and
    the first that do not. All of them are decoded. */
module StreamLimits {
  import opened Bits
  import opened Deflate
  import opened DeflateEncoding
  import opened DeflateStreams
  import opened FixedCodes
  import opened Conformance
  import opened StreamConformance

  /** A written stream, and whether it is one of the RFCs. */
  ghost predicate Decodes(h: seq<Byte>, blocks: seq<Block>) {
    Header(h) && blocks != [] && AllWritable(blocks) && AllWritten(blocks, []).Ok?
  }

  ghost predicate InRfcs(h: seq<Byte>, blocks: seq<Block>) {
    Decodes(h, blocks) && StrictZlib(ZlibStream(h, blocks)).Ok?
  }

  lemma InRfcsExactlyWhen(h: seq<Byte>, blocks: seq<Block>)
    requires Decodes(h, blocks)
    ensures InRfcs(h, blocks) <==> h[0] / 16 <= 7 && AllConform(blocks, Pow2(h[0] / 16 + 8))
  {
    hide StrictZlib, ZlibStream, AllWritten, AllWritable, AllConform, Pow2, Zlib;
    WrittenConformsExactlyWhen(h, blocks);
  }

  /** A block that declares any two trees, and nothing else: 286 codes are the last number that
      is allowed for literals and lengths. */
  lemma CodesLimit(lit: seq<nat>, dist: seq<nat>)
    requires UsableTrees(lit, dist) && 257 <= |lit| <= 288 && 1 <= |dist| <= 32
    ensures Decodes([0x78, 0x01], [Dynamic(Plain(lit, dist), [])])
    ensures InRfcs([0x78, 0x01], [Dynamic(Plain(lit, dist), [])]) <==> |lit| <= 286
  {
    hide InRfcs, Declares, UsableTrees, RunsFit, RunsGive, Plain, Pow2;
    PlainDeclares(lit, dist);
    PlainIs(lit, dist);
    var blocks := [Dynamic(Plain(lit, dist), [])];
    assert Writable(blocks[0]);
    assert blocks[1..] == [];
    assert Written(blocks[0], []) == Ok([], 0);
    assert AllWritten(blocks, []).Ok?;
    assert 0x78 / 16 == 7 && Header([0x78, 0x01]);
    InRfcsExactlyWhen([0x78, 0x01], blocks);
    assert AllConform(blocks, Pow2(15)) <==> Conforms(blocks[0], Pow2(15));
  }

  lemma PlainIs(lit: seq<nat>, dist: seq<nat>)
    ensures Plain(lit, dist).lit == lit && Plain(lit, dist).dist == dist && Plain(lit, dist).code == PLAIN_CODE
  {
  }

  function DistanceOf(t: Token): nat
    requires t.Reference? && t.distanceSym < 30
  {
    DistanceCode(t.distanceSym).0 + t.distanceExtra
  }

  /** Some bytes and one reference to them: it may go as far back as the window of the header,
      which is at most 32768 bytes, and length 258 must be written as symbol 285. */
  lemma ReferenceLimit(h: seq<Byte>, data: seq<Byte>, t: Token)
    requires Header(h) && |data| <= 0xFFFF && t.Reference? && Encodable(t, FixedLitLens(), FixedDistLens())
    requires DistanceOf(t) <= |data|
    ensures Decodes(h, [Stored(data), Fixed([t])])
    ensures InRfcs(h, [Stored(data), Fixed([t])]) <==>
      && h[0] / 16 <= 7 && DistanceOf(t) <= Pow2(h[0] / 16 + 8) && !(t.lengthSym == 284 && t.lengthExtra == 31)
  {
    hide InRfcs, FixedLitLens, FixedDistLens, Encodable, LengthCode, DistanceCode, Copy;
    var blocks := [Stored(data), Fixed([t])];
    ReferenceIs(t);
    TwoBlocks(data, t);
    InRfcsExactlyWhen(h, blocks);
    var window := Pow2(h[0] / 16 + 8);
    hide Pow2;
    assert AllConform(blocks, window) <==> Conforms(blocks[0], window) && Conforms(blocks[1], window);
    assert Conforms(blocks[1], window) <==> TokenAllowed(t, window) by {
      assert t in [t];
    }
    LastLength(t.lengthSym, t.lengthExtra);
  }

  lemma ReferenceIs(t: Token)
    requires t.Reference? && Encodable(t, FixedLitLens(), FixedDistLens())
    ensures 257 <= t.lengthSym <= 285 && t.distanceSym < 30 && t.lengthExtra < Pow2(LengthCode(t.lengthSym).1)
  {
  }

  lemma TwoBlocks(data: seq<Byte>, t: Token)
    requires |data| <= 0xFFFF && t.Reference? && 257 <= t.lengthSym <= 285 && t.distanceSym < 30
    requires Encodable(t, FixedLitLens(), FixedDistLens()) && DistanceOf(t) <= |data|
    ensures AllWritable([Stored(data), Fixed([t])]) && AllWritten([Stored(data), Fixed([t])], []).Ok?
  {
    hide Encodable, LengthCode, FixedLitLens, FixedDistLens, Copy;
    var blocks := [Stored(data), Fixed([t])];
    assert [t][1..] == [] && blocks[1..] == [Fixed([t])] && [Fixed([t])][1..] == [];
    assert [] + data == data;
    assert After(t, data).Ok?;
    assert Meaning([t], data).Ok?;
    assert AllWritable(blocks);
    assert Written(blocks[0], []) == Ok(data, 0);
    assert AllWritten([Fixed([t])], data).Ok?;
  }

  /** Length 258 is named by its own symbol, and by symbol 284 with all extra bits set. */
  lemma LastLength(sym: nat, extra: nat)
    requires 257 <= sym <= 285 && extra < Pow2(LengthCode(sym).1)
    ensures LengthCode(sym).0 + extra == 258 <==> sym == 285 || (sym == 284 && extra == 31)
  {
    SmallPowers(1);
    SmallPowers(2);
    SmallPowers(3);
    SmallPowers(4);
    SmallPowers(5);
    assert Pow2(0) == 1;
    hide Pow2;
  }
}
