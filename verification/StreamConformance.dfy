/** Which of the streams an encoder may write are streams of the RFCs. All of them are decoded. */
module StreamConformance {
  import opened Wrappers
  import opened Bits
  import opened CanonicalCodes
  import opened HuffmanTables
  import opened Deflate
  import opened DeflateEncoding
  import opened DeflateStreams
  import opened Conformance

  predicate TokenAllowed(t: Token, window: nat)
    requires t.Reference? ==> 257 <= t.lengthSym <= 285 && t.distanceSym < 30
  {
    t.Reference? ==>
      Allowed(t.lengthSym, (LengthCode(t.lengthSym).0 + t.lengthExtra, DistanceCode(t.distanceSym).0 + t.distanceExtra), window)
  }

  ghost predicate TokensAllowed(tokens: seq<Token>, window: nat)
    requires InFormat(tokens)
  {
    forall t :: t in tokens ==> TokenAllowed(t, window)
  }

  /** The runs give exactly as many lengths as there are codes. */
  ghost predicate RunsFit(runs: seq<Run>, code: seq<nat>, acc: seq<nat>, lens: seq<nat>)
    requires RunsGive(runs, code, acc, lens)
    decreases |runs|
  {
    if runs == [] then |acc| == |lens| else RunsFit(runs[1..], code, acc + RunLengths(runs[0], acc), lens)
  }

  ghost predicate Conforms(b: Block, window: nat)
    requires Writable(b)
  {
    match b
    case Stored(_) => true
    case Fixed(tokens) => TokensAllowed(tokens, window)
    case Dynamic(d, tokens) =>
      |d.lit| <= 286 && RunsFit(d.runs, d.code, [], d.lit + d.dist) && TokensAllowed(tokens, window)
  }

  lemma LiteralIsNear(b: Byte, lit: seq<nat>, dist: seq<nat>, bits: seq<Bit>, p: nat, out: seq<Byte>, window: nat)
    requires UsableTrees(lit, dist) && Encodable(Literal(b), lit, dist) && Carries(bits, p, SymbolBits(lit, b))
    ensures FarReference(lit, dist, bits, p, out, window) == FarReference(lit, dist, bits, p + lit[b], out + [b], window)
  {
    hide Symbol, BackReference, NotOversubscribed, SymbolBits, LengthsFit, Allowed;
    SymbolDecodes(lit, b, bits, p);
  }

  lemma ReferenceIsAllowed(t: Token, lit: seq<nat>, dist: seq<nat>, bits: seq<Bit>, p: nat, out: seq<Byte>, window: nat)
    requires UsableTrees(lit, dist) && Encodable(t, lit, dist) && Carries(bits, p, TokenBits(t, lit, dist))
    requires t.Reference? && After(t, out).Ok? && p + |TokenBits(t, lit, dist)| <= |bits|
    ensures FarReference(lit, dist, bits, p, out, window) <==>
        || !TokenAllowed(t, window)
        || FarReference(lit, dist, bits, p + |TokenBits(t, lit, dist)|, After(t, out).value, window)
  {
    hide Symbol, BackReference, FarReference, UsableTrees, TokenBits, Copy, LengthCode, DistanceCode, Allowed;
    ReferenceDecodes(t, lit, dist, bits, p);
    FarStep(lit, dist, bits, p, out, window);
  }

  lemma FarStep(lit: seq<nat>, dist: seq<nat>, bits: seq<Bit>, p: nat, out: seq<Byte>, window: nat)
    requires p <= |bits| && Symbol(lit, bits, p).Ok? && 257 <= Symbol(lit, bits, p).value <= 285
    requires
      var back := BackReference(dist, Symbol(lit, bits, p).value, bits, Symbol(lit, bits, p).next);
      back.Ok? && 1 <= back.value.1 <= |out|
    ensures
        var sym := Symbol(lit, bits, p).value;
        var back := BackReference(dist, sym, bits, Symbol(lit, bits, p).next);
        FarReference(lit, dist, bits, p, out, window) <==>
          || !Allowed(sym, back.value, window)
          || FarReference(lit, dist, bits, back.next, Copy(out, back.value.1, back.value.0), window)
  {
    hide Symbol, BackReference, Copy, Allowed;
  }

  lemma TokenStep(t: Token, lit: seq<nat>, dist: seq<nat>, bits: seq<Bit>, p: nat, out: seq<Byte>, window: nat)
    requires UsableTrees(lit, dist) && Encodable(t, lit, dist) && Carries(bits, p, TokenBits(t, lit, dist))
    requires After(t, out).Ok? && p + |TokenBits(t, lit, dist)| <= |bits|
    ensures FarReference(lit, dist, bits, p, out, window) <==>
        || !TokenAllowed(t, window)
        || FarReference(lit, dist, bits, p + |TokenBits(t, lit, dist)|, After(t, out).value, window)
  {
    hide Symbol, BackReference, FarReference, UsableTrees, SymbolBits, LowBits, Pow2, Carries, LengthCode, DistanceCode, Allowed;
    if t.Literal? {
      LiteralIsNear(t.byte, lit, dist, bits, p, out, window);
    } else {
      ReferenceIsAllowed(t, lit, dist, bits, p, out, window);
    }
  }

  lemma EndIsNear(lit: seq<nat>, dist: seq<nat>, bits: seq<Bit>, p: nat, out: seq<Byte>, window: nat)
    requires UsableTrees(lit, dist) && Carries(bits, p, BlockBits([], lit, dist))
    ensures !FarReference(lit, dist, bits, p, out, window)
  {
    hide Symbol, BackReference, NotOversubscribed, SymbolBits, Allowed;
    SymbolDecodes(lit, 256, bits, p);
  }

  lemma {:induction false} BlockIsNear(tokens: seq<Token>, lit: seq<nat>, dist: seq<nat>, bits: seq<Bit>, p: nat, out: seq<Byte>, window: nat)
    requires UsableTrees(lit, dist) && AllEncodable(tokens, lit, dist)
    requires Carries(bits, p, BlockBits(tokens, lit, dist))
    requires InFormat(tokens) && Meaning(tokens, out).Ok?
    ensures p <= |bits| && (FarReference(lit, dist, bits, p, out, window) <==> !TokensAllowed(tokens, window))
    decreases |tokens|
  {
    hide FarReference, BlockBits, TokenBits, Carries, Meaning, After, NotOversubscribed, TokensAllowed, TokenAllowed;
    CarriesInside(bits, p, BlockBits(tokens, lit, dist));
    if tokens == [] {
      EndIsNear(lit, dist, bits, p, out, window);
      NoTokens(window);
    } else {
      FirstAndRest(tokens, lit, dist, out);
      var t, rest := tokens[0], tokens[1..];
      CarriesBoth(bits, p, TokenBits(t, lit, dist), BlockBits(rest, lit, dist));
      CarriesInside(bits, p, TokenBits(t, lit, dist));
      TokenStep(t, lit, dist, bits, p, out, window);
      BlockIsNear(rest, lit, dist, bits, p + |TokenBits(t, lit, dist)|, After(t, out).value, window);
      FirstToken(tokens, window);
    }
  }

  lemma NoTokens(window: nat)
    ensures TokensAllowed([], window)
  {
  }

  lemma FirstToken(tokens: seq<Token>, window: nat)
    requires InFormat(tokens) && tokens != []
    ensures InFormat(tokens[1..]) && (tokens[0].Reference? ==> 257 <= tokens[0].lengthSym <= 285 && tokens[0].distanceSym < 30)
    ensures TokensAllowed(tokens, window) <==> TokenAllowed(tokens[0], window) && TokensAllowed(tokens[1..], window)
  {
    hide TokenAllowed;
    assert tokens == [tokens[0]] + tokens[1..];
  }

  lemma {:induction false} RunsOvershoot(runs: seq<Run>, code: seq<nat>, lens: seq<nat>, bits: seq<Bit>, p: nat, acc: seq<nat>)
    requires forall i :: 0 <= i < |runs| ==> RunWritable(runs[i], code)
    requires |code| == 19 && NotOversubscribed(code) && LengthsFit(code)
    requires RunsGive(runs, code, acc, lens) && Carries(bits, p, RunsBits(runs, code))
    ensures p <= |bits| && (Overshoots(code, |lens|, bits, p, acc) <==> !RunsFit(runs, code, acc, lens))
    decreases |runs|
  {
    hide RunBits, RunWritable, NotOversubscribed, Carries, Overshoots, RunLengths;
    CarriesInside(bits, p, RunsBits(runs, code));
    if runs == [] {
      OvershootEnd(code, lens, bits, p, acc);
    } else {
      CarriesBoth(bits, p, RunBits(runs[0], code), RunsBits(runs[1..], code));
      CarriesInside(bits, p, RunBits(runs[0], code));
      RunStep(runs[0], code, |lens|, bits, p, acc);
      RunsOvershoot(runs[1..], code, lens, bits, p + |RunBits(runs[0], code)|, acc + RunLengths(runs[0], acc));
    }
  }

  lemma OvershootEnd(code: seq<nat>, lens: seq<nat>, bits: seq<Bit>, p: nat, acc: seq<nat>)
    requires |code| == 19 && p <= |bits| && |acc| >= |lens|
    ensures Overshoots(code, |lens|, bits, p, acc) <==> |acc| != |lens|
  {
  }

  lemma RunStep(r: Run, code: seq<nat>, total: nat, bits: seq<Bit>, p: nat, acc: seq<nat>)
    requires RunWritable(r, code) && NotOversubscribed(code) && LengthsFit(code) && Carries(bits, p, RunBits(r, code))
    requires |acc| < total && (r.Again? ==> acc != []) && p + |RunBits(r, code)| <= |bits|
    ensures Overshoots(code, total, bits, p, acc)
         == Overshoots(code, total, bits, p + |RunBits(r, code)|, acc + RunLengths(r, acc))
  {
    hide Symbol, WithExtra, Pow2, NotOversubscribed, Carries, RunBits;
    RunRead(r, code, bits, p);
    if r.Len? {
      NoExtra(bits, p + code[RunSymbol(r)], p + |RunBits(r, code)|);
    }
  }

  lemma DeclarationIsBad(d: Declaration, bits: seq<Bit>, p: nat)
    requires Declares(d) && Carries(bits, p, DeclarationBits(d))
    ensures p <= |bits| && DynamicTrees(bits, p).Ok?
    ensures BadDeclaration(bits, p) <==> |d.lit| > 286 || !RunsFit(d.runs, d.code, [], d.lit + d.dist)
  {
    hide Carries, LowBits, Lsb, CodeBits, RunsBits, DynamicTrees, RunsGive, RunWritable, FirstLengths, NotOversubscribed, Pow2,
         Overshoots, CodeLengthCode, RunsFit;
    DeclarationDecodes(d, bits, p);
    DeclarationParts(d, bits, p);
    CodeRead(d.code, d.count, bits, p + 14);
    RunsOvershoot(d.runs, d.code, d.lit + d.dist, bits, p + 14 + 3 * d.count, []);
  }

  lemma DeclarationParts(d: Declaration, bits: seq<Bit>, p: nat)
    requires Declares(d) && Carries(bits, p, DeclarationBits(d))
    ensures p + 14 + 3 * d.count <= |bits|
    ensures Lsb(bits, p, 5) + 257 == |d.lit| && Lsb(bits, p + 5, 5) + 1 == |d.dist| && Lsb(bits, p + 10, 4) + 4 == d.count
    ensures Carries(bits, p + 14, CodeBits(d.code, d.count))
    ensures Carries(bits, p + 14 + 3 * d.count, RunsBits(d.runs, d.code))
  {
    hide Carries, LowBits, Lsb, CodeBits, RunsBits, RunsGive, RunWritable, FirstLengths, NotOversubscribed, Pow2, UsableTrees;
    assert Pow2(5) == 32 && Pow2(4) == 16 by { Pow2Values(); UnfoldPow2(4); }
    var code, runs := CodeBits(d.code, d.count), RunsBits(d.runs, d.code);
    var c := LowBits(d.count - 4, 4);
    CarriesBoth(bits, p, LowBits(|d.lit| - 257, 5), LowBits(|d.dist| - 1, 5) + (c + (code + runs)));
    CarriesBoth(bits, p + 5, LowBits(|d.dist| - 1, 5), c + (code + runs));
    CarriesBoth(bits, p + 10, c, code + runs);
    CarriesBoth(bits, p + 14, code, runs);
    CarriesInside(bits, p + 14, code);
    LowBitsRead(bits, p, |d.lit| - 257, 5);
    LowBitsRead(bits, p + 5, |d.dist| - 1, 5);
    LowBitsRead(bits, p + 10, d.count - 4, 4);
  }

  lemma BodyBreaks(b: Block, bits: seq<Bit>, p: nat, out: seq<Byte>, window: nat)
    requires Writable(b) && Written(b, out).Ok? && Carries(bits, p, BodyBits(b, p))
    ensures p <= |bits| && (BreaksBlock(Kind(b), bits, p, out, window) <==> !Conforms(b, window))
  {
    hide FarReference, DynamicTrees, Declares, DeclarationBits, BlockBits, Meaning, AllEncodable, UsableTrees, BadDeclaration,
         FixedLitLens, FixedDistLens, RunsFit, TokensAllowed, Carries;
    CarriesInside(bits, p, BodyBits(b, p));
    match b {
      case Stored(_) =>
      case Fixed(tokens) =>
        FixedTreesUsable();
        BlockIsNear(tokens, FixedLitLens(), FixedDistLens(), bits, p, out, window);
      case Dynamic(trees, tokens) =>
        DeclaredAreUsable(trees);
        CarriesBoth(bits, p, DeclarationBits(trees), BlockBits(tokens, trees.lit, trees.dist));
        DeclarationDecodes(trees, bits, p);
        DeclarationIsBad(trees, bits, p);
        BlockIsNear(tokens, trees.lit, trees.dist, bits, p + |DeclarationBits(trees)|, out, window);
    }
  }

  ghost predicate AllConform(blocks: seq<Block>, window: nat)
    requires AllWritable(blocks)
  {
    forall i :: 0 <= i < |blocks| ==> Conforms(blocks[i], window)
  }

  lemma {:induction false} BlocksBreak(blocks: seq<Block>, bits: seq<Bit>, p: nat, out: seq<Byte>, window: nat)
    requires blocks != [] && AllWritable(blocks) && AllWritten(blocks, out).Ok? && Carries(bits, p, BlocksBits(blocks, p))
    ensures p <= |bits| && (BreaksBlocks(bits, p, out, window) <==> !AllConform(blocks, window))
    decreases |blocks|
  {
    hide Writable, BodyBits, Written, OneBlock, LowBits, Carries, Lsb, BreaksBlock, Conforms;
    var b, rest := blocks[0], blocks[1..];
    var final: Bit := if |blocks| == 1 then 1 else 0;
    var header, body := [final] + LowBits(Kind(b), 2), BodyBits(b, p + 3);
    var others := BlocksBits(rest, p + 3 + |body|);
    CarriesBoth(bits, p, header, body + others);
    CarriesBoth(bits, p + 3, body, others);
    HeaderRead(final, Kind(b), bits, p);
    BodyDecodes(b, bits, p + 3, out);
    BodyBreaks(b, bits, p + 3, out, window);
    FirstConforms(blocks, window);
    if rest != [] {
      BlocksBreak(rest, bits, p + 3 + |body|, Written(b, out).value, window);
    }
  }

  lemma FirstConforms(blocks: seq<Block>, window: nat)
    requires blocks != [] && AllWritable(blocks)
    ensures AllWritable(blocks[1..])
    ensures AllConform(blocks, window) <==> Conforms(blocks[0], window) && AllConform(blocks[1..], window)
  {
    hide Conforms, Writable;
    if Conforms(blocks[0], window) && AllConform(blocks[1..], window) {
      forall i | 0 <= i < |blocks|
        ensures Conforms(blocks[i], window)
      {
        assert i > 0 ==> blocks[i] == blocks[1..][i - 1];
      }
    }
    if AllConform(blocks, window) {
      forall i | 0 <= i < |blocks[1..]|
        ensures Conforms(blocks[1..][i], window)
      {
        assert blocks[1..][i] == blocks[i + 1];
      }
    }
  }

  /** A written stream is decoded to what it means, and it is a stream of the RFCs exactly when
      its window is at most 32768 bytes and every block keeps to the rules. */
  lemma WrittenConformsExactlyWhen(h: seq<Byte>, blocks: seq<Block>)
    requires Header(h) && blocks != [] && AllWritable(blocks) && AllWritten(blocks, []).Ok?
    ensures
        var stream := ZlibStream(h, blocks);
        && Zlib(stream).Ok? && Zlib(stream).value == AllWritten(blocks, []).value
        && (StrictZlib(stream).Ok? <==> h[0] / 16 <= 7 && AllConform(blocks, Pow2(h[0] / 16 + 8)))
  {
    hide AllWritten, AllWritable, BlocksBits, AdlerSum, BitList, Pack, ChecksumBytes, StreamBits, Carries, Zlib, StrictZlib,
         BreaksBlocks, AllConform, Pow2;
    var out := AllWritten(blocks, []).value;
    AdlerFits(out);
    var packed, sum := Pack(StreamBits(blocks)), ChecksumBytes(AdlerSum(out));
    var stream := ZlibStream(h, blocks);
    assert stream[2..] == packed + sum && stream[0] == h[0];
    ZlibDecodes(h, blocks);
    OutsideExactlyWhen(stream);
    PackBits(StreamBits(blocks));
    BitListOfBoth(packed, sum);
    StreamStarts(blocks, BitList(packed + sum), BitList(sum));
    BlocksBreak(blocks, BitList(packed + sum), 0, [], Pow2(h[0] / 16 + 8));
  }

  /** A code of the code lengths with which every length can be written. */
  const PLAIN_CODE: seq<nat> := [4, 4, 4, 4, 4, 4, 4, 4, 4, 4, 4, 4, 4, 4, 4, 4, 0, 0, 0]

  /** Where each code stands in the order of the format. */
  const PLACE: seq<nat> := [3, 17, 15, 13, 11, 9, 7, 5, 4, 6, 8, 10, 12, 14, 16, 18, 0, 1, 2]

  function PlainRuns(lens: seq<nat>): (r: seq<Run>)
    ensures |r| == |lens| && forall i :: 0 <= i < |lens| ==> r[i] == Len(lens[i])
  {
    if lens == [] then [] else [Len(lens[0])] + PlainRuns(lens[1..])
  }

  /** Any two trees, declared length by length. */
  function Plain(lit: seq<nat>, dist: seq<nat>): Declaration {
    Declaration(PLAIN_CODE, 19, PlainRuns(lit + dist), lit, dist)
  }

  lemma {:induction false} FirstLengthsKeep(code: seq<nat>, n: nat)
    requires |code| == 19 && n <= 19
    ensures forall i :: 0 <= i < n ==> FirstLengths(code, n)[ORDER[i]] == code[ORDER[i]]
  {
    hide FirstLengths;
    if n > 0 {
      FirstLengthsKeep(code, n - 1);
      FirstLengthsStep(code, n);
    }
  }

  lemma FirstLengthsStep(code: seq<nat>, n: nat)
    requires |code| == 19 && 0 < n <= 19
    ensures FirstLengths(code, n) == FirstLengths(code, n - 1)[ORDER[n - 1] := code[ORDER[n - 1]]]
  {
  }

  lemma AllLengths(code: seq<nat>)
    requires |code| == 19
    ensures FirstLengths(code, 19) == code
  {
    hide FirstLengths;
    FirstLengthsKeep(code, 19);
    forall j | 0 <= j < 19
      ensures FirstLengths(code, 19)[j] == code[j]
    {
      assert 0 <= PLACE[j] < 19 && ORDER[PLACE[j]] == j;
    }
  }

  lemma PlainCodeFits()
    ensures NotOversubscribed(PLAIN_CODE)
  {
    assert PLAIN_CODE == [] + Repeat(4, 16) + Repeat(0, 3);
    hide Kraft, Repeat;
    KraftRepeat([], 4, 16);
    KraftRepeat([] + Repeat(4, 16), 0, 3);
    assert Kraft([]) == 0 by { KraftOfUnused([]); }
    Pow2Values();
    Pow2Add(4, 11);
  }

  lemma {:induction false} PlainRunsGive(acc: seq<nat>, rest: seq<nat>)
    requires LengthsFit(rest)
    ensures RunsGive(PlainRuns(rest), PLAIN_CODE, acc, acc + rest)
    ensures RunsFit(PlainRuns(rest), PLAIN_CODE, acc, acc + rest)
    ensures forall i :: 0 <= i < |rest| ==> RunWritable(PlainRuns(rest)[i], PLAIN_CODE)
    decreases rest
  {
    if rest == [] {
      assert acc + rest == acc && acc[..|acc|] == acc;
    } else {
      PlainRunsGive(acc + [rest[0]], rest[1..]);
      assert acc + [rest[0]] + rest[1..] == acc + rest;
      assert PlainRuns(rest)[1..] == PlainRuns(rest[1..]);
      LengthIsWritable(rest[0]);
      forall i | 0 <= i < |rest|
        ensures RunWritable(PlainRuns(rest)[i], PLAIN_CODE)
      {
        assert i > 0 ==> PlainRuns(rest)[i] == PlainRuns(rest[1..])[i - 1];
      }
    }
  }

  lemma LengthIsWritable(len: nat)
    requires len <= 15
    ensures RunWritable(Len(len), PLAIN_CODE)
  {
  }

  /** Every pair of trees with at most 288 and 32 codes can be declared. */
  lemma PlainDeclares(lit: seq<nat>, dist: seq<nat>)
    requires UsableTrees(lit, dist) && 257 <= |lit| <= 288 && 1 <= |dist| <= 32
    ensures Declares(Plain(lit, dist)) && RunsFit(Plain(lit, dist).runs, PLAIN_CODE, [], lit + dist)
  {
    hide FirstLengths, NotOversubscribed, RunsGive, RunsFit, RunWritable;
    AllLengths(PLAIN_CODE);
    PlainCodeFits();
    PlainRunsGive([], lit + dist);
    assert [] + (lit + dist) == lit + dist;
  }

  /** A stream that is taken although it is outside the RFCs. */
  ghost predicate TakenOutside(h: seq<Byte>, blocks: seq<Block>) {
    && Header(h) && blocks != [] && AllWritable(blocks) && AllWritten(blocks, []).Ok?
    && Zlib(ZlibStream(h, blocks)).Ok? && !StrictZlib(ZlibStream(h, blocks)).Ok?
  }

  lemma Outside(h: seq<Byte>, blocks: seq<Block>)
    requires Header(h) && blocks != [] && AllWritable(blocks) && AllWritten(blocks, []).Ok?
    requires h[0] / 16 > 7 || !AllConform(blocks, Pow2(h[0] / 16 + 8))
    ensures TakenOutside(h, blocks)
  {
    hide ZlibStream, Zlib, StrictZlib, AllWritten, AllWritable, AllConform, Pow2;
    WrittenConformsExactlyWhen(h, blocks);
  }

  function ManyCodes(): Block {
    Dynamic(Plain(FixedLitLens(), FixedDistLens()), [])
  }

  /** 257 zeros, and a reference to the first of them. */
  function FarBlocks(): seq<Block> {
    [Stored(Zeros(257)), Fixed([Reference(257, 0, 16, 0)])]
  }

  /** A header that declares a window of 65536 bytes. */
  lemma WideIsOutside()
    ensures TakenOutside([0x88, 0x1C], [Stored([])])
  {
    hide TakenOutside;
    assert [Stored([])][1..] == [];
    assert AllWritten([Stored([])], []).Ok?;
    Outside([0x88, 0x1C], [Stored([])]);
  }

  /** A block that declares 288 literal and length codes. */
  lemma ManyIsOutside()
    ensures TakenOutside([0x78, 0x01], [ManyCodes()])
  {
    hide TakenOutside, AllWritable, AllWritten, AllConform, ManyCodes, Plain, Pow2, Declares;
    ManyCodesFail();
    var blocks := [ManyCodes()];
    Outside([0x78, 0x01], blocks);
  }

  lemma ManyCodesFail()
    ensures Declares(Plain(FixedLitLens(), FixedDistLens())) && AllWritable([ManyCodes()])
    ensures AllWritten([ManyCodes()], []).Ok? && !AllConform([ManyCodes()], Pow2(15))
  {
    hide Declares, FixedLitLens, FixedDistLens, UsableTrees, RunsFit;
    FixedTreesUsable();
    PlainDeclares(FixedLitLens(), FixedDistLens());
    assert [ManyCodes()][1..] == [];
    assert !Conforms([ManyCodes()][0], Pow2(15));
  }

  /** A reference to a byte beyond the window of 256 that the header declares. */
  lemma FarIsOutside()
    ensures TakenOutside([0x08, 0x1D], FarBlocks())
  {
    hide TakenOutside, AllWritable, AllWritten, AllConform, Pow2;
    FarBlocksFail();
    Outside([0x08, 0x1D], FarBlocks());
  }

  lemma FarBlocksFail()
    ensures AllWritable(FarBlocks()) && AllWritten(FarBlocks(), []).Ok? && !AllConform(FarBlocks(), Pow2(8))
  {
    hide FixedLitLens, FixedDistLens;
    var t := Reference(257, 0, 16, 0);
    FarIsEncodable();
    assert LengthCode(257) == (3, 0) && DistanceCode(16) == (257, 7);
    var out: seq<Byte> := [] + Zeros(257);
    assert [t][1..] == [] && FarBlocks()[1..] == [Fixed([t])] && [Fixed([t])][1..] == [];
    assert After(t, out).Ok?;
    assert Meaning([t], out).Ok?;
    assert Pow2(8) == 256 by { Pow2Values(); }
    assert !TokenAllowed(t, 256);
    assert !Conforms(FarBlocks()[1], 256);
  }

  lemma FarIsEncodable()
    ensures AllEncodable([Reference(257, 0, 16, 0)], FixedLitLens(), FixedDistLens())
  {
  }
}
