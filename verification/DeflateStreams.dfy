/** Whole zlib streams as an encoder may write them: any number of stored blocks, blocks with
    the fixed trees and blocks that declare their own trees. */
module DeflateStreams {
  import opened Wrappers
  import opened Bits
  import opened BitReaders
  import opened CanonicalCodes
  import opened HuffmanTables
  import opened Deflate
  import opened DeflateEncoding

  /** An entry of the coded code lengths, with the value of its extra bits. */
  datatype Run =
    | Len(n: nat)
    | Again(extra: nat)
    | Zeros3(extra: nat)
    | Zeros11(extra: nat)

  /** How a block declares its trees: the code of the code lengths, of which the first `count`
      lengths in the order of the format are written, and the runs coded with it. */
  datatype Declaration = Declaration(code: seq<nat>, count: nat, runs: seq<Run>, lit: seq<nat>, dist: seq<nat>)

  datatype Block =
    | Stored(data: seq<Byte>)
    | Fixed(tokens: seq<Token>)
    | Dynamic(trees: Declaration, tokens: seq<Token>)

  function RunSymbol(r: Run): nat {
    match r
    case Len(n) => n
    case Again(_) => 16
    case Zeros3(_) => 17
    case Zeros11(_) => 18
  }

  /** Base and number of extra bits. */
  function RunCode(r: Run): (nat, nat) {
    match r
    case Len(_) => (1, 0)
    case Again(_) => (3, 2)
    case Zeros3(_) => (3, 3)
    case Zeros11(_) => (11, 7)
  }

  function RunExtra(r: Run): nat {
    if r.Len? then 0 else r.extra
  }

  /** What a run appends to the lengths before it. */
  function RunLengths(r: Run, acc: seq<nat>): seq<nat>
    requires r.Again? ==> acc != []
  {
    match r
    case Len(n) => [n]
    case Again(extra) => Repeat(acc[|acc| - 1], 3 + extra)
    case Zeros3(extra) => Repeat(0, 3 + extra)
    case Zeros11(extra) => Repeat(0, 11 + extra)
  }

  ghost predicate RunWritable(r: Run, code: seq<nat>) {
    && |code| == 19 && (r.Len? ==> r.n <= 15) && code[RunSymbol(r)] > 0
    && RunExtra(r) < Pow2(RunCode(r).1)
  }

  /** The runs give these lengths behind those before; only the last one may pass the total. */
  ghost predicate RunsGive(runs: seq<Run>, code: seq<nat>, acc: seq<nat>, lens: seq<nat>)
    decreases |runs|
  {
    if runs == [] then |acc| >= |lens| && acc[..|lens|] == lens
    else
      && |acc| < |lens| && RunWritable(runs[0], code) && (runs[0].Again? ==> acc != [])
      && RunsGive(runs[1..], code, acc + RunLengths(runs[0], acc), lens)
  }

  ghost function RunBits(r: Run, code: seq<nat>): seq<Bit>
    requires RunWritable(r, code)
  {
    SymbolBits(code, RunSymbol(r)) + LowBits(RunExtra(r), RunCode(r).1)
  }

  ghost function RunsBits(runs: seq<Run>, code: seq<nat>): seq<Bit>
    requires forall i :: 0 <= i < |runs| ==> RunWritable(runs[i], code)
  {
    if runs == [] then [] else RunBits(runs[0], code) + RunsBits(runs[1..], code)
  }

  /** The code with all but the first n lengths, in the order of the format, left out. */
  function FirstLengths(code: seq<nat>, n: nat): (r: seq<nat>)
    requires |code| == 19 && n <= 19
    ensures |r| == 19
  {
    if n == 0 then seq(19, _ => 0) else FirstLengths(code, n - 1)[ORDER[n - 1] := code[ORDER[n - 1]]]
  }

  function CodeBits(code: seq<nat>, n: nat): (r: seq<Bit>)
    requires |code| == 19 && n <= 19
    ensures |r| == 3 * n
  {
    if n == 0 then [] else CodeBits(code, n - 1) + LowBits(code[ORDER[n - 1]], 3)
  }

  ghost predicate Declares(d: Declaration) {
    && |d.code| == 19 && 4 <= d.count <= 19 && FirstLengths(d.code, d.count) == d.code
    && (forall i :: 0 <= i < 19 ==> d.code[i] < 8) && NotOversubscribed(d.code)
    && (forall i :: 0 <= i < |d.runs| ==> RunWritable(d.runs[i], d.code))
    && RunsGive(d.runs, d.code, [], d.lit + d.dist)
    && 257 <= |d.lit| <= 288 && 1 <= |d.dist| <= 32 && UsableTrees(d.lit, d.dist)
  }

  ghost function DeclarationBits(d: Declaration): seq<Bit>
    requires Declares(d)
  {
    LowBits(|d.lit| - 257, 5) + (LowBits(|d.dist| - 1, 5) + (LowBits(d.count - 4, 4)
      + (CodeBits(d.code, d.count) + RunsBits(d.runs, d.code))))
  }

  ghost predicate Writable(b: Block) {
    match b
    case Stored(data) => |data| <= 0xFFFF
    case Fixed(tokens) => AllEncodable(tokens, FixedLitLens(), FixedDistLens()) && InFormat(tokens)
    case Dynamic(trees, tokens) => Declares(trees) && AllEncodable(tokens, trees.lit, trees.dist) && InFormat(tokens)
  }

  function Kind(b: Block): nat {
    match b
    case Stored(_) => 0
    case Fixed(_) => 1
    case Dynamic(_, _) => 2
  }

  function ZeroBits(n: nat): (r: seq<Bit>)
    ensures |r| == n
  {
    seq(n, _ => 0)
  }

  /** The bits of a block behind its three header bits, where they start at position p. */
  ghost function BodyBits(b: Block, p: nat): seq<Bit>
    requires Writable(b)
  {
    match b
    case Stored(data) =>
      ZeroBits(ByteBoundary(p) - p) + (LowBits(|data|, 16) + (LowBits(0xFFFF - |data|, 16) + BitList(data)))
    case Fixed(tokens) => BlockBits(tokens, FixedLitLens(), FixedDistLens())
    case Dynamic(trees, tokens) => DeclarationBits(trees) + BlockBits(tokens, trees.lit, trees.dist)
  }

  /** The output after a block. */
  ghost function Written(b: Block, out: seq<Byte>): Parsed<seq<Byte>>
    requires Writable(b)
  {
    match b
    case Stored(data) => Ok(out + data, 0)
    case Fixed(tokens) => Meaning(tokens, out)
    case Dynamic(_, tokens) => Meaning(tokens, out)
  }

  ghost predicate AllWritable(blocks: seq<Block>) {
    forall i :: 0 <= i < |blocks| ==> Writable(blocks[i])
  }

  ghost function AllWritten(blocks: seq<Block>, out: seq<Byte>): Parsed<seq<Byte>>
    requires AllWritable(blocks)
  {
    if blocks == [] then Ok(out, 0)
    else
      match Written(blocks[0], out)
      case Ok(more, _) => AllWritten(blocks[1..], more)
      case Bad => Bad
  }

  /** All blocks from position p on; the last one is marked as final. */
  ghost function BlocksBits(blocks: seq<Block>, p: nat): seq<Bit>
    requires AllWritable(blocks)
    decreases |blocks|
  {
    if blocks == [] then []
    else
      var body := BodyBits(blocks[0], p + 3);
      ([if |blocks| == 1 then 1 else 0] + LowBits(Kind(blocks[0]), 2)) + (body + BlocksBits(blocks[1..], p + 3 + |body|))
  }

  lemma RunRead(r: Run, code: seq<nat>, bits: seq<Bit>, p: nat)
    requires RunWritable(r, code) && NotOversubscribed(code) && LengthsFit(code) && Carries(bits, p, RunBits(r, code))
    ensures Symbol(code, bits, p) == Ok(RunSymbol(r), p + code[RunSymbol(r)])
    ensures WithExtra(RunCode(r).0, RunCode(r).1, bits, p + code[RunSymbol(r)])
         == Ok(RunCode(r).0 + RunExtra(r), p + |RunBits(r, code)|)
  {
    hide Symbol, WithExtra, SymbolBits, LowBits, Pow2, NotOversubscribed, Carries;
    CarriesBoth(bits, p, SymbolBits(code, RunSymbol(r)), LowBits(RunExtra(r), RunCode(r).1));
    SymbolDecodes(code, RunSymbol(r), bits, p);
    ExtraRead(RunCode(r).0, RunCode(r).1, bits, p + code[RunSymbol(r)], RunExtra(r));
  }

  /** One run of coded lengths. */
  lemma RunDecodes(r: Run, code: seq<nat>, total: nat, bits: seq<Bit>, p: nat, acc: seq<nat>)
    requires RunWritable(r, code) && NotOversubscribed(code) && LengthsFit(code) && Carries(bits, p, RunBits(r, code))
    requires |acc| < total && (r.Again? ==> acc != []) && p + |RunBits(r, code)| <= |bits|
    ensures CodeLengths(code, total, bits, p, acc)
         == CodeLengths(code, total, bits, p + |RunBits(r, code)|, acc + RunLengths(r, acc))
  {
    hide Symbol, WithExtra, Pow2, NotOversubscribed, Carries, RunBits;
    RunRead(r, code, bits, p);
    if r.Len? {
      NoExtra(bits, p + code[RunSymbol(r)], p + |RunBits(r, code)|);
    }
  }

  lemma NoExtra(bits: seq<Bit>, p: nat, q: nat)
    requires WithExtra(1, 0, bits, p).Ok? && WithExtra(1, 0, bits, p).next == q
    ensures p == q
  {
  }

  lemma {:induction false} RunsDecode(runs: seq<Run>, code: seq<nat>, lens: seq<nat>, bits: seq<Bit>, p: nat, acc: seq<nat>)
    requires forall i :: 0 <= i < |runs| ==> RunWritable(runs[i], code)
    requires |code| == 19 && NotOversubscribed(code) && LengthsFit(code)
    requires RunsGive(runs, code, acc, lens) && Carries(bits, p, RunsBits(runs, code))
    ensures p <= |bits| && CodeLengths(code, |lens|, bits, p, acc) == Ok(lens, p + |RunsBits(runs, code)|)
    decreases |runs|
  {
    hide RunBits, RunWritable, NotOversubscribed, Carries, CodeLengths, RunLengths;
    CarriesInside(bits, p, RunsBits(runs, code));
    if runs == [] {
      LengthsComplete(code, lens, bits, p, acc);
    } else {
      CarriesBoth(bits, p, RunBits(runs[0], code), RunsBits(runs[1..], code));
      CarriesInside(bits, p, RunBits(runs[0], code));
      RunDecodes(runs[0], code, |lens|, bits, p, acc);
      RunsDecode(runs[1..], code, lens, bits, p + |RunBits(runs[0], code)|, acc + RunLengths(runs[0], acc));
    }
  }

  lemma LengthsComplete(code: seq<nat>, lens: seq<nat>, bits: seq<Bit>, p: nat, acc: seq<nat>)
    requires |code| == 19 && p <= |bits| && |acc| >= |lens| && acc[..|lens|] == lens
    ensures CodeLengths(code, |lens|, bits, p, acc) == Ok(lens, p)
  {
  }

  lemma CarriesInside(bits: seq<Bit>, p: nat, part: seq<Bit>)
    requires Carries(bits, p, part)
    ensures p + |part| <= |bits|
  {
  }

  lemma {:induction false} CodeRead(code: seq<nat>, n: nat, bits: seq<Bit>, p: nat)
    requires |code| == 19 && n <= 19 && (forall i :: 0 <= i < 19 ==> code[i] < 8)
    requires Carries(bits, p, CodeBits(code, n))
    ensures p + 3 * n <= |bits| && CodeLengthCode(bits, p, n) == FirstLengths(code, n)
  {
    hide Carries, LowBits, Lsb, Pow2, CodeBits, CodeLengthCode, FirstLengths;
    CarriesInside(bits, p, CodeBits(code, n));
    CodeStep(code, n, bits, p);
    if n > 0 {
      assert Pow2(3) == 8 by { UnfoldPow2(3); Pow2Values(); }
      CarriesBoth(bits, p, CodeBits(code, n - 1), LowBits(code[ORDER[n - 1]], 3));
      CodeRead(code, n - 1, bits, p);
      LowBitsRead(bits, p + 3 * (n - 1), code[ORDER[n - 1]], 3);
    }
  }

  lemma CodeStep(code: seq<nat>, n: nat, bits: seq<Bit>, p: nat)
    requires |code| == 19 && n <= 19 && p + 3 * n <= |bits|
    ensures n == 0 ==> CodeLengthCode(bits, p, n) == FirstLengths(code, n)
    ensures n > 0 ==>
      && CodeLengthCode(bits, p, n) == CodeLengthCode(bits, p, n - 1)[ORDER[n - 1] := Lsb(bits, p + 3 * (n - 1), 3)]
      && FirstLengths(code, n) == FirstLengths(code, n - 1)[ORDER[n - 1] := code[ORDER[n - 1]]]
      && CodeBits(code, n) == CodeBits(code, n - 1) + LowBits(code[ORDER[n - 1]], 3)
  {
    hide Lsb, LowBits;
  }

  /** A declaration is read as the trees it declares. */
  lemma DeclarationDecodes(d: Declaration, bits: seq<Bit>, p: nat)
    requires Declares(d) && Carries(bits, p, DeclarationBits(d))
    ensures p <= |bits| && DynamicTrees(bits, p) == Ok((d.lit, d.dist), p + |DeclarationBits(d)|)
  {
    hide Carries, LowBits, Lsb, CodeBits, RunsBits, DeclaredTrees, RunsGive, RunWritable, FirstLengths, NotOversubscribed, Pow2;
    assert Pow2(5) == 32 && Pow2(4) == 16 by { Pow2Values(); UnfoldPow2(4); }
    var rest := CodeBits(d.code, d.count) + RunsBits(d.runs, d.code);
    var c := LowBits(d.count - 4, 4);
    CarriesBoth(bits, p, LowBits(|d.lit| - 257, 5), LowBits(|d.dist| - 1, 5) + (c + rest));
    CarriesBoth(bits, p + 5, LowBits(|d.dist| - 1, 5), c + rest);
    CarriesBoth(bits, p + 10, c, rest);
    CarriesInside(bits, p + 10, c);
    LowBitsRead(bits, p, |d.lit| - 257, 5);
    LowBitsRead(bits, p + 5, |d.dist| - 1, 5);
    LowBitsRead(bits, p + 10, d.count - 4, 4);
    TreesDecode(d, bits, p + 14);
  }

  lemma UnfoldPow2(n: nat)
    ensures Pow2(n + 1) == 2 * Pow2(n)
  {
  }

  lemma TreesDecode(d: Declaration, bits: seq<Bit>, p: nat)
    requires Declares(d) && Carries(bits, p, CodeBits(d.code, d.count) + RunsBits(d.runs, d.code))
    ensures p <= |bits|
    ensures DeclaredTrees(bits, p, |d.lit|, |d.dist|, d.count)
         == Ok((d.lit, d.dist), p + |CodeBits(d.code, d.count) + RunsBits(d.runs, d.code)|)
  {
    hide Carries, CodeBits, RunsBits, RunsGive, RunWritable, FirstLengths, NotOversubscribed, CodeLengthCode, CodeLengths, Accepts;
    var q := p + 3 * d.count;
    CarriesBoth(bits, p, CodeBits(d.code, d.count), RunsBits(d.runs, d.code));
    CodeRead(d.code, d.count, bits, p);
    RunsDecode(d.runs, d.code, d.lit + d.dist, bits, q, []);
    assert (d.lit + d.dist)[..|d.lit|] == d.lit && (d.lit + d.dist)[|d.lit|..] == d.dist;
    assert Tree(d.code, q) == Ok(d.code, q) && Tree(d.lit, 0).Ok? && Tree(d.dist, 0).Ok?;
  }

  lemma {:induction false} LsbOfPart(bits: seq<Bit>, p: nat, part: seq<Bit>, k: nat, n: nat)
    requires Carries(bits, p, part) && k + n <= |part|
    ensures Lsb(bits, p + k, n) == Lsb(part, k, n)
    decreases n
  {
    if n > 0 {
      LsbOfPart(bits, p, part, k + 1, n - 1);
      assert bits[p..p + |part|][k] == part[k];
    }
  }

  lemma StoredRead(data: seq<Byte>, bits: seq<Bit>, p: nat)
    requires Carries(bits, p, BitList(data))
    ensures p + 8 * |data| <= |bits| && StoredBytes(bits, p, |data|) == data
  {
    hide Lsb, BitList, Carries, Pow2;
    CarriesInside(bits, p, BitList(data));
    forall i | 0 <= i < |data|
      ensures StoredBytes(bits, p, |data|)[i] == data[i]
    {
      LsbOfPart(bits, p, BitList(data), 8 * i, 8);
      ByteFromBits(data, i);
    }
  }

  /** The parts of a stored block stand one after the other. */
  lemma StoredParts(data: seq<Byte>, bits: seq<Bit>, p: nat)
    requires |data| <= 0xFFFF && Carries(bits, p, BodyBits(Stored(data), p))
    ensures
        var q := ByteBoundary(p);
        && Carries(bits, q, LowBits(|data|, 16)) && Carries(bits, q + 16, LowBits(0xFFFF - |data|, 16))
        && Carries(bits, q + 32, BitList(data))
        && p + |BodyBits(Stored(data), p)| == q + 32 + 8 * |data|
  {
    hide Carries, LowBits, BitList, ByteBoundary;
    var pad, low, high := ZeroBits(ByteBoundary(p) - p), LowBits(|data|, 16), LowBits(0xFFFF - |data|, 16);
    var q := ByteBoundary(p);
    CarriesBoth(bits, p, pad, low + (high + BitList(data)));
    CarriesBoth(bits, q, low, high + BitList(data));
    CarriesBoth(bits, q + 16, high, BitList(data));
  }

  lemma StoredDecodes(data: seq<Byte>, bits: seq<Bit>, p: nat, out: seq<Byte>)
    requires |data| <= 0xFFFF && Carries(bits, p, BodyBits(Stored(data), p))
    ensures StoredBlock(bits, p, out) == Ok(out + data, p + |BodyBits(Stored(data), p)|)
  {
    hide Carries, LowBits, Lsb, BitList, StoredBytes, Pow2, ByteBoundary, BodyBits;
    assert Pow2(16) == 0x1_0000 by { Pow2Values(); }
    var q := ByteBoundary(p);
    StoredParts(data, bits, p);
    LowBitsRead(bits, q, |data|, 16);
    LowBitsRead(bits, q + 16, 0xFFFF - |data|, 16);
    StoredRead(data, bits, q + 32);
  }

  /** Every block is decoded to what it means, whatever comes before and after it. */
  lemma BodyDecodes(b: Block, bits: seq<Bit>, p: nat, out: seq<Byte>)
    requires Writable(b) && Written(b, out).Ok? && Carries(bits, p, BodyBits(b, p))
    ensures p <= |bits| && OneBlock(Kind(b), bits, p, out) == Ok(Written(b, out).value, p + |BodyBits(b, p)|)
  {
    hide HuffmanBlock, StoredBlock, DynamicTrees, Declares, DeclarationBits, BlockBits, Meaning, AllEncodable, UsableTrees,
         FixedLitLens, FixedDistLens;
    CarriesInside(bits, p, BodyBits(b, p));
    match b {
      case Stored(data) => StoredDecodes(data, bits, p, out);
      case Fixed(tokens) =>
        FixedTreesUsable();
        BlockDecodes(tokens, FixedLitLens(), FixedDistLens(), bits, p, out);
      case Dynamic(trees, tokens) =>
        DeclaredAreUsable(trees);
        CarriesBoth(bits, p, DeclarationBits(trees), BlockBits(tokens, trees.lit, trees.dist));
        DeclarationDecodes(trees, bits, p);
        BlockDecodes(tokens, trees.lit, trees.dist, bits, p + |DeclarationBits(trees)|, out);
    }
  }

  lemma DeclaredAreUsable(d: Declaration)
    requires Declares(d)
    ensures UsableTrees(d.lit, d.dist) && |d.lit| > 256
  {
  }

  lemma HeaderRead(final: Bit, kind: nat, bits: seq<Bit>, p: nat)
    requires kind < 4 && Carries(bits, p, [final] + LowBits(kind, 2))
    ensures p + 3 <= |bits| && Lsb(bits, p, 1) == final && Lsb(bits, p + 1, 2) == kind
  {
    assert Pow2(2) == 4 by { assert Pow2(0) == 1; UnfoldPow2(0); UnfoldPow2(1); }
    CarriesInside(bits, p, [final] + LowBits(kind, 2));
    CarriesBoth(bits, p, [final], LowBits(kind, 2));
    LowBitsRead(bits, p + 1, kind, 2);
    assert bits[p] == bits[p..p + 1][0] == final;
    assert Lsb(bits, p + 1, 0) == 0;
  }

  /** Any sequence of blocks comes back. */
  lemma {:induction false} BlocksDecode(blocks: seq<Block>, bits: seq<Bit>, p: nat, out: seq<Byte>)
    requires blocks != [] && AllWritable(blocks) && AllWritten(blocks, out).Ok? && Carries(bits, p, BlocksBits(blocks, p))
    ensures p <= |bits| && Blocks(bits, p, out) == Ok(AllWritten(blocks, out).value, p + |BlocksBits(blocks, p)|)
    decreases |blocks|
  {
    hide Writable, BodyBits, Written, OneBlock, LowBits, Carries, Lsb;
    var b, rest := blocks[0], blocks[1..];
    var final: Bit := if |blocks| == 1 then 1 else 0;
    var header, body := [final] + LowBits(Kind(b), 2), BodyBits(b, p + 3);
    var others := BlocksBits(rest, p + 3 + |body|);
    CarriesBoth(bits, p, header, body + others);
    CarriesBoth(bits, p + 3, body, others);
    HeaderRead(final, Kind(b), bits, p);
    BodyDecodes(b, bits, p + 3, out);
    if rest != [] {
      BlocksDecode(rest, bits, p + 3 + |body|, Written(b, out).value);
    } else {
      assert others == [];
    }
  }

  function Padded(bits: seq<Bit>): (r: seq<Bit>)
    ensures |r| % 8 == 0 && |r| == ByteBoundary(|bits|)
  {
    bits + ZeroBits(ByteBoundary(|bits|) - |bits|)
  }

  /** The blocks, padded to a whole byte. */
  ghost function StreamBits(blocks: seq<Block>): (r: seq<Bit>)
    requires AllWritable(blocks)
    ensures |r| % 8 == 0 && |r| == ByteBoundary(|BlocksBits(blocks, 0)|)
  {
    Padded(BlocksBits(blocks, 0))
  }

  /** A header the decoder takes: method 8, a right check, no preset dictionary. */
  predicate Header(h: seq<Byte>) {
    |h| == 2 && h[0] % 16 == 8 && (256 * (h[0] as int) + h[1]) % 31 == 0 && h[1] / 32 % 2 == 0
  }

  /** A complete zlib stream: header, blocks, checksum. */
  ghost function ZlibStream(h: seq<Byte>, blocks: seq<Block>): seq<Byte>
    requires Header(h) && AllWritable(blocks) && AllWritten(blocks, []).Ok?
  {
    AdlerFits(AllWritten(blocks, []).value);
    h + (Pack(StreamBits(blocks)) + ChecksumBytes(AdlerSum(AllWritten(blocks, []).value)))
  }

  /** Whatever blocks an encoder writes behind whatever header, and whatever literals, references
      and trees it chooses: the stream is decoded to what it means. */
  lemma ZlibDecodes(h: seq<Byte>, blocks: seq<Block>)
    requires Header(h) && blocks != [] && AllWritable(blocks) && AllWritten(blocks, []).Ok?
    ensures
        var stream := ZlibStream(h, blocks);
        Zlib(stream).Ok? && Zlib(stream).value == AllWritten(blocks, []).value
  {
    hide Blocks, AllWritten, AllWritable, BlocksBits, AdlerSum, BitAt, BitList, Pack, ChecksumBytes, BigEndian32, StreamBits, Carries,
         ByteBoundary;
    var out := AllWritten(blocks, []).value;
    AdlerFits(out);
    var stream := StreamBits(blocks);
    var packed, sum := Pack(stream), ChecksumBytes(AdlerSum(out));
    assert ZlibStream(h, blocks)[2..] == packed + sum;
    PackBits(stream);
    BitListOfBoth(packed, sum);
    StreamStarts(blocks, BitList(packed + sum), BitList(sum));
    BlocksDecode(blocks, BitList(packed + sum), 0, []);
    StoredChecksum(packed, sum);
  }

  lemma StreamStarts(blocks: seq<Block>, bits: seq<Bit>, rest: seq<Bit>)
    requires AllWritable(blocks) && bits == StreamBits(blocks) + rest
    ensures Carries(bits, 0, BlocksBits(blocks, 0))
  {
    hide BlocksBits, ByteBoundary;
    var all := BlocksBits(blocks, 0);
    assert bits[0..|all|] == all;
  }
}
