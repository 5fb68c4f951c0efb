/** The zlib and DEFLATE formats as RFC 1950 and RFC 1951 have them, with every limit they set,
    against what the decoder takes. Both take trees that leave some code space unused. */
module Conformance {
  import opened Bits
  import opened BitReaders
  import opened CanonicalCodes
  import opened HuffmanTables
  import opened Deflate

  /** The history a stream may refer to (RFC 1950 section 2.2). */
  function Window(src: seq<Byte>): nat
    requires src != []
  {
    Pow2(src[0] / 16 + 8)
  }

  /** A reference within the output and the window; length 258 has a symbol of its own
      (RFC 1951 section 3.2.5). */
  predicate Allowed(sym: nat, back: (nat, nat), window: nat) {
    back.1 <= window && (back.0 == 258 ==> sym == 285)
  }

  ghost function StrictHuffmanBlock(lit: seq<nat>, dist: seq<nat>, bits: seq<Bit>, p: nat, out: seq<Byte>, window: nat)
    : (r: Parsed<seq<Byte>>)
    requires p <= |bits|
    ensures r.Ok? ==> p < r.next <= |bits|
    decreases |bits| - p
  {
    match Symbol(lit, bits, p)
    case Ok(sym, q) =>
      if sym < 256 then StrictHuffmanBlock(lit, dist, bits, q, out + [sym], window)
      else if sym == 256 then Ok(out, q)
      else if sym <= 285 then (
        match BackReference(dist, sym, bits, q)
        case Ok(back, q2) =>
          if 1 <= back.1 <= |out| && Allowed(sym, back, window) then
            StrictHuffmanBlock(lit, dist, bits, q2, Copy(out, back.1, back.0), window)
          else Bad
        case Bad => Bad)
      else Bad
    case Bad => Bad
  }

  /** The coded code lengths: no run passes their number (RFC 1951 section 3.2.7). */
  ghost function StrictCodeLengths(code: seq<nat>, total: nat, bits: seq<Bit>, p: nat, acc: seq<nat>): (r: Parsed<seq<nat>>)
    requires p <= |bits| && |code| == 19
    ensures r.Ok? ==> p <= r.next <= |bits| && |r.value| == total
    decreases |bits| - p
  {
    if |acc| > total then Bad
    else if |acc| == total then Ok(acc, p)
    else
      match Symbol(code, bits, p)
      case Ok(sym, q) =>
        if sym <= 15 then StrictCodeLengths(code, total, bits, q, acc + [sym])
        else if sym == 16 && |acc| == 0 then Bad
        else (
          var width, base := if sym == 16 then 2 else if sym == 17 then 3 else 7, if sym == 18 then 11 else 3;
          var run := if sym == 16 then acc[|acc| - 1] else 0;
          match WithExtra(base, width, bits, q)
          case Ok(times, q2) => StrictCodeLengths(code, total, bits, q2, acc + Repeat(run, times))
          case Bad => Bad)
      case Bad => Bad
  }

  /** The two trees of a dynamic block: 257 to 286 literal and length codes, and every code
      within its code space (RFC 1951 sections 3.2.2 and 3.2.7). */
  ghost function StrictTrees(bits: seq<Bit>, p: nat): (r: Parsed<(seq<nat>, seq<nat>)>)
    requires p <= |bits|
    ensures r.Ok? ==> p < r.next <= |bits|
  {
    if p + 14 > |bits| then Bad
    else
      var hlit, hdist, hclen := Lsb(bits, p, 5) + 257, Lsb(bits, p + 5, 5) + 1, Lsb(bits, p + 10, 4) + 4;
      assert Pow2(4) == 16 by { Pow2Values(); }
      if hlit > 286 || p + 14 + 3 * hclen > |bits| then Bad
      else StrictCodedTrees(CodeLengthCode(bits, p + 14, hclen), bits, p + 14 + 3 * hclen, hlit, hdist)
  }

  ghost function StrictCodedTrees(code: seq<nat>, bits: seq<Bit>, p: nat, hlit: nat, hdist: nat): (r: Parsed<(seq<nat>, seq<nat>)>)
    requires p <= |bits| && |code| == 19
    ensures r.Ok? ==> p <= r.next <= |bits|
  {
    if !NotOversubscribed(code) then Bad
    else
      match StrictCodeLengths(code, hlit + hdist, bits, p, [])
      case Ok(lens, q) =>
        if NotOversubscribed(lens[..hlit]) && NotOversubscribed(lens[hlit..]) then Ok((lens[..hlit], lens[hlit..]), q) else Bad
      case Bad => Bad
  }

  ghost function StrictBlock(kind: nat, bits: seq<Bit>, p: nat, out: seq<Byte>, window: nat): (r: Parsed<seq<Byte>>)
    requires p <= |bits|
    ensures r.Ok? ==> p < r.next <= |bits|
  {
    if kind == 0 then StoredBlock(bits, p, out)
    else if kind == 1 then StrictHuffmanBlock(FixedLitLens(), FixedDistLens(), bits, p, out, window)
    else if kind == 2 then (
      match StrictTrees(bits, p)
      case Ok(trees, q) => StrictHuffmanBlock(trees.0, trees.1, bits, q, out, window)
      case Bad => Bad)
    else Bad
  }

  ghost function StrictBlocks(bits: seq<Bit>, p: nat, out: seq<Byte>, window: nat): (r: Parsed<seq<Byte>>)
    requires p <= |bits|
    ensures r.Ok? ==> p < r.next <= |bits|
    decreases |bits| - p
  {
    if p + 3 > |bits| then Bad
    else
      match StrictBlock(Lsb(bits, p + 1, 2), bits, p + 3, out, window)
      case Ok(more, q) => if Lsb(bits, p, 1) == 1 then Ok(more, q) else StrictBlocks(bits, q, more, window)
      case Bad => Bad
  }

  /** A zlib stream of the two RFCs. */
  ghost function StrictZlib(src: seq<Byte>): Parsed<seq<Byte>> {
    if !GoodHeader(src) || src[0] / 16 > 7 then Bad
    else
      var bits := BitList(src[2..]);
      match StrictBlocks(bits, 0, [], Window(src))
      case Ok(out, q) =>
        var a := ByteBoundary(q);
        if a + 32 <= |bits| && BigEndian32(bits, a) == AdlerSum(out) then Ok(out, a + 32) else Bad
      case Bad => Bad
  }

  /** Some reference of the block, as it is decoded, is not allowed. */
  ghost predicate FarReference(lit: seq<nat>, dist: seq<nat>, bits: seq<Bit>, p: nat, out: seq<Byte>, window: nat)
    requires p <= |bits|
    decreases |bits| - p
  {
    match Symbol(lit, bits, p)
    case Ok(sym, q) =>
      if sym < 256 then FarReference(lit, dist, bits, q, out + [sym], window)
      else if sym == 256 || sym > 285 then false
      else (
        match BackReference(dist, sym, bits, q)
        case Ok(back, q2) =>
          && 1 <= back.1 <= |out|
          && (!Allowed(sym, back, window) || FarReference(lit, dist, bits, q2, Copy(out, back.1, back.0), window))
        case Bad => false)
    case Bad => false
  }

  /** The last run of the coded lengths passes their number. */
  ghost predicate Overshoots(code: seq<nat>, total: nat, bits: seq<Bit>, p: nat, acc: seq<nat>)
    requires p <= |bits| && |code| == 19
    decreases |bits| - p
  {
    if |acc| >= total then |acc| > total
    else
      match Symbol(code, bits, p)
      case Ok(sym, q) =>
        if sym <= 15 then Overshoots(code, total, bits, q, acc + [sym])
        else if sym == 16 && |acc| == 0 then false
        else (
          var width, base := if sym == 16 then 2 else if sym == 17 then 3 else 7, if sym == 18 then 11 else 3;
          var run := if sym == 16 then acc[|acc| - 1] else 0;
          match WithExtra(base, width, bits, q)
          case Ok(times, q2) => Overshoots(code, total, bits, q2, acc + Repeat(run, times))
          case Bad => false)
      case Bad => false
  }

  /** A declaration of trees that the decoder takes although it breaks a rule: too many codes,
      an oversubscribed tree, or a run that overshoots. */
  ghost predicate BadDeclaration(bits: seq<Bit>, p: nat)
    requires p <= |bits| && DynamicTrees(bits, p).Ok?
  {
    var hlit, hdist, hclen := Lsb(bits, p, 5) + 257, Lsb(bits, p + 5, 5) + 1, Lsb(bits, p + 10, 4) + 4;
    assert Pow2(4) == 16 by { Pow2Values(); }
    var code := CodeLengthCode(bits, p + 14, hclen);
    var (lit, dist) := DynamicTrees(bits, p).value;
    || hlit > 286
    || !NotOversubscribed(code) || !NotOversubscribed(lit) || !NotOversubscribed(dist)
    || Overshoots(code, hlit + hdist, bits, p + 14 + 3 * hclen, [])
  }

  ghost predicate BreaksBlock(kind: nat, bits: seq<Bit>, p: nat, out: seq<Byte>, window: nat)
    requires p <= |bits|
  {
    if kind == 1 then FarReference(FixedLitLens(), FixedDistLens(), bits, p, out, window)
    else if kind == 2 then (
      match DynamicTrees(bits, p)
      case Ok(trees, q) => BadDeclaration(bits, p) || FarReference(trees.0, trees.1, bits, q, out, window)
      case Bad => false)
    else false
  }

  /** Some block, as it is decoded, breaks a rule. */
  ghost predicate BreaksBlocks(bits: seq<Bit>, p: nat, out: seq<Byte>, window: nat)
    requires p <= |bits|
    decreases |bits| - p
  {
    && p + 3 <= |bits|
    && match OneBlock(Lsb(bits, p + 1, 2), bits, p + 3, out)
       case Ok(more, q) =>
         || BreaksBlock(Lsb(bits, p + 1, 2), bits, p + 3, out, window)
         || (Lsb(bits, p, 1) != 1 && BreaksBlocks(bits, q, more, window))
       case Bad => false
  }

  lemma {:induction false} StrictHuffman(lit: seq<nat>, dist: seq<nat>, bits: seq<Bit>, p: nat, out: seq<Byte>, window: nat)
    requires p <= |bits|
    ensures
        var strict, taken := StrictHuffmanBlock(lit, dist, bits, p, out, window), HuffmanBlock(lit, dist, bits, p, out);
        && (strict.Ok? ==> strict == taken)
        && (taken.Ok? ==> (strict.Ok? <==> !FarReference(lit, dist, bits, p, out, window)))
    decreases |bits| - p
  {
    hide Symbol, BackReference, Copy, Allowed;
    if Symbol(lit, bits, p).Ok? {
      var Ok(sym, q) := Symbol(lit, bits, p);
      if sym < 256 {
        StrictHuffman(lit, dist, bits, q, out + [sym], window);
      } else if 257 <= sym <= 285 && BackReference(dist, sym, bits, q).Ok? {
        var Ok(back, q2) := BackReference(dist, sym, bits, q);
        if 1 <= back.1 <= |out| {
          StrictHuffman(lit, dist, bits, q2, Copy(out, back.1, back.0), window);
        }
      }
    }
  }

  lemma {:induction false} StrictLengths(code: seq<nat>, total: nat, bits: seq<Bit>, p: nat, acc: seq<nat>)
    requires p <= |bits| && |code| == 19
    ensures
        var strict, taken := StrictCodeLengths(code, total, bits, p, acc), CodeLengths(code, total, bits, p, acc);
        && (strict.Ok? ==> strict == taken)
        && (taken.Ok? ==> (strict.Ok? <==> !Overshoots(code, total, bits, p, acc)))
    decreases |bits| - p
  {
    hide Symbol, WithExtra, Repeat, LengthsFit;
    if |acc| >= total {
      assert |acc| == total ==> acc[..total] == acc;
    } else if Symbol(code, bits, p).Ok? {
      var Ok(sym, q) := Symbol(code, bits, p);
      if sym <= 15 {
        StrictLengths(code, total, bits, q, acc + [sym]);
      } else if sym != 16 || |acc| > 0 {
        var width, base := if sym == 16 then 2 else if sym == 17 then 3 else 7, if sym == 18 then 11 else 3;
        var run := if sym == 16 then acc[|acc| - 1] else 0;
        if WithExtra(base, width, bits, q).Ok? {
          var Ok(times, q2) := WithExtra(base, width, bits, q);
          ExtraAhead(base, width, bits, q);
          StrictLengths(code, total, bits, q2, acc + Repeat(run, times));
        }
      }
    }
  }

  lemma ExtraAhead(base: nat, width: nat, bits: seq<Bit>, p: nat)
    ensures WithExtra(base, width, bits, p).Ok? ==> p <= WithExtra(base, width, bits, p).next <= |bits|
  {
  }

  lemma StrictDeclaration(bits: seq<Bit>, p: nat)
    requires p <= |bits|
    ensures
        var strict, taken := StrictTrees(bits, p), DynamicTrees(bits, p);
        && (strict.Ok? ==> strict == taken)
        && (taken.Ok? ==> (strict.Ok? <==> !BadDeclaration(bits, p)))
  {
    hide CodeLengths, StrictCodeLengths, Overshoots, CodeLengthCode, NotOversubscribed, Accepts, Lsb;
    if p + 14 <= |bits| {
      var hlit, hdist, hclen := Lsb(bits, p, 5) + 257, Lsb(bits, p + 5, 5) + 1, Lsb(bits, p + 10, 4) + 4;
      assert Pow2(4) == 16 by { Pow2Values(); }
      if p + 14 + 3 * hclen <= |bits| {
        var code := CodeLengthCode(bits, p + 14, hclen);
        StrictLengths(code, hlit + hdist, bits, p + 14 + 3 * hclen, []);
      }
    }
  }

  lemma StrictOneBlock(kind: nat, bits: seq<Bit>, p: nat, out: seq<Byte>, window: nat)
    requires p <= |bits|
    ensures
        var strict, taken := StrictBlock(kind, bits, p, out, window), OneBlock(kind, bits, p, out);
        && (strict.Ok? ==> strict == taken)
        && (taken.Ok? ==> (strict.Ok? <==> !BreaksBlock(kind, bits, p, out, window)))
  {
    hide StrictHuffmanBlock, HuffmanBlock, FarReference, StrictTrees, DynamicTrees, BadDeclaration, FixedLitLens, FixedDistLens, StoredBlock;
    if kind == 1 {
      StrictHuffman(FixedLitLens(), FixedDistLens(), bits, p, out, window);
    } else if kind == 2 {
      StrictDeclaration(bits, p);
      if DynamicTrees(bits, p).Ok? {
        var Ok(trees, q) := DynamicTrees(bits, p);
        StrictHuffman(trees.0, trees.1, bits, q, out, window);
      }
    }
  }

  lemma {:induction false} StrictSequence(bits: seq<Bit>, p: nat, out: seq<Byte>, window: nat)
    requires p <= |bits|
    ensures
        var strict, taken := StrictBlocks(bits, p, out, window), Blocks(bits, p, out);
        && (strict.Ok? ==> strict == taken)
        && (taken.Ok? ==> (strict.Ok? <==> !BreaksBlocks(bits, p, out, window)))
    decreases |bits| - p
  {
    hide StrictBlock, OneBlock, BreaksBlock, Lsb;
    if p + 3 <= |bits| {
      var kind := Lsb(bits, p + 1, 2);
      StrictOneBlock(kind, bits, p + 3, out, window);
      if OneBlock(kind, bits, p + 3, out).Ok? {
        var Ok(more, q) := OneBlock(kind, bits, p + 3, out);
        StrictSequence(bits, q, more, window);
      }
    }
  }

  /** Every stream of the RFCs is taken, with its content; and a stream that is taken is outside
      the RFCs exactly when its header declares a window of more than 32768 bytes, or one of its
      blocks has too many codes, an oversubscribed tree that the 16-bit test lets through, a run
      that overshoots, or a reference that is not allowed. */
  lemma OutsideExactlyWhen(src: seq<Byte>)
    ensures StrictZlib(src).Ok? ==> Zlib(src) == StrictZlib(src)
    ensures Zlib(src).Ok? ==>
        (!StrictZlib(src).Ok? <==> src[0] / 16 > 7 || BreaksBlocks(BitList(src[2..]), 0, [], Window(src)))
  {
    hide StrictBlocks, Blocks, BreaksBlocks, BitList, BigEndian32, AdlerSum, Window;
    if GoodHeader(src) {
      StrictSequence(BitList(src[2..]), 0, [], Window(src));
    }
  }

  /** The decoder looks at no more of the header than its check, method and dictionary flag. */
  lemma HeaderDecidesNothing(a: seq<Byte>, b: seq<Byte>)
    requires GoodHeader(a) && GoodHeader(b) && a[2..] == b[2..]
    ensures Zlib(a) == Zlib(b)
  {
    hide Blocks, BitList, BigEndian32, AdlerSum;
  }
}
