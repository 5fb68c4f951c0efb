/** The zlib and DEFLATE formats (RFC 1950, RFC 1951) as a decoder over a plain list of
    bits: no tables, no buffers, no output limit. It is what the table-driven decoder of
    `src/kad/packed.rs` is compared with. */
module Deflate {
  import opened Bits
  import opened BitReaders
  import opened CanonicalCodes
  import opened HuffmanTables

  /** `Ok` carries the position of the next bit. */
  datatype Parsed<+T> = Ok(value: T, next: nat) | Bad

  ghost function Number(bits: seq<Bit>, p: nat, n: nat): Parsed<nat> {
    if p + n <= |bits| then Ok(Lsb(bits, p, n), p + n) else Bad
  }

  /** The symbol whose canonical code starts the bits from p. For lengths that describe no tree,
      but that the 16-bit test of the source lets through: the last symbol whose code, as the
      source computes it, starts them. */
  ghost function Symbol(lens: seq<nat>, bits: seq<Bit>, p: nat): (r: Parsed<nat>)
    ensures r.Ok? ==> p < r.next <= |bits| && r.value < |lens|
  {
    if NotOversubscribed(lens) then
      if exists s: nat :: Matches(lens, bits, p, s) then
        var s: nat :| Matches(lens, bits, p, s);
        Ok(s, p + lens[s])
      else Bad
    else
      match LastStart(lens, bits, p, |lens|)
      case Some(s) => Ok(s, p + lens[s])
      case None => Bad
  }

  const LENGTH_BASE: seq<nat> := [
    3, 4, 5, 6, 7, 8, 9, 10, 11, 13, 15, 17, 19, 23, 27, 31, 35, 43, 51, 59, 67, 83, 99, 115,
    131, 163, 195, 227, 258]

  const LENGTH_EXTRA: seq<nat> := [
    0, 0, 0, 0, 0, 0, 0, 0, 1, 1, 1, 1, 2, 2, 2, 2, 3, 3, 3, 3, 4, 4, 4, 4, 5, 5, 5, 5, 0]

  const DISTANCE_BASE: seq<nat> := [
    1, 2, 3, 4, 5, 7, 9, 13, 17, 25, 33, 49, 65, 97, 129, 193, 257, 385, 513, 769, 1025, 1537,
    2049, 3073, 4097, 6145, 8193, 12289, 16385, 24577]

  const DISTANCE_EXTRA: seq<nat> := [
    0, 0, 0, 0, 1, 1, 2, 2, 3, 3, 4, 4, 5, 5, 6, 6, 7, 7, 8, 8, 9, 9, 10, 10, 11, 11, 12, 12,
    13, 13]

  /** Base and number of extra bits of a length symbol. */
  function LengthCode(sym: nat): (r: (nat, nat))
    requires 257 <= sym <= 285
    ensures 3 <= r.0 <= 258 && r.1 <= 5
  {
    (LENGTH_BASE[sym - 257], LENGTH_EXTRA[sym - 257])
  }

  /** Base and number of extra bits of a distance symbol. */
  function DistanceCode(sym: nat): (r: (nat, nat))
    requires sym < 30
    ensures 1 <= r.0 && r.1 <= 13
  {
    (DISTANCE_BASE[sym], DISTANCE_EXTRA[sym])
  }

  /** A base value plus extra bits (RFC 1951 section 3.2.5). */
  ghost function WithExtra(base: nat, extra: nat, bits: seq<Bit>, p: nat): Parsed<nat> {
    if p + extra <= |bits| then Ok(base + Lsb(bits, p, extra), p + extra) else Bad
  }

  /** The length and distance that follow a length symbol. */
  ghost function BackReference(dist: seq<nat>, sym: nat, bits: seq<Bit>, p: nat): (r: Parsed<(nat, nat)>)
    requires 257 <= sym <= 285
    ensures r.Ok? ==> p <= r.next <= |bits|
  {
    match WithExtra(LengthCode(sym).0, LengthCode(sym).1, bits, p)
    case Ok(length, q) => (
      match Symbol(dist, bits, q)
      case Ok(d, q2) =>
        if d >= 30 then Bad
        else (
          match WithExtra(DistanceCode(d).0, DistanceCode(d).1, bits, q2)
          case Ok(distance, q3) => Ok((length, distance), q3)
          case _ => Bad)
      case _ => Bad)
    case _ => Bad
  }

  /** Copies byte by byte, so that a copy may overlap the bytes it produces. */
  function Copy(out: seq<Byte>, distance: nat, length: nat): (r: seq<Byte>)
    requires 1 <= distance <= |out|
    ensures |r| == |out| + length && out <= r
    decreases length
  {
    if length == 0 then out else Copy(out + [out[|out| - distance]], distance, length - 1)
  }

  ghost function HuffmanBlock(lit: seq<nat>, dist: seq<nat>, bits: seq<Bit>, p: nat, out: seq<Byte>): (r: Parsed<seq<Byte>>)
    requires p <= |bits|
    ensures r.Ok? ==> p < r.next <= |bits| && out <= r.value
    decreases |bits| - p
  {
    match Symbol(lit, bits, p)
    case Ok(sym, q) =>
      if sym < 256 then HuffmanBlock(lit, dist, bits, q, out + [sym])
      else if sym == 256 then Ok(out, q)
      else if sym <= 285 then (
        match BackReference(dist, sym, bits, q)
        case Ok(back, q2) =>
          if 1 <= back.1 <= |out| then HuffmanBlock(lit, dist, bits, q2, Copy(out, back.1, back.0)) else Bad
        case _ => Bad)
      else Bad
    case _ => Bad
  }

  ghost function StoredBytes(bits: seq<Bit>, p: nat, n: nat): (r: seq<Byte>)
    requires p + 8 * n <= |bits|
    ensures |r| == n
  {
    seq(n, i requires 0 <= i < n => ByteAt(bits, p + 8 * i))
  }

  ghost function ByteAt(bits: seq<Bit>, p: nat): Byte
    requires p + 8 <= |bits|
  {
    assert Pow2(8) == 256 by { Pow2Values(); }
    Lsb(bits, p, 8)
  }

  ghost function StoredBlock(bits: seq<Bit>, p: nat, out: seq<Byte>): (r: Parsed<seq<Byte>>)
    ensures r.Ok? ==> p < r.next <= |bits| && out <= r.value
  {
    var q := ByteBoundary(p);
    if q + 32 > |bits| then Bad
    else
      var len := Lsb(bits, q, 16);
      if Lsb(bits, q + 16, 16) != 0xFFFF - len then Bad
      else if q + 32 + 8 * len > |bits| then Bad
      else Ok(out + StoredBytes(bits, q + 32, len), q + 32 + 8 * len)
  }

  /** Order in which the code-length code lengths are stored. */
  const ORDER: seq<nat> := [16, 17, 18, 0, 8, 7, 9, 6, 10, 5, 11, 4, 12, 3, 13, 2, 14, 1, 15]

  ghost function CodeLengthCode(bits: seq<Bit>, p: nat, n: nat): (r: seq<nat>)
    requires n <= 19 && p + 3 * n <= |bits|
    ensures |r| == 19
    ensures LengthsFit(r)
  {
    if n == 0 then seq(19, _ => 0)
    else
      assert Pow2(3) == 8 by { assert Pow2(4) == 2 * Pow2(3); Pow2Values(); }
      CodeLengthCode(bits, p, n - 1)[ORDER[n - 1] := Lsb(bits, p + 3 * (n - 1), 3)]
  }

  /** The run-length coded code lengths; a last run may overshoot and is cut off. */
  ghost function CodeLengths(code: seq<nat>, total: nat, bits: seq<Bit>, p: nat, acc: seq<nat>): (r: Parsed<seq<nat>>)
    requires p <= |bits| && |code| == 19
    ensures r.Ok? ==> p <= r.next <= |bits| && |r.value| == total
    ensures LengthsFit(acc) && r.Ok? ==> LengthsFit(r.value)
    decreases |bits| - p
  {
    if |acc| >= total then Ok(acc[..total], p)
    else
      match Symbol(code, bits, p)
      case Ok(sym, q) =>
        if sym <= 15 then CodeLengths(code, total, bits, q, acc + [sym])
        else if sym == 16 && |acc| == 0 then Bad
        else (
          var width, base := if sym == 16 then 2 else if sym == 17 then 3 else 7, if sym == 18 then 11 else 3;
          var run := if sym == 16 then acc[|acc| - 1] else 0;
          match WithExtra(base, width, bits, q)
          case Ok(times, q2) => CodeLengths(code, total, bits, q2, acc + Repeat(run, times))
          case _ => Bad)
      case _ => Bad
  }

  /** Lengths that the source accepts as a tree: all trees of the format, and some others. */
  ghost function Tree(lens: seq<nat>, next: nat): (r: Parsed<seq<nat>>)
    ensures r.Ok? ==> r == Ok(lens, next)
    ensures NotOversubscribed(lens) ==> r.Ok?
  {
    AcceptsExactlyWhen(lens);
    if Accepts(lens) then Ok(lens, next) else Bad
  }

  ghost function TwoTrees(lens: seq<nat>, hlit: nat, next: nat): (r: Parsed<(seq<nat>, seq<nat>)>)
    requires hlit <= |lens|
    ensures r.Ok? ==> r == Ok((lens[..hlit], lens[hlit..]), next)
  {
    if Tree(lens[..hlit], next).Ok? && Tree(lens[hlit..], next).Ok? then Ok((lens[..hlit], lens[hlit..]), next) else Bad
  }

  /** The two trees a dynamic block declares (RFC 1951 section 3.2.7). */
  ghost function DynamicTrees(bits: seq<Bit>, p: nat): (r: Parsed<(seq<nat>, seq<nat>)>)
    requires p <= |bits|
    ensures r.Ok? ==> p < r.next <= |bits|
  {
    if p + 14 > |bits| then Bad
    else
      var hlit, hdist, hclen := Lsb(bits, p, 5) + 257, Lsb(bits, p + 5, 5) + 1, Lsb(bits, p + 10, 4) + 4;
      assert Pow2(4) == 16 by { Pow2Values(); }
      DeclaredTrees(bits, p + 14, hlit, hdist, hclen)
  }

  /** The trees behind the three counts. */
  ghost function DeclaredTrees(bits: seq<Bit>, p: nat, hlit: nat, hdist: nat, hclen: nat): (r: Parsed<(seq<nat>, seq<nat>)>)
    requires p <= |bits| && hclen <= 19
    ensures r.Ok? ==> p <= r.next <= |bits|
  {
    if p + 3 * hclen > |bits| then Bad
    else
      var code := CodeLengthCode(bits, p, hclen);
      match Tree(code, p + 3 * hclen)
      case Ok(_, q) => CodedTrees(code, bits, q, hlit, hdist)
      case Bad => Bad
  }

  /** The trees whose code lengths are coded with this code. */
  ghost function CodedTrees(code: seq<nat>, bits: seq<Bit>, p: nat, hlit: nat, hdist: nat): (r: Parsed<(seq<nat>, seq<nat>)>)
    requires p <= |bits| && |code| == 19
    ensures r.Ok? ==> p <= r.next <= |bits|
  {
    match CodeLengths(code, hlit + hdist, bits, p, [])
    case Ok(lens, q) => TwoTrees(lens, hlit, q)
    case _ => Bad
  }

  /** Lengths of the fixed trees (RFC 1951 section 3.2.6). */
  function FixedLitLens(): (r: seq<nat>)
    ensures |r| == 288
  {
    Repeat(8, 144) + Repeat(9, 112) + Repeat(7, 24) + Repeat(8, 8)
  }

  function FixedDistLens(): (r: seq<nat>)
    ensures |r| == 32
  {
    Repeat(5, 32)
  }

  ghost function OneBlock(kind: nat, bits: seq<Bit>, p: nat, out: seq<Byte>): (r: Parsed<seq<Byte>>)
    requires p <= |bits|
    ensures r.Ok? ==> p < r.next <= |bits| && out <= r.value
  {
    if kind == 0 then StoredBlock(bits, p, out)
    else if kind == 1 then HuffmanBlock(FixedLitLens(), FixedDistLens(), bits, p, out)
    else if kind == 2 then (
      match DynamicTrees(bits, p)
      case Ok(trees, q) => HuffmanBlock(trees.0, trees.1, bits, q, out)
      case Bad => Bad)
    else Bad
  }

  ghost function Blocks(bits: seq<Bit>, p: nat, out: seq<Byte>): (r: Parsed<seq<Byte>>)
    requires p <= |bits|
    ensures r.Ok? ==> p < r.next <= |bits| && out <= r.value
    decreases |bits| - p
  {
    if p + 3 > |bits| then Bad
    else
      match OneBlock(Lsb(bits, p + 1, 2), bits, p + 3, out)
      case Ok(more, q) => if Lsb(bits, p, 1) == 1 then Ok(more, q) else Blocks(bits, q, more)
      case Bad => Bad
  }

  /** One plus the sum of the bytes, unreduced. */
  function AdlerLow(data: seq<Byte>): nat {
    if data == [] then 1 else AdlerLow(data[..|data| - 1]) + data[|data| - 1]
  }

  /** The sum of the low sums over all nonempty prefixes, unreduced. */
  function AdlerHigh(data: seq<Byte>): nat {
    if data == [] then 0 else AdlerHigh(data[..|data| - 1]) + AdlerLow(data)
  }

  /** The checksum of RFC 1950 section 8.2, reduced once at the end. */
  function AdlerSum(data: seq<Byte>): nat {
    (AdlerHigh(data) % 65521) * 0x1_0000 + AdlerLow(data) % 65521
  }

  predicate GoodHeader(src: seq<Byte>) {
    && |src| >= 6
    && src[0] % 16 == 8
    && (256 * (src[0] as int) + src[1]) % 31 == 0
    && src[1] / 32 % 2 == 0
  }

  ghost function BigEndian32(bits: seq<Bit>, p: nat): nat
    requires p + 32 <= |bits|
  {
    Lsb(bits, p, 8) * 0x100_0000 + Lsb(bits, p + 8, 8) * 0x1_0000 + Lsb(bits, p + 16, 8) * 0x100 + Lsb(bits, p + 24, 8)
  }

  /** A whole zlib stream: header, blocks, checksum. */
  ghost function Zlib(src: seq<Byte>): Parsed<seq<Byte>> {
    if !GoodHeader(src) then Bad
    else
      var bits := BitList(src[2..]);
      match Blocks(bits, 0, [])
      case Ok(out, q) =>
        var a := ByteBoundary(q);
        if a + 32 <= |bits| && BigEndian32(bits, a) == AdlerSum(out) then Ok(out, a + 32) else Bad
      case Bad => Bad
  }
}
