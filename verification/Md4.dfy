/** MD4 fed in pieces (`src/kad/md4.rs`) against the padded whole message of RFC 1320 section
    3. The block function is a parameter. */
module Md4s {
  import opened Bits
  import opened LittleEndian

  /** The four state words. */
  datatype Words = Words(a: nat, b: nat, c: nat, d: nat)

  /** `process_block` on 64 bytes. */
  type BlockFunction = (Words, seq<Byte>) -> Words

  const INITIAL := Words(0x6745_2301, 0xEFCD_AB89, 0x98BA_DCFE, 0x1032_5476)
  const U64_MAX: nat := 0xFFFF_FFFF_FFFF_FFFF

  function Fold(process: BlockFunction, st: Words, s: seq<Byte>): Words
    requires |s| % 64 == 0
    decreases |s|
  {
    if s == [] then st else Fold(process, process(st, s[..64]), s[64..])
  }

  lemma {:induction false} FoldConcat(process: BlockFunction, st: Words, s: seq<Byte>, t: seq<Byte>)
    requires |s| % 64 == 0 && |t| % 64 == 0
    ensures Fold(process, st, s + t) == Fold(process, Fold(process, st, s), t)
    decreases |s|
  {
    if s == [] {
      assert s + t == t;
    } else {
      assert (s + t)[..64] == s[..64] && (s + t)[64..] == s[64..] + t;
      FoldConcat(process, process(st, s[..64]), s[64..], t);
    }
  }

  function Zeros(n: nat): (s: seq<Byte>)
    ensures |s| == n
  {
    seq(n, _ => 0)
  }

  /** Zeros up to 56 modulo 64, after the single one bit. */
  function Gap(length: nat): (n: nat)
    ensures (length + 1 + n) % 64 == 56 && n < 64
  {
    (119 - length % 64) % 64
  }

  /** One bit, zeros, and a 64-bit count behind a message of this length. */
  function PaddedWith(message: seq<Byte>, count: nat): (r: seq<Byte>)
    ensures |r| % 64 == 0
  {
    message + [0x80] + Zeros(Gap(|message|)) + ToLe(count, 8)
  }

  /** The padding of RFC 1320 sections 3.1 and 3.2: the low 64 bits of the bit length. */
  function Padded(message: seq<Byte>): (r: seq<Byte>)
    ensures |r| % 64 == 0
  {
    PaddedWith(message, 8 * |message| % (U64_MAX + 1))
  }

  function EncodeState(w: Words): seq<Byte> {
    ToLe(w.a, 4) + ToLe(w.b, 4) + ToLe(w.c, 4) + ToLe(w.d, 4)
  }

  /** The digest of the whole message. */
  function Digest(process: BlockFunction, message: seq<Byte>): seq<Byte> {
    EncodeState(Fold(process, INITIAL, Padded(message)))
  }

  /** `saturating_mul(8)` on a saturated byte count. */
  function SaturatedBits(length: nat): nat {
    var bytes := if length <= U64_MAX then length else U64_MAX;
    if 8 * bytes <= U64_MAX then 8 * bytes else U64_MAX
  }

  /** The bit count in the padding is the one RFC 1320 asks for exactly when the message is
      shorter than 2^61 bytes. */
  lemma CountIsRightExactlyWhen(length: nat)
    ensures SaturatedBits(length) == 8 * length % (U64_MAX + 1) <==> length < 0x2000_0000_0000_0000
  {
    if length >= 0x2000_0000_0000_0000 {
      var q, r := length / 0x2000_0000_0000_0000, length % 0x2000_0000_0000_0000;
      assert 8 * length == 8 * r + 0x1_0000_0000_0000_0000 * q;
      SplitAt(8 * r, q, 0x1_0000_0000_0000_0000);
      assert 8 * r != U64_MAX;
    }
  }

  class Md4 {
    const process: BlockFunction
    var state: Words
    var buffer: seq<Byte>
    var totalLen: nat

    /** Everything fed in so far, and the part of it that is processed. */
    ghost var fed: seq<Byte>
    ghost var head: seq<Byte>

    ghost predicate Valid()
      reads this
    {
      && |buffer| < 64 && totalLen == (if |fed| <= U64_MAX then |fed| else U64_MAX)
      && fed == head + buffer && |head| % 64 == 0
      && state == Fold(process, INITIAL, head)
    }

    constructor (process: BlockFunction)
      ensures Valid() && fed == [] && this.process == process
    {
      this.process := process;
      state, buffer, totalLen, fed, head := INITIAL, [], 0, [], [];
    }

    /** `chunks_exact(64)` over a buffer of whole blocks. */
    method ProcessBlocks(blocks: seq<Byte>)
      requires |blocks| % 64 == 0
      modifies this`state
      ensures state == Fold(process, old(state), blocks)
    {
      var k := 0;
      assert blocks[0..] == blocks;
      while k < |blocks|
        invariant k <= |blocks| && k % 64 == 0
        invariant Fold(process, state, blocks[k..]) == Fold(process, old(state), blocks)
        decreases |blocks| - k
      {
        assert blocks[k..][..64] == blocks[k..k + 64] && blocks[k..][64..] == blocks[k + 64..];
        state := process(state, blocks[k..k + 64]);
        k := k + 64;
      }
    }

    /** `update`: whole blocks are processed, less than one stays in the buffer. */
    method Update(input: seq<Byte>)
      requires Valid()
      modifies this
      ensures Valid() && fed == old(fed) + input && |buffer| < 64
    {
      hide Fold;
      totalLen := if totalLen + |input| <= U64_MAX then totalLen + |input| else U64_MAX;
      buffer := buffer + input;
      fed := fed + input;
      var full := |buffer| - |buffer| % 64;
      var blocks := buffer[..full];
      FoldConcat(process, INITIAL, head, blocks);
      ProcessBlocks(blocks);
      buffer := buffer[full..];
      head := head + blocks;
    }

    /** `finalize`. */
    method Finalize() returns (digest: seq<Byte>)
      requires Valid()
      modifies this
      ensures digest == EncodeState(Fold(process, INITIAL, PaddedWith(old(fed), SaturatedBits(|old(fed)|))))
    {
      hide Fold, ToLe, EncodeState, PaddedWith;
      var bits := if 8 * totalLen <= U64_MAX then 8 * totalLen else U64_MAX;
      var padded := PadBuffer(buffer, bits);
      PaddedPieces(head, buffer, bits);
      buffer := padded;
      FoldConcat(process, INITIAL, head, buffer);
      ProcessBlocks(buffer);
      digest := EncodeState(state);
    }
  }

  /** The padding loop of `finalize`. */
  method PadBuffer(tail: seq<Byte>, bits: nat) returns (buffer: seq<Byte>)
    ensures buffer == PaddedWith(tail, bits)
  {
    hide ToLe;
    buffer := tail + [0x80];
    ghost var zeros: nat := 0;
    while |buffer| % 64 != 56
      invariant zeros <= Gap(|tail|) && buffer == tail + [0x80] + Zeros(zeros)
      decreases Gap(|tail|) - zeros
    {
      GapIsLeast(|tail|, zeros);
      assert Zeros(zeros + 1) == Zeros(zeros) + [0];
      buffer := buffer + [0];
      zeros := zeros + 1;
    }
    GapIsUnique(|tail|, zeros);
    buffer := buffer + ToLe(bits, 8);
  }

  lemma PaddedPieces(head: seq<Byte>, tail: seq<Byte>, bits: nat)
    requires |head| % 64 == 0
    ensures head + PaddedWith(tail, bits) == PaddedWith(head + tail, bits)
  {
    hide ToLe, Gap, Zeros;
    SameGap(|head|, |tail|);
  }

  lemma SameGap(whole: nat, rest: nat)
    requires whole % 64 == 0
    ensures Gap(whole + rest) == Gap(rest)
  {
  }

  lemma GapIsLeast(length: nat, n: nat)
    requires n <= Gap(length) && (length + 1 + n) % 64 != 56
    ensures n < Gap(length)
  {
  }

  lemma GapIsUnique(length: nat, n: nat)
    requires n <= Gap(length) && (length + 1 + n) % 64 == 56
    ensures n == Gap(length)
  {
  }

  function Concat(chunks: seq<seq<Byte>>): seq<Byte> {
    if chunks == [] then [] else Concat(chunks[..|chunks| - 1]) + chunks[|chunks| - 1]
  }

  /** `digest_reader`: whatever pieces the reader hands out, and `digest` with one piece: the
      result is the digest of the whole message whenever that is shorter than 2^61 bytes. */
  method DigestChunks(process: BlockFunction, chunks: seq<seq<Byte>>) returns (digest: seq<Byte>)
    ensures |Concat(chunks)| < 0x2000_0000_0000_0000 ==> digest == Digest(process, Concat(chunks))
  {
    hide Fold, EncodeState, ToLe;
    var md4 := new Md4(process);
    for i := 0 to |chunks|
      invariant md4.Valid() && md4.process == process && md4.fed == Concat(chunks[..i])
    {
      assert chunks[..i + 1][..i] == chunks[..i];
      md4.Update(chunks[i]);
    }
    assert chunks[..|chunks|] == chunks;
    digest := md4.Finalize();
    CountIsRightExactlyWhen(|Concat(chunks)|);
  }

  /** The state before the first block: the words of RFC 1320 section 3.3, low-order bytes
      first. */
  lemma StartsWith()
    ensures EncodeState(INITIAL)
         == [0x01, 0x23, 0x45, 0x67, 0x89, 0xAB, 0xCD, 0xEF, 0xFE, 0xDC, 0xBA, 0x98, 0x76, 0x54, 0x32, 0x10]
  {
    WordBytes(0x6745_2301, 0x01, 0x23, 0x45, 0x67);
    WordBytes(0xEFCD_AB89, 0x89, 0xAB, 0xCD, 0xEF);
    WordBytes(0x98BA_DCFE, 0xFE, 0xDC, 0xBA, 0x98);
    WordBytes(0x1032_5476, 0x76, 0x54, 0x32, 0x10);
    hide ToLe;
  }

  /** The one block of a message of at most 55 bytes: the message, the byte 0x80, zeros, and the
      number of its bits in eight bytes, low-order byte first. */
  lemma ShortMessage(process: BlockFunction, message: seq<Byte>)
    requires |message| <= 55
    ensures
        var block := message + [0x80] + Zeros(55 - |message|) + [8 * |message| % 256, 8 * |message| / 256, 0, 0, 0, 0, 0, 0];
        && |block| == 64 && Padded(message) == block
        && Digest(process, message) == EncodeState(process(INITIAL, block))
  {
    hide EncodeState, Fold, ToLe, Gap;
    ShortGap(|message|);
    SmallCount(8 * |message|);
    OneBlock(process, INITIAL, Padded(message));
  }

  lemma ShortGap(n: nat)
    requires n <= 55
    ensures Gap(n) == 55 - n && 8 * n % (U64_MAX + 1) == 8 * n
  {
  }

  lemma OneBlock(process: BlockFunction, st: Words, block: seq<Byte>)
    requires |block| == 64
    ensures Fold(process, st, block) == process(st, block)
  {
    assert block[..64] == block && block[64..] == [];
    assert Fold(process, process(st, block), []) == process(st, block);
  }

  lemma SmallCount(n: nat)
    requires n < 0x1_0000
    ensures ToLe(n, 8) == [n % 256, n / 256, 0, 0, 0, 0, 0, 0]
  {
    ZeroBytes(6);
    hide ToLe;
    LowByte(n, n % 256, n / 256, 7);
    LowByte(n / 256, n / 256, 0, 6);
  }

  lemma {:induction false} ZeroBytes(k: nat)
    ensures ToLe(0, k) == Zeros(k)
  {
    if k > 0 {
      ZeroBytes(k - 1);
    }
  }
}
