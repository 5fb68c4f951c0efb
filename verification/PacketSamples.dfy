/** What stands on the wire in the block exchange and in an obfuscated datagram, byte by byte, and
    the limits in numbers. */
module PacketSamples {
  import opened Wrappers
  import opened Integers
  import opened Bits
  import opened LittleEndian
  import opened ByteRanges
  import opened Protocol
  import opened Transfer
  import opened Ingest
  import opened Rc4s
  import opened UdpCrypto
  import Deflate
  import Xors

  /** A request for one block: 65 bytes behind the length, the opcode 2B, the hash of the file,
      three starts and three ends, of which one each is used. */
  lemma RequestLayout(hash: Hash, block: ByteRange)
    requires block.start <= block.end < U64 - 1
    ensures RequestPartsPacket(hash, [block]).Success?
    ensures Encode(RequestPartsPacket(hash, [block]).value)
         == Success([0x02, 65, 0, 0, 0, 0x2B] + hash + ToLe(block.start, 8) + Zeros(16) + ToLe(block.end + 1, 8) + Zeros(16))
  {
    hide ToLe, Starts, Ends;
    var payload := hash + Starts([block], 3) + Ends([block], 3);
    OneSlot(block);
    WordBytes(65, 65, 0, 0, 0);
    assert RequestPartsPacket(hash, [block]) == Success(Packet(0x02, 0x2B, payload));
    assert |payload| == 64;
    assert Encode(Packet(0x02, 0x2B, payload)) == Success([0x02] + [65, 0, 0, 0] + [0x2B] + payload);
    var a, b := ToLe(block.start, 8) + Zeros(16), ToLe(block.end + 1, 8) + Zeros(16);
    assert [0x02] + [65, 0, 0, 0] + [0x2B] == [0x02, 65, 0, 0, 0, 0x2B];
    assert [0x02, 65, 0, 0, 0, 0x2B] + (hash + a + b)
        == [0x02, 65, 0, 0, 0, 0x2B] + hash + ToLe(block.start, 8) + Zeros(16) + ToLe(block.end + 1, 8) + Zeros(16);
  }

  lemma OneSlot(block: ByteRange)
    requires block.start <= block.end < U64 - 1
    ensures Starts([block], 3) == ToLe(block.start, 8) + Zeros(16) && Ends([block], 3) == ToLe(block.end + 1, 8) + Zeros(16)
  {
    hide ToLe, Starts, Ends;
    NoSlots([block]);
    NextSlot([block], 0);
    NextSlot([block], 1);
    NextSlot([block], 2);
    assert ToLe(0, 8) == Zeros(8) by { EightZeros(); }
    assert Zeros(8) + Zeros(8) == Zeros(16);
  }

  lemma EightZeros()
    ensures ToLe(0, 8) == Zeros(8)
  {
    hide ToLe;
    LowByte(0, 0, 0, 7);
    LowByte(0, 0, 0, 6);
    LowByte(0, 0, 0, 5);
    LowByte(0, 0, 0, 4);
    LowByte(0, 0, 0, 3);
    LowByte(0, 0, 0, 2);
    LowByte(0, 0, 0, 1);
    LowByte(0, 0, 0, 0);
    NoByte();
  }

  lemma NoByte()
    ensures ToLe(0, 0) == []
  {
  }

  /** The answer to it: the opcode 2A, the hash, start and end of the block, and its bytes. */
  lemma AnswerLayout(hash: Hash, file: seq<Byte>, block: ByteRange)
    requires Holds(file, block) && Length(block) <= 4_194_304 && |file| < U64
    ensures Answer(hash, file, block).Success?
    ensures Encode(Answer(hash, file, block).value)
         == Success([0x02] + ToLe(33 + Length(block), 4) + [0x2A] + hash + ToLe(block.start, 8) + ToLe(block.end + 1, 8)
                    + file[block.start..block.end + 1])
  {
    hide ToLe;
    var payload := hash + ToLe(block.start, 8) + ToLe(block.end + 1, 8) + file[block.start..block.end + 1];
    assert Answer(hash, file, block) == Success(Packet(0x02, 0x2A, payload));
    assert |payload| + 1 == 33 + Length(block);
    var front := [0x02] + ToLe(33 + Length(block), 4) + [0x2A];
    assert front + payload == front + hash + ToLe(block.start, 8) + ToLe(block.end + 1, 8) + file[block.start..block.end + 1];
  }

  /** Blocks of more than 4 MiB are not answered, and no packet is longer than 64 bytes more. */
  lemma PacketLimits(hash: Hash, file: seq<Byte>, block: ByteRange, header: seq<Byte>)
    requires block.start <= block.end < U64 - 1 && |header| >= 6
    ensures Answer(hash, file, block).Success? <==> Length(block) <= 4_194_304
    ensures AnnouncedLength(header).Success? <==> header[0] in {0x02, 0x03, 0x04} && 1 <= FromLe(header[1..5]) <= 4_194_369
    ensures AnnouncedLength(header).Success? ==> AnnouncedLength(header).value == FromLe(header[1..5]) - 1
  {
    hide ToLe, FromLe;
  }

  /** What a part brings in: opcode 2A with its bytes as they are, 46 with its bytes in a zlib
      stream, and no other opcode anything. */
  lemma DeliveredByOpcode(hash: Hash, start: nat, data: seq<Byte>, opcode: Byte)
    requires 1 <= |data| <= 4_194_304 && start + |data| < U64
    ensures Delivered(hash, 0x2A, hash + ToLe(start, 8) + ToLe(start + |data|, 8) + data)
         == Block(ByteRange(start, start + |data| - 1), data)
    ensures opcode != 0x2A && opcode != 0x46 ==> Delivered(hash, opcode, data) == Rejected
  {
    hide ToLe, FromLe, Deflate.Zlib, DecodeCompressedPart, DecodeSendingPart, EncodeSendingPart;
    var part := SendingPart(hash, start, start + |data|, data);
    var payload := hash + ToLe(start, 8) + ToLe(start + |data|, 8) + data;
    SentAs(part);
    SendingPartRoundTrip(part, payload);
  }

  lemma SentAs(p: SendingPart)
    requires p.start < p.endExclusive && |p.data| == p.endExclusive - p.start <= 4_194_304
    ensures EncodeSendingPart(p) == Success(p.hash + ToLe(p.start, 8) + ToLe(p.endExclusive, 8) + p.data)
  {
    hide ToLe;
  }

  lemma DeliveredCompressed(hash: Hash, start: nat, data: seq<Byte>, compressed: seq<Byte>)
    requires 1 <= |data| <= 4_194_304 && |compressed| <= 4_194_304 && start + |data| < U64
    requires Deflate.Zlib(compressed).Ok? && Deflate.Zlib(compressed).value == data
    ensures Delivered(hash, 0x46, hash + ToLe(start, 8) + ToLe(|data|, 4) + compressed)
         == Block(ByteRange(start, start + |data| - 1), data)
  {
    hide ToLe, FromLe, Deflate.Zlib, Pow256;
    var payload := hash + ToLe(start, 8) + ToLe(|data|, 4) + compressed;
    Pow256Values();
    FromToLe(start, 8);
    FromToLe(|data|, 4);
    assert payload[16..24] == ToLe(start, 8) && payload[24..28] == ToLe(|data|, 4);
    assert payload[..16] == hash && payload[28..] == compressed;
    assert DecodeCompressedPart(payload) == Success(CompressedPart(hash, start, |data|, compressed));
  }

  /** An obfuscated datagram: a marker, two random bytes, and behind them, enciphered: the value
      0x395F2EC1, the length of no padding, the keys of receiver and sender, and the packet. */
  lemma DatagramLayout(st: State, part: Pair, marker: Byte, plain: seq<Byte>, receiverKey: nat, senderKey: nat)
    requires |st.s| == 256
    ensures Sealed(st, marker, part, plain, receiverKey, senderKey)
         == [marker] + part + Crypt(st, [0xC1, 0x2E, 0x5F, 0x39, 0x00] + ToLe(receiverKey, 4) + ToLe(senderKey, 4) + plain)
  {
    hide ToLe, Crypt;
    WordBytes(0x395F2EC1, 0xC1, 0x2E, 0x5F, 0x39);
    Joined(ToLe(receiverKey, 4), ToLe(senderKey, 4), plain);
  }

  lemma Joined(r: seq<Byte>, s: seq<Byte>, plain: seq<Byte>)
    ensures [0xC1, 0x2E, 0x5F, 0x39] + ([0] + (r + (s + plain))) == [0xC1, 0x2E, 0x5F, 0x39, 0x00] + r + s + plain
  {
  }

  /** What the cipher is keyed with: the digest of our identifier, or of the receiver's verify key,
      followed by the two random bytes. */
  lemma KeyedWith(md5: Digest, id: seq<Byte>, receiverKey: nat, part: Pair, a: seq<Byte>, b: seq<Byte>)
    requires a == id + part && b == ToLe(receiverKey, 4) + part
    ensures NodeState(md5, id, part) == Initial(md5(a)) && ReceiverState(md5, receiverKey, part) == Initial(md5(b))
  {
    hide ToLe, Initial;
  }

  /** Which datagrams are taken as they are. */
  lemma TakenAsTheyAre(md5: Digest, buf: seq<Byte>, id: seq<Byte>, secret: nat, from: nat)
    requires |buf| <= 8 || buf[0] in {0x01, 0x02, 0x03, 0x04, 0x05, 0x06, 0xA3, 0xB2}
    ensures Opened(md5, buf, id, secret, from) == Some(Decrypted(buf, 0, 0, false))
  {
  }

  /** The verify key: the words of the digest of target and secret, in this order, are folded onto
      each other, so that equal words cancel; the key is one more than the remainder by
      2^32 - 2. */
  lemma VerifyKeyFolds(md5: Digest, secret: nat, target: nat, h: seq<Byte>)
    requires md5(ToLe(target, 4) + ToLe(secret, 4)) == h && |h| == 16
    ensures h[0..4] == h[4..8] && h[8..12] == h[12..16] ==> UdpVerifyKey(md5, secret, target) == 1
    ensures h[0..4] == h[4..8] && FromLe(h[12..16]) == 0 ==>
      UdpVerifyKey(md5, secret, target) == FromLe(h[8..12]) % 0xFFFF_FFFE + 1
    ensures h[8..12] == h[12..16] && FromLe(h[4..8]) == 0 ==>
      UdpVerifyKey(md5, secret, target) == FromLe(h[0..4]) % 0xFFFF_FFFE + 1
  {
    hide ToLe, FromLe, Xors.Xor;
    var a, b, c, d := FromLe(h[0..4]), FromLe(h[4..8]), FromLe(h[8..12]), FromLe(h[12..16]);
    WordFits(h[0..4]);
    WordFits(h[8..12]);
    Xors.XorSelf(a, 32);
    Xors.XorSelf(c, 32);
    Xors.XorNothing(a, 32);
    Xors.XorNothing(c, 32);
    Xors.XorNothing(0, 32);
    Xors.XorTwice(a, c, 32);
  }

  lemma WordFits(s: seq<Byte>)
    requires |s| == 4
    ensures FromLe(s) < Pow2(32)
  {
    ToFromLe(s);
    Pow256Values();
    Pow2Values();
    Pow2Add(16, 16);
  }

  /** Hexadecimal bytes: letters of either case, and a plus sign for a leading zero. */
  lemma HexSamples()
    ensures HexPair('0', 'a') == Some(0x0A) && HexPair('F', 'f') == Some(0xFF) && HexPair('+', '7') == Some(0x07)
    ensures HexPair('7', '+') == None && HexPair('g', '0') == None && HexPair('0', ' ') == None
    ensures ToHexLower([0x0A, 0xF9]) == "0af9"
  {
    assert [0x0A, 0xF9][1..] == [0xF9] && [0xF9][1..] == [] && ToHexLower([]) == "";
  }
}
