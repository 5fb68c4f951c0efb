/** Packet framing and the block exchange over a byte stream: `src/download/transfer.rs`,
    and the answering side of `src/app.rs` and `src/upload.rs`. */
module Transfer {
  import opened Wrappers
  import opened Integers
  import opened Bits
  import opened LittleEndian
  import opened ByteRanges
  import opened Protocol

  const PROTOCOL_EDONKEY: Byte := 0x02
  const PROTOCOL_PACKED: Byte := 0x03
  const PROTOCOL_EMULE: Byte := 0x04
  const HEADER_SIZE: nat := 6
  const MAX_PACKET_SIZE: nat := 4 * 1024 * 1024 + 64

  datatype TransferError =
    | UnexpectedEof
    | InvalidPacketLength
    | PacketTooLarge
    | UnsupportedProtocol
    | UnexpectedOpcode
    | Payload(e: ProtocolError)

  datatype Packet = Packet(protocol: Byte, opcode: Byte, payload: seq<Byte>)

  predicate Supported(protocol: Byte) {
    protocol == PROTOCOL_EDONKEY || protocol == PROTOCOL_PACKED || protocol == PROTOCOL_EMULE
  }

  function NewPacket(protocol: Byte, opcode: Byte, payload: seq<Byte>): Result<Packet, TransferError> {
    if !Supported(protocol) then Failure(UnsupportedProtocol)
    else if |payload| > MAX_PACKET_SIZE then Failure(PacketTooLarge)
    else Success(Packet(protocol, opcode, payload))
  }

  function RequestPartsPacket(hash: Hash, blocks: seq<ByteRange>): Result<Packet, TransferError> {
    match RequestPartsBytes(hash, blocks)
    case Success(payload) => NewPacket(PROTOCOL_EDONKEY, OP_REQUESTPARTS, payload)
    case Failure(e) => Failure(Payload(e))
  }

  function Encode(p: Packet): Result<seq<Byte>, TransferError> {
    if !Supported(p.protocol) then Failure(UnsupportedProtocol)
    else if |p.payload| > MAX_PACKET_SIZE then Failure(PacketTooLarge)
    else Success([p.protocol] + ToLe(|p.payload| + 1, 4) + [p.opcode] + p.payload)
  }

  /** The payload length announced by a six-byte header. */
  function AnnouncedLength(header: seq<Byte>): Result<nat, TransferError>
    requires |header| >= HEADER_SIZE
  {
    if !Supported(header[0]) then Failure(UnsupportedProtocol)
    else
      var packetLen := FromLe(header[1..5]);
      if packetLen == 0 then Failure(InvalidPacketLength)
      else if packetLen - 1 > MAX_PACKET_SIZE then Failure(PacketTooLarge)
      else Success(packetLen - 1)
  }

  function Decode(frame: seq<Byte>): Result<Packet, TransferError> {
    if |frame| < HEADER_SIZE then Failure(InvalidPacketLength)
    else
      match AnnouncedLength(frame)
      case Failure(e) => Failure(e)
      case Success(n) =>
        if |frame| != HEADER_SIZE + n then Failure(InvalidPacketLength)
        else Success(Packet(frame[0], frame[5], frame[6..]))
  }

  /** A frame is the encoding of a packet exactly when it decodes to that packet. */
  lemma EncodeDecode(p: Packet, frame: seq<Byte>)
    ensures Encode(p) == Success(frame) <==> Decode(frame) == Success(p)
  {
    hide ToLe, FromLe, Pow256;
    Pow256Values();
    if Encode(p) == Success(frame) {
      FromToLe(|p.payload| + 1, 4);
      assert frame[1..5] == ToLe(|p.payload| + 1, 4);
      assert frame[6..] == p.payload;
    }
    if Decode(frame) == Success(p) {
      ToFromLe(frame[1..5]);
      assert frame == [frame[0]] + frame[1..5] + [frame[5]] + frame[6..];
    }
  }

  /** What `read_packet` finds at the front of the bytes still to come. */
  datatype Front = Read(packet: Packet, rest: seq<Byte>) | Stuck(e: TransferError)

  function FrontOf(bytes: seq<Byte>): Front {
    if |bytes| < HEADER_SIZE then Stuck(UnexpectedEof)
    else
      match AnnouncedLength(bytes)
      case Failure(e) => Stuck(e)
      case Success(n) =>
        if |bytes| < HEADER_SIZE + n then Stuck(UnexpectedEof)
        else Read(Packet(bytes[0], bytes[5], bytes[6..6 + n]), bytes[6 + n..])
  }

  /** The receiving end of a connection, with the bytes not yet read. */
  class ByteStream {
    var pending: seq<Byte>

    constructor (bytes: seq<Byte>)
      ensures pending == bytes
    {
      pending := bytes;
    }

    /** `read_exact`: all n bytes, or the end of the stream is reached. */
    method ReadExact(n: nat) returns (r: Result<seq<Byte>, TransferError>)
      modifies this
      ensures r.Success? <==> n <= |old(pending)|
      ensures r.Success? ==> r.value == old(pending)[..n] && pending == old(pending)[n..]
      ensures r.Failure? ==> r.error == UnexpectedEof && pending == []
    {
      if n > |pending| {
        pending := [];
        return Failure(UnexpectedEof);
      }
      r := Success(pending[..n]);
      pending := pending[n..];
    }

    method ReadPacket() returns (r: Result<Packet, TransferError>)
      modifies this
      ensures match FrontOf(old(pending))
        case Read(packet, rest) => r == Success(packet) && pending == rest
        case Stuck(e) => r == Failure(e)
    {
      hide FromLe;
      ghost var bytes := pending;
      var header :- ReadExact(HEADER_SIZE);
      assert header[1..5] == bytes[1..5];
      var n :- AnnouncedLength(header);
      var payload :- ReadExact(n);
      assert payload == bytes[6..6 + n] && pending == bytes[6 + n..];
      return Success(Packet(header[0], header[5], payload));
    }
  }

  /** Reading takes off exactly one encoded packet, whatever follows it on the stream. */
  lemma FrontIsEncoding(bytes: seq<Byte>, p: Packet, rest: seq<Byte>)
    ensures FrontOf(bytes) == Read(p, rest) <==> Encode(p).Success? && bytes == Encode(p).value + rest
  {
    hide ToLe, FromLe;
    if FrontOf(bytes) == Read(p, rest) {
      var frame := bytes[..HEADER_SIZE + |p.payload|];
      assert frame[1..5] == bytes[1..5];
      assert frame[6..] == p.payload;
      EncodeDecode(p, frame);
      assert bytes == frame + rest;
    }
    if Encode(p).Success? && bytes == Encode(p).value + rest {
      var frame := Encode(p).value;
      EncodeDecode(p, frame);
      assert frame[1..5] == bytes[1..5];
      assert bytes[6..|frame|] == frame[6..];
      assert bytes[|frame|..] == rest;
    }
  }

  ghost predicate Encodable(packets: seq<Packet>) {
    forall i :: 0 <= i < |packets| ==> Encode(packets[i]).Success?
  }

  function Frames(packets: seq<Packet>): seq<Byte>
    requires Encodable(packets)
  {
    if packets == [] then [] else Encode(packets[0]).value + Frames(packets[1..])
  }

  /** The packets read before the stream ends or breaks. */
  function ReadAll(bytes: seq<Byte>): seq<Packet>
    decreases |bytes|
  {
    match FrontOf(bytes)
    case Read(packet, rest) => [packet] + ReadAll(rest)
    case Stuck(_) => []
  }

  /** Packet boundaries survive concatenation: a stream of frames is read back as sent. */
  lemma {:induction false} FramesReadBack(packets: seq<Packet>)
    requires Encodable(packets)
    ensures ReadAll(Frames(packets)) == packets
  {
    hide Encode, FrontOf;
    if packets == [] {
      assert FrontOf([]).Stuck? by { NothingToRead(); }
    } else {
      FramesReadBack(packets[1..]);
      FrontIsEncoding(Frames(packets), packets[0], Frames(packets[1..]));
      assert packets == [packets[0]] + packets[1..];
    }
  }

  lemma NothingToRead()
    ensures FrontOf([]) == Stuck(UnexpectedEof)
  {
  }

  /** `request_block`: sends a request for one block and takes the next packet as its answer.
      Returns the bytes written to the peer, which are the request whatever comes back, and the
      opcode and payload to ingest. */
  method RequestBlock(hash: Hash, block: ByteRange, incoming: ByteStream)
    returns (written: seq<Byte>, r: Result<Packet, TransferError>)
    modifies incoming
    ensures RequestPartsPacket(hash, [block]).Success?
    ensures Success(written) == Encode(RequestPartsPacket(hash, [block]).value)
    ensures r.Success? ==>
      && FrontOf(old(incoming.pending)) == Read(r.value, incoming.pending)
      && (r.value.opcode == OP_SENDINGPART || r.value.opcode == OP_COMPRESSEDPART)
    ensures FrontOf(old(incoming.pending)).Stuck? ==> r == Failure(FrontOf(old(incoming.pending)).e)
    ensures FrontOf(old(incoming.pending)).Read? && r.Failure? ==>
      && r.error == UnexpectedOpcode
      && FrontOf(old(incoming.pending)).packet.opcode !in {OP_SENDINGPART, OP_COMPRESSEDPART}
  {
    hide FrontOf, Starts, Ends, ToLe, FromLe;
    var payload := EncodeRequestParts(hash, [block]);
    assert |payload.value| == 64;
    var request := NewPacket(PROTOCOL_EDONKEY, OP_REQUESTPARTS, payload.value);
    written := Encode(request.value).value;
    var response := incoming.ReadPacket();
    if response.Failure? {
      return written, Failure(response.error);
    }
    var opcode := response.value.opcode;
    if opcode != OP_SENDINGPART && opcode != OP_COMPRESSEDPART {
      return written, Failure(UnexpectedOpcode);
    }
    return written, response;
  }

  /** The uploader has the bytes of the block. */
  predicate Holds(file: seq<Byte>, block: ByteRange) {
    block.start <= block.end < |file|
  }

  /** The files shared, by their hashes. */
  type Library = map<Hash, seq<Byte>>

  function FileOf(library: Library, hash: Hash): seq<Byte> {
    if hash in library then library[hash] else []
  }

  /** What goes out for a block: its bytes, or zeros for one the uploader does not have. */
  function BlockData(file: seq<Byte>, block: ByteRange): (data: seq<Byte>)
    ensures |data| == Length(block)
  {
    if Holds(file, block) then file[block.start..block.end + 1] else Zeros(Length(block))
  }

  /** The answer to one requested block. An oversized block is a failure here; the source
      panics at that point. */
  function Answer(hash: Hash, file: seq<Byte>, block: ByteRange): Result<Packet, TransferError> {
    match EncodeSendingPart(SendingPart(hash, block.start, SaturatingIncU64(block.end), BlockData(file, block)))
    case Success(payload) => NewPacket(PROTOCOL_EDONKEY, OP_SENDINGPART, payload)
    case Failure(e) => Failure(Payload(e))
  }

  /** The packets sent for the blocks, up to the first one that cannot be answered. */
  function Answers(hash: Hash, file: seq<Byte>, blocks: seq<ByteRange>): (seq<Packet>, Option<TransferError>) {
    if blocks == [] then ([], None)
    else
      match Answer(hash, file, blocks[0])
      case Failure(e) => ([], Some(e))
      case Success(p) =>
        var (more, error) := Answers(hash, file, blocks[1..]);
        ([p] + more, error)
  }

  /** The serving loop on one request packet: the packets it sends, and what stopped it. */
  method ServeRequest(request: Packet, library: Library)
    returns (sent: seq<Packet>, error: Option<TransferError>)
    ensures request.opcode != OP_REQUESTPARTS ==> sent == [] && error == Some(UnexpectedOpcode)
    ensures request.opcode == OP_REQUESTPARTS ==>
      var parsed := ParseRequestParts(request.payload);
      && (parsed.Failure? ==> sent == [] && error == Some(Payload(parsed.error)))
      && (parsed.Success? ==>
            (sent, error) == Answers(parsed.value.hash, FileOf(library, parsed.value.hash), parsed.value.blocks))
  {
    hide ParseRequestParts, Answer;
    if request.opcode != OP_REQUESTPARTS {
      return [], Some(UnexpectedOpcode);
    }
    var decoded := DecodeRequestParts(request.payload);
    if decoded.Failure? {
      return [], Some(Payload(decoded.error));
    }
    var hash, blocks := decoded.value.hash, decoded.value.blocks;
    var file := FileOf(library, hash);
    sent := [];
    assert blocks[0..] == blocks && [] + Answers(hash, file, blocks).0 == Answers(hash, file, blocks).0;
    for i := 0 to |blocks|
      invariant
          var (more, stop) := Answers(hash, file, blocks[i..]);
          Answers(hash, file, blocks) == (sent + more, stop)
    {
      assert blocks[i..][0] == blocks[i] && blocks[i..][1..] == blocks[i + 1..];
      var answer := Answer(hash, file, blocks[i]);
      if answer.Failure? {
        assert sent + [] == sent;
        return sent, Some(answer.error);
      }
      ghost var more := Answers(hash, file, blocks[i + 1..]).0;
      assert sent + ([answer.value] + more) == sent + [answer.value] + more;
      sent := sent + [answer.value];
    }
    assert sent + [] == sent;
    return sent, None;
  }

  /** One exchange with an honest uploader: the request arrives as asked, its one answer is
      one packet, and that packet arrives carrying exactly the bytes of the block. */
  lemma BlockExchange(hash: Hash, file: seq<Byte>, block: ByteRange)
    requires |file| < U64 && Holds(file, block) && Length(block) <= MAX_BLOCK_LEN
    ensures RequestPartsPacket(hash, [block]).Success?
    ensures
        var request := RequestPartsPacket(hash, [block]).value;
        && Encode(request).Success?
        && ReadAll(Encode(request).value) == [request]
        && ParseRequestParts(request.payload) == Success(RequestParts(hash, [block]))
    ensures Answer(hash, file, block).Success?
    ensures
        var answer := Answer(hash, file, block).value;
        && Answers(hash, file, [block]) == ([answer], None)
        && answer.opcode == OP_SENDINGPART
        && Encode(answer).Success?
        && ReadAll(Encode(answer).value) == [answer]
        && DecodeSendingPart(answer.payload) == Success(PartOf(hash, file, block))
  {
    hide Answer, RequestPartsPacket, ParseRequestParts, Encode, ReadAll, DecodeSendingPart;
    RequestArrives(hash, block);
    AnswerArrives(hash, file, block);
    var answer := Answer(hash, file, block).value;
    assert Answers(hash, file, [block][1..]) == ([], None);
    assert [answer] + [] == [answer];
  }

  function PartOf(hash: Hash, file: seq<Byte>, block: ByteRange): SendingPart
    requires Holds(file, block)
  {
    SendingPart(hash, block.start, block.end + 1, file[block.start..block.end + 1])
  }

  lemma RequestArrives(hash: Hash, block: ByteRange)
    requires block.start <= block.end < U64 - 1
    ensures RequestPartsPacket(hash, [block]).Success?
    ensures
        var request := RequestPartsPacket(hash, [block]).value;
        && Encode(request).Success?
        && ReadAll(Encode(request).value) == [request]
        && ParseRequestParts(request.payload) == Success(RequestParts(hash, [block]))
  {
    hide ToLe, FromLe, Starts, Ends, ParseRequestParts, FrontOf, ReadAll;
    var request := RequestPartsPacket(hash, [block]).value;
    RequestRoundTrip(hash, [block]);
    FrameReadsBack(request);
  }

  lemma AnswerArrives(hash: Hash, file: seq<Byte>, block: ByteRange)
    requires |file| < U64 && Holds(file, block) && Length(block) <= MAX_BLOCK_LEN
    ensures Answer(hash, file, block).Success?
    ensures
        var answer := Answer(hash, file, block).value;
        && answer.opcode == OP_SENDINGPART
        && Encode(answer).Success?
        && ReadAll(Encode(answer).value) == [answer]
        && DecodeSendingPart(answer.payload) == Success(PartOf(hash, file, block))
  {
    hide ToLe, FromLe, FrontOf, DecodeSendingPart, ReadAll;
    var part := PartOf(hash, file, block);
    SendingPartRoundTrip(part, EncodeSendingPart(part).value);
    FrameReadsBack(Answer(hash, file, block).value);
  }

  /** An answer that is sent carries the bytes of the block exactly when the uploader has it,
      or its bytes happen to be zeros. */
  lemma AnswerIsGenuineExactlyWhen(hash: Hash, file: seq<Byte>, source: seq<Byte>, block: ByteRange)
    requires |source| < U64 && Holds(source, block) && Length(block) <= MAX_BLOCK_LEN
    requires Holds(file, block) ==> file[block.start..block.end + 1] == source[block.start..block.end + 1]
    ensures Answer(hash, file, block).Success? && DecodeSendingPart(Answer(hash, file, block).value.payload).Success?
    ensures
        var data := DecodeSendingPart(Answer(hash, file, block).value.payload).value.data;
        data == source[block.start..block.end + 1] <==>
          Holds(file, block) || forall b :: block.start <= b <= block.end ==> source[b] == 0
  {
    hide ToLe, FromLe, DecodeSendingPart;
    var part := SendingPart(hash, block.start, block.end + 1, BlockData(file, block));
    SendingPartRoundTrip(part, EncodeSendingPart(part).value);
    var bytes := source[block.start..block.end + 1];
    if forall b :: block.start <= b <= block.end ==> source[b] == 0 {
      assert bytes == Zeros(Length(block));
    }
    if b :| block.start <= b <= block.end && source[b] != 0 {
      assert bytes[b - block.start] != Zeros(Length(block))[b - block.start];
    }
  }

  lemma FrameReadsBack(p: Packet)
    requires Encode(p).Success?
    ensures ReadAll(Encode(p).value) == [p]
  {
    hide Encode, ReadAll;
    FramesReadBack([p]);
    assert Frames([p]) == Encode(p).value + Frames([p][1..]);
    assert Encode(p).value + [] == Encode(p).value;
  }
}
