/** Block requests and block answers: the payloads of `src/download/protocol.rs`. */
module Protocol {
  import opened Wrappers
  import opened Collections
  import opened Integers
  import opened Bits
  import opened LittleEndian
  import opened ByteRanges

  const OP_SENDINGPART: Byte := 0x2A
  const OP_REQUESTPARTS: Byte := 0x2B
  const OP_COMPRESSEDPART: Byte := 0x46
  const MAX_BLOCK_LEN: nat := 4 * 1024 * 1024

  datatype ProtocolError =
    | Truncated
    | InvalidRange
    | InvalidLength
    | TooManyBlocks
    | PayloadTooLarge
    | BlockTooLarge

  type Hash = h: seq<Byte> | |h| == 16 witness seq(16, _ => 0)

  datatype RequestParts = RequestParts(hash: Hash, blocks: seq<ByteRange>)
  datatype SendingPart = SendingPart(hash: Hash, start: nat, endExclusive: nat, data: seq<Byte>)
  datatype CompressedPart = CompressedPart(hash: Hash, start: nat, unpackedLen: nat, compressed: seq<Byte>)

  function StartOr0(blocks: seq<ByteRange>, i: nat): nat {
    if i < |blocks| then blocks[i].start else 0
  }

  function EndExclusiveOr0(blocks: seq<ByteRange>, i: nat): nat {
    if i < |blocks| then SaturatingIncU64(blocks[i].end) else 0
  }

  method EncodeRequestParts(hash: Hash, blocks: seq<ByteRange>) returns (r: Result<seq<Byte>, ProtocolError>)
    ensures r == RequestPartsBytes(hash, blocks)
  {
    hide ToLe, StartOr0, EndExclusiveOr0, Starts, Ends;
    if |blocks| > 3 {
      return Failure(TooManyBlocks);
    }
    NoSlots(blocks);
    var out: seq<Byte> := hash;
    assert hash + [] == out;
    for i := 0 to 3
      invariant out == hash + Starts(blocks, i)
    {
      NextSlot(blocks, i);
      Associative(hash, Starts(blocks, i), ToLe(StartOr0(blocks, i), 8));
      out := out + ToLe(StartOr0(blocks, i), 8);
    }
    ghost var front := out;
    assert front + [] == out;
    for i := 0 to 3
      invariant out == front + Ends(blocks, i)
    {
      NextSlot(blocks, i);
      Associative(front, Ends(blocks, i), ToLe(EndExclusiveOr0(blocks, i), 8));
      out := out + ToLe(EndExclusiveOr0(blocks, i), 8);
    }
    return Success(out);
  }

  function Starts(blocks: seq<ByteRange>, n: nat): (r: seq<Byte>)
    ensures |r| == 8 * n
  {
    if n == 0 then [] else Starts(blocks, n - 1) + ToLe(StartOr0(blocks, n - 1), 8)
  }

  function Ends(blocks: seq<ByteRange>, n: nat): (r: seq<Byte>)
    ensures |r| == 8 * n
  {
    if n == 0 then [] else Ends(blocks, n - 1) + ToLe(EndExclusiveOr0(blocks, n - 1), 8)
  }

  lemma NoSlots(blocks: seq<ByteRange>)
    ensures Starts(blocks, 0) == [] && Ends(blocks, 0) == []
  {
  }

  lemma NextSlot(blocks: seq<ByteRange>, i: nat)
    ensures Starts(blocks, i + 1) == Starts(blocks, i) + ToLe(StartOr0(blocks, i), 8)
    ensures Ends(blocks, i + 1) == Ends(blocks, i) + ToLe(EndExclusiveOr0(blocks, i), 8)
  {
  }

  function RequestPartsBytes(hash: Hash, blocks: seq<ByteRange>): Result<seq<Byte>, ProtocolError> {
    if |blocks| > 3 then Failure(TooManyBlocks) else Success(hash + Starts(blocks, 3) + Ends(blocks, 3))
  }

  function U64At(payload: seq<Byte>, offset: nat): nat
    requires offset + 8 <= |payload|
  {
    FromLe(payload[offset..offset + 8])
  }

  /** The blocks named by slots i, i + 1, ... of a request; an all-zero slot is skipped. */
  function RequestedFrom(payload: seq<Byte>, i: nat): Result<seq<ByteRange>, ProtocolError>
    requires |payload| == 64 && i <= 3
    decreases 3 - i
  {
    if i == 3 then Success([])
    else
      var start, endExclusive := U64At(payload, 16 + 8 * i), U64At(payload, 40 + 8 * i);
      if start == 0 && endExclusive == 0 then RequestedFrom(payload, i + 1)
      else if endExclusive <= start then Failure(InvalidRange)
      else
        After([ByteRange(start, endExclusive - 1)], RequestedFrom(payload, i + 1))
  }

  function After(blocks: seq<ByteRange>, rest: Result<seq<ByteRange>, ProtocolError>)
    : Result<seq<ByteRange>, ProtocolError>
  {
    match rest
    case Success(more) => Success(blocks + more)
    case Failure(e) => Failure(e)
  }

  lemma AfterAppends(blocks: seq<ByteRange>, block: ByteRange, rest: Result<seq<ByteRange>, ProtocolError>)
    ensures After(blocks + [block], rest) == After(blocks, After([block], rest))
  {
    if rest.Success? {
      assert blocks + [block] + rest.value == blocks + ([block] + rest.value);
    }
  }

  function ParseRequestParts(payload: seq<Byte>): Result<RequestParts, ProtocolError> {
    if |payload| != 64 then Failure(InvalidLength)
    else
      match RequestedFrom(payload, 0)
      case Success(blocks) => Success(RequestParts(payload[..16], blocks))
      case Failure(e) => Failure(e)
  }

  /** The decoder's loop over the three slots. */
  method DecodeRequestParts(payload: seq<Byte>) returns (r: Result<RequestParts, ProtocolError>)
    ensures r == ParseRequestParts(payload)
  {
    if |payload| != 64 {
      return Failure(InvalidLength);
    }
    var blocks: seq<ByteRange> := [];
    assert RequestedFrom(payload, 0).Success? ==> [] + RequestedFrom(payload, 0).value == RequestedFrom(payload, 0).value;
    for i := 0 to 3
      invariant RequestedFrom(payload, 0) == After(blocks, RequestedFrom(payload, i))
    {
      var start, endExclusive := U64At(payload, 16 + 8 * i), U64At(payload, 40 + 8 * i);
      if start == 0 && endExclusive == 0 {
        continue;
      }
      if endExclusive <= start {
        return Failure(InvalidRange);
      }
      var block := ByteRange(start, endExclusive - 1);
      AfterAppends(blocks, block, RequestedFrom(payload, i + 1));
      blocks := blocks + [block];
    }
    assert blocks + [] == blocks;
    return Success(RequestParts(payload[..16], blocks));
  }

  ghost predicate RequestableBlocks(blocks: seq<ByteRange>) {
    |blocks| <= 3 && forall i :: 0 <= i < |blocks| ==> blocks[i].start <= blocks[i].end < U64 - 1
  }

  lemma SlotsReadBack(hash: Hash, blocks: seq<ByteRange>, i: nat)
    requires RequestableBlocks(blocks) && i < 3
    ensures
        var payload := hash + Starts(blocks, 3) + Ends(blocks, 3);
        && U64At(payload, 16 + 8 * i) == StartOr0(blocks, i)
        && U64At(payload, 40 + 8 * i) == EndExclusiveOr0(blocks, i)
  {
    hide ToLe, FromLe, Pow256;
    var payload := hash + Starts(blocks, 3) + Ends(blocks, 3);
    Pow256Values();
    FromToLe(StartOr0(blocks, i), 8);
    FromToLe(EndExclusiveOr0(blocks, i), 8);
    SlotSlices(blocks, i);
    assert payload[16 + 8 * i..16 + 8 * i + 8] == Starts(blocks, 3)[8 * i..8 * i + 8];
    assert payload[40 + 8 * i..40 + 8 * i + 8] == Ends(blocks, 3)[8 * i..8 * i + 8];
  }

  lemma SlotSlices(blocks: seq<ByteRange>, i: nat)
    requires i < 3
    ensures Starts(blocks, 3)[8 * i..8 * i + 8] == ToLe(StartOr0(blocks, i), 8)
    ensures Ends(blocks, 3)[8 * i..8 * i + 8] == ToLe(EndExclusiveOr0(blocks, i), 8)
  {
    hide ToLe;
    assert Starts(blocks, 1)[0..8] == ToLe(StartOr0(blocks, 0), 8);
    assert Starts(blocks, 2)[8..16] == ToLe(StartOr0(blocks, 1), 8);
    assert Starts(blocks, 3)[..16] == Starts(blocks, 2) && Starts(blocks, 2)[..8] == Starts(blocks, 1);
    assert Ends(blocks, 1)[0..8] == ToLe(EndExclusiveOr0(blocks, 0), 8);
    assert Ends(blocks, 2)[8..16] == ToLe(EndExclusiveOr0(blocks, 1), 8);
    assert Ends(blocks, 3)[..16] == Ends(blocks, 2) && Ends(blocks, 2)[..8] == Ends(blocks, 1);
  }

  /**
   * A request of up to three blocks of 64-bit offsets survives the wire exactly when
   * every block is a range that ends before the largest 64-bit offset.
   */
  lemma RequestRoundTrip(hash: Hash, blocks: seq<ByteRange>)
    requires |blocks| <= 3
    requires forall i :: 0 <= i < |blocks| ==> blocks[i].start < U64 && blocks[i].end < U64
    ensures RequestPartsBytes(hash, blocks).Success?
    ensures ParseRequestParts(RequestPartsBytes(hash, blocks).value) == Success(RequestParts(hash, blocks))
       <==> RequestableBlocks(blocks)
  {
    hide ToLe, FromLe, Starts, Ends, RequestedFrom;
    var payload := hash + Starts(blocks, 3) + Ends(blocks, 3);
    if RequestableBlocks(blocks) {
      RequestedSuffix(hash, blocks, 0);
      assert payload[..16] == hash;
      assert blocks[0..] == blocks;
    } else {
      RequestedAreRanges(payload, 0);
    }
  }

  lemma {:induction false} RequestedSuffix(hash: Hash, blocks: seq<ByteRange>, i: nat)
    requires RequestableBlocks(blocks) && i <= 3
    ensures RequestedFrom(hash + Starts(blocks, 3) + Ends(blocks, 3), i)
         == Success(if i < |blocks| then blocks[i..] else [])
    decreases 3 - i
  {
    hide ToLe, FromLe, Starts, Ends, U64At;
    if i < 3 {
      SlotsReadBack(hash, blocks, i);
      RequestedSuffix(hash, blocks, i + 1);
      if i < |blocks| {
        assert blocks[i..] == [blocks[i]] + (if i + 1 < |blocks| then blocks[i + 1..] else []);
      }
    }
  }

  lemma {:induction false} RequestedAreRanges(payload: seq<Byte>, i: nat)
    requires |payload| == 64 && i <= 3
    ensures RequestedFrom(payload, i).Success? ==>
      && |RequestedFrom(payload, i).value| <= 3 - i
      && RequestableBlocks(RequestedFrom(payload, i).value)
    decreases 3 - i
  {
    hide FromLe, ToLe, Pow256;
    if i < 3 {
      RequestedAreRanges(payload, i + 1);
      ToFromLe(payload[40 + 8 * i..40 + 8 * i + 8]);
      Pow256Values();
    }
  }

  function EncodeSendingPart(p: SendingPart): Result<seq<Byte>, ProtocolError> {
    if p.endExclusive <= p.start then Failure(InvalidRange)
    else if p.endExclusive - p.start > MAX_BLOCK_LEN then Failure(BlockTooLarge)
    else if |p.data| != p.endExclusive - p.start then Failure(InvalidLength)
    else Success(p.hash + ToLe(p.start, 8) + ToLe(p.endExclusive, 8) + p.data)
  }

  function DecodeSendingPart(payload: seq<Byte>): Result<SendingPart, ProtocolError> {
    if |payload| < 32 then Failure(Truncated)
    else
      var start, endExclusive := U64At(payload, 16), U64At(payload, 24);
      if endExclusive <= start then Failure(InvalidRange)
      else if endExclusive - start > MAX_BLOCK_LEN then Failure(BlockTooLarge)
      else if |payload| - 32 > MAX_BLOCK_LEN then Failure(PayloadTooLarge)
      else if endExclusive - start != |payload| - 32 then Failure(InvalidLength)
      else Success(SendingPart(payload[..16], start, endExclusive, payload[32..]))
  }

  /** Encoding and decoding a block answer are inverse to each other on all 64-bit values. */
  lemma SendingPartRoundTrip(p: SendingPart, payload: seq<Byte>)
    requires p.start < U64 && p.endExclusive < U64
    ensures EncodeSendingPart(p) == Success(payload) <==> DecodeSendingPart(payload) == Success(p)
  {
    hide ToLe, FromLe, Pow256;
    Pow256Values();
    if EncodeSendingPart(p) == Success(payload) {
      FromToLe(p.start, 8);
      FromToLe(p.endExclusive, 8);
      assert payload[16..24] == ToLe(p.start, 8) && payload[24..32] == ToLe(p.endExclusive, 8);
      assert payload[..16] == p.hash && payload[32..] == p.data;
    }
    if DecodeSendingPart(payload) == Success(p) {
      ToFromLe(payload[16..24]);
      ToFromLe(payload[24..32]);
      assert payload == payload[..16] + payload[16..24] + payload[24..32] + payload[32..];
    }
  }

  function DecodeCompressedPart(payload: seq<Byte>): Result<CompressedPart, ProtocolError> {
    if |payload| < 28 then Failure(Truncated)
    else
      var start, unpackedLen := U64At(payload, 16), FromLe(payload[24..28]);
      if unpackedLen > MAX_BLOCK_LEN then Failure(BlockTooLarge)
      else if |payload| - 28 > MAX_BLOCK_LEN then Failure(PayloadTooLarge)
      else Success(CompressedPart(payload[..16], start, unpackedLen, payload[28..]))
  }
}
