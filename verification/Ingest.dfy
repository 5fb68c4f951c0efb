/** Taking in a block from a peer: `ingest_inbound_packet` of `src/download/service.rs`. */
module Ingest {
  import opened Wrappers
  import opened Integers
  import opened Bits
  import opened LittleEndian
  import opened ByteRanges
  import opened Downloads
  import opened DownloadInvariant
  import opened DownloadRuns
  import opened DownloadServices
  import opened Protocol
  import opened Files
  import opened PartStore
  import Deflate
  import Inflate

  function HexDigit(c: char): Option<nat> {
    if '0' <= c <= '9' then Some(c as nat - '0' as nat)
    else if 'a' <= c <= 'f' then Some(c as nat - 'a' as nat + 10)
    else if 'A' <= c <= 'F' then Some(c as nat - 'A' as nat + 10)
    else None
  }

  /** Two characters read as a hexadecimal byte; a leading plus sign is accepted. */
  function HexPair(a: char, b: char): Option<Byte> {
    match (HexDigit(a), HexDigit(b))
    case (Some(hi), Some(lo)) => HexDigitBound(a); HexDigitBound(b); Some(16 * hi + lo)
    case (None, Some(lo)) => HexDigitBound(b); if a == '+' then Some(lo) else None
    case _ => None
  }

  lemma HexDigitBound(c: char)
    ensures HexDigit(c).Some? ==> HexDigit(c).value < 16
  {
  }

  function HexBytes(s: string): Option<seq<Byte>>
    requires |s| % 2 == 0
  {
    if s == "" then Some([])
    else
      match (HexPair(s[0], s[1]), HexBytes(s[2..]))
      case (Some(b), Some(rest)) => Some([b] + rest)
      case _ => None
  }

  /** `parse_hex_hash`. */
  function ParseHexHash(s: string): (r: Option<Hash>)
  {
    if |s| != 32 then None
    else HexBytesLength(s); HexBytes(s)
  }

  lemma {:induction false} HexBytesLength(s: string)
    requires |s| % 2 == 0
    ensures HexBytes(s).Some? ==> |HexBytes(s).value| == |s| / 2
  {
    if s != "" {
      HexBytesLength(s[2..]);
    }
  }

  /** `to_hex_lower`. */
  function ToHexLower(bytes: seq<Byte>): string {
    if bytes == [] then ""
    else
      var digits := "0123456789abcdef";
      [digits[bytes[0] / 16], digits[bytes[0] % 16]] + ToHexLower(bytes[1..])
  }

  /** A hash written in lower-case hexadecimal is read back as itself. */
  lemma {:induction false} HexRoundTrip(bytes: seq<Byte>)
    ensures |ToHexLower(bytes)| == 2 * |bytes|
    ensures HexBytes(ToHexLower(bytes)) == Some(bytes)
  {
    if bytes != [] {
      HexRoundTrip(bytes[1..]);
      var s, rest := ToHexLower(bytes), ToHexLower(bytes[1..]);
      assert s[2..] == rest;
      HexDigitsReadBack(bytes[0]);
      assert bytes == [bytes[0]] + bytes[1..];
    }
  }

  lemma HexDigitsReadBack(b: Byte)
    ensures var digits := "0123456789abcdef";
      HexPair(digits[b / 16], digits[b % 16]) == Some(b)
  {
    var digits := "0123456789abcdef";
    DigitReadsBack(b / 16);
    DigitReadsBack(b % 16);
  }

  lemma DigitReadsBack(d: nat)
    requires d < 16
    ensures HexDigit("0123456789abcdef"[d]) == Some(d)
  {
  }

  lemma HashRoundTrip(hash: Hash)
    ensures ParseHexHash(ToHexLower(hash)) == Some(hash)
  {
    HexRoundTrip(hash);
  }

  /** What a packet delivers: a block with its bytes, or nothing. */
  datatype Inbound = Block(block: ByteRange, data: seq<Byte>) | Rejected

  ghost function Delivered(hash: Hash, opcode: Byte, payload: seq<Byte>): Inbound {
    if opcode == OP_SENDINGPART then
      match DecodeSendingPart(payload)
      case Failure(_) => Rejected
      case Success(p) =>
        if p.hash == hash then Block(ByteRange(p.start, p.endExclusive - 1), p.data) else Rejected
    else if opcode == OP_COMPRESSEDPART then
      match DecodeCompressedPart(payload)
      case Failure(_) => Rejected
      case Success(p) =>
        if p.hash != hash || p.unpackedLen == 0 then Rejected
        else
          match Deflate.Zlib(p.compressed)
          case Bad => Rejected
          case Ok(out, _) =>
            if |out| != p.unpackedLen || p.start + p.unpackedLen >= U64 then Rejected
            else Block(ByteRange(p.start, p.start + p.unpackedLen - 1), out)
    else Rejected
  }

  /** Decoding as the source does it, with the table-driven inflate. */
  method DecodeInbound(hash: Hash, opcode: Byte, payload: seq<Byte>)
    returns (r: Result<(ByteRange, seq<Byte>), DownloadError>)
    ensures match Delivered(hash, opcode, payload)
      case Block(block, data) => r == Success((block, data))
      case Rejected => r == Failure(InvalidInput)
    ensures r.Success? ==> |r.value.1| == Length(r.value.0) && r.value.0.start <= r.value.0.end
  {
    hide Deflate.Zlib, FromLe;
    if opcode == OP_SENDINGPART {
      var decoded := DecodeSendingPart(payload);
      if decoded.Failure? || decoded.value.hash != hash {
        return Failure(InvalidInput);
      }
      var p := decoded.value;
      return Success((ByteRange(p.start, p.endExclusive - 1), p.data));
    } else if opcode == OP_COMPRESSEDPART {
      var decoded := DecodeCompressedPart(payload);
      if decoded.Failure? || decoded.value.hash != hash {
        return Failure(InvalidInput);
      }
      var p := decoded.value;
      if p.unpackedLen == 0 {
        return Failure(InvalidInput);
      }
      var out := Inflate.InflateZlib(p.compressed, p.unpackedLen);
      if out.Failure? || |out.value| != p.unpackedLen || p.start + p.unpackedLen >= U64 {
        return Failure(InvalidInput);
      }
      return Success((ByteRange(p.start, p.start + p.unpackedLen - 1), out.value));
    }
    return Failure(InvalidInput);
  }

  /** The file operations of taking in a delivered block: its bytes are written before the
      lease is looked at, and the metadata is saved only when the lease is there. */
  function IngestOps(files: Files, n: nat, d: Download, peer: string, block: ByteRange, data: seq<Byte>): seq<Op> {
    var write := WriteAt(Part(n), block.start, data);
    match Receive(d, peer, block)
    case Failure(_) => [write]
    case Success(after) => [write] + SaveOps(Done(files, write), n, after.met)
  }

  method IngestInboundPacket(service: DownloadService, fs: FileSystem, n: nat, peer: string, opcode: Byte, payload: seq<Byte>)
    returns (r: Result<(), DownloadError>)
    requires service.Valid()
    requires Part(n) in fs.files ==> fs.files[Part(n)].Data?
    modifies service, fs
    ensures service.Valid()
    ensures n !in old(service.downloads) ==>
      r == Failure(NotFound) && service.downloads == old(service.downloads) && fs.files == old(fs.files)
    ensures n in old(service.downloads) ==>
      var d := old(service.downloads)[n];
      match ParseHexHash(d.met.fileHash)
      case None =>
        r == Failure(InvalidInput) && service.downloads == old(service.downloads) && fs.files == old(fs.files)
      case Some(hash) =>
        match Delivered(hash, opcode, payload)
        case Rejected =>
          r == Failure(InvalidInput) && service.downloads == old(service.downloads) && fs.files == old(fs.files)
        case Block(block, data) =>
          if block.end >= d.met.fileSize then
            r == Failure(InvalidInput) && service.downloads == old(service.downloads) && fs.files == old(fs.files)
          else if Part(n) !in old(fs.files) then
            r == Failure(StoreFailed) && service.downloads == old(service.downloads) && fs.files == old(fs.files)
          else
            && service.downloads == old(service.downloads)[n := OrKeep(Receive(d, peer, block), d)]
            && (r.Success? <==> FindLease(d.leases, peer, block).Some?)
            && fs.journal == old(fs.journal) + IngestOps(old(fs.files), n, d, peer, block, data)
            && fs.files == DoneAll(old(fs.files), IngestOps(old(fs.files), n, d, peer, block, data))
  {
    hide ParseHexHash, Delivered, Inv, Receive, FindLease, Saved, SaveOps;
    if n !in service.downloads {
      return Failure(NotFound);
    }
    ghost var files := fs.files;
    var d := service.downloads[n];
    var hash := ParseHexHash(d.met.fileHash);
    if hash.None? {
      return Failure(InvalidInput);
    }
    var decoded :- DecodeInbound(hash.value, opcode, payload);
    var (block, data) := decoded;
    if block.end >= d.met.fileSize {
      return Failure(InvalidInput);
    }
    if !fs.Exists(Part(n)) {
      return Failure(StoreFailed);
    }
    fs.WriteBytesAt(Part(n), block.start, data);
    r := service.MarkBlockReceived(n, peer, block);
    ReceiveNeedsLease(d, peer, block);
    IngestOpsDone(files, n, d, peer, block, data);
    if r.Success? {
      SavePartMet(fs, n, service.downloads[n].met);
    }
  }

  lemma ReceiveNeedsLease(d: Download, peer: string, block: ByteRange)
    ensures Receive(d, peer, block).Success? <==> FindLease(d.leases, peer, block).Some?
  {
    hide FindLease;
  }

  lemma IngestOpsDone(files: Files, n: nat, d: Download, peer: string, block: ByteRange, data: seq<Byte>)
    ensures
        var written := Done(files, WriteAt(Part(n), block.start, data));
        DoneAll(files, IngestOps(files, n, d, peer, block, data))
        == match Receive(d, peer, block)
           case Failure(_) => written
           case Success(after) => Saved(written, n, after.met)
  {
    hide Receive, Done, Saved, SaveOps;
    var write := WriteAt(Part(n), block.start, data);
    var written := Done(files, write);
    assert [write][1..] == [];
    assert DoneAll(files, [write]) == DoneAll(written, []) == written;
    if Receive(d, peer, block).Success? {
      var met := Receive(d, peer, block).value.met;
      DoneAllConcat(files, [write], SaveOps(written, n, met));
      SaveOpsDone(written, n, met);
    }
  }
}
