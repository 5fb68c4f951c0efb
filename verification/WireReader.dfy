/** The cursor over a Kad payload and the parsers of tag lists, strict, lenient and for
    HELLO, as `src/kad/wire.rs` writes them out. */
module WireReader {
  import opened Wrappers
  import opened Collections
  import opened Bits
  import opened LittleEndian
  import opened Tags

  datatype WireError = UnexpectedEof | InvalidFormat

  /** Four 32-bit words, each little-endian on the wire and big-endian in the identifier. */
  type KadId = s: seq<Byte> | |s| == 16 witness seq(16, _ => 0)

  function BigEndian4(v: nat): (r: seq<Byte>)
    ensures |r| == 4
  {
    var le := ToLe(v, 4);
    [le[3], le[2], le[1], le[0]]
  }

  function SwapWord(s: seq<Byte>): (r: seq<Byte>)
    requires |s| == 4
    ensures |r| == 4
  {
    [s[3], s[2], s[1], s[0]]
  }

  /** `to_crypt_bytes`, and its own inverse. */
  function SwapWords(s: KadId): KadId {
    SwapWord(s[0..4]) + SwapWord(s[4..8]) + SwapWord(s[8..12]) + SwapWord(s[12..16])
  }

  lemma SwapTwice(s: KadId)
    ensures SwapWords(SwapWords(s)) == s
  {
    var t := SwapWords(s);
    assert t[0..4] == SwapWord(s[0..4]) && t[4..8] == SwapWord(s[4..8]);
    assert t[8..12] == SwapWord(s[8..12]) && t[12..16] == SwapWord(s[12..16]);
  }

  function KadIdAt(b: seq<Byte>, i: nat): Option<(KadId, nat)> {
    if i + 16 <= |b| then Some((SwapWords(b[i..i + 16]), i + 16)) else None
  }

  lemma WordReversed(b: seq<Byte>, i: nat)
    requires i + 4 <= |b|
    ensures BigEndian4(FromLe(b[i..i + 4])) == SwapWord(b[i..i + 4])
  {
    hide ToLe, FromLe;
    ToFromLe(b[i..i + 4]);
  }

  lemma SliceWords(b: seq<Byte>, p: nat)
    requires p + 16 <= |b|
    ensures
        var id := b[p..p + 16];
        && id[0..4] == b[p..p + 4] && id[4..8] == b[p + 4..p + 8]
        && id[8..12] == b[p + 8..p + 12] && id[12..16] == b[p + 12..p + 16]
  {
    SliceOfSlice(b, p, p + 16, 0, 4);
    SliceOfSlice(b, p, p + 16, 4, 8);
    SliceOfSlice(b, p, p + 16, 8, 12);
    SliceOfSlice(b, p, p + 16, 12, 16);
  }

  class Reader {
    const b: seq<Byte>
    var i: nat

    constructor (bytes: seq<Byte>)
      ensures b == bytes && i == 0
    {
      b := bytes;
      i := 0;
    }

    /** `read_u8`, `read_u16_le`, `read_u32_le`, `read_u64_le`. */
    method ReadLe(n: nat) returns (r: Result<nat, WireError>)
      modifies this
      ensures r.Success? <==> NumberAt(b, old(i), n).Some?
      ensures r.Success? ==> (r.value, i) == NumberAt(b, old(i), n).value
      ensures r.Failure? ==> i == old(i) && r.error == UnexpectedEof
    {
      hide FromLe;
      if i + n > |b| {
        return Failure(UnexpectedEof);
      }
      r := Success(FromLe(b[i..i + n]));
      i := i + n;
    }

    /** A slice of the payload: `read_i2p_dest` and the reading of strings. */
    method ReadBytes(n: nat) returns (r: Result<seq<Byte>, WireError>)
      modifies this
      ensures r.Success? <==> BytesAt(b, old(i), n).Some?
      ensures r.Success? ==> (r.value, i) == BytesAt(b, old(i), n).value
      ensures r.Failure? ==> i == old(i) && r.error == UnexpectedEof
    {
      if i + n > |b| {
        return Failure(UnexpectedEof);
      }
      r := Success(b[i..i + n]);
      i := i + n;
    }

    method Skip(n: nat) returns (r: Result<(), WireError>)
      modifies this
      ensures r.Success? <==> old(i) + n <= |b|
      ensures r.Success? ==> i == old(i) + n
      ensures r.Failure? ==> i == old(i) && r.error == UnexpectedEof
    {
      if i + n > |b| {
        return Failure(UnexpectedEof);
      }
      i := i + n;
      return Success(());
    }

    /** `read_uint128_emule`. */
    method ReadKadId() returns (r: Result<KadId, WireError>)
      modifies this
      ensures r.Success? <==> KadIdAt(b, old(i)).Some?
      ensures r.Success? ==> (r.value, i) == KadIdAt(b, old(i)).value
    {
      hide ToLe, FromLe, BigEndian4, SwapWord;
      ghost var start := i;
      var w0 :- ReadLe(4);
      var w1 :- ReadLe(4);
      var w2 :- ReadLe(4);
      var w3 :- ReadLe(4);
      WordReversed(b, start);
      WordReversed(b, start + 4);
      WordReversed(b, start + 8);
      WordReversed(b, start + 12);
      SliceWords(b, start);
      return Success(BigEndian4(w0) + BigEndian4(w1) + BigEndian4(w2) + BigEndian4(w3));
    }

    /** A 64-bit number as the strict and HELLO parsers read it: low half, then high half. */
    method ReadHalves() returns (r: Result<nat, WireError>)
      modifies this
      ensures r.Success? <==> NumberAt(b, old(i), 8).Some?
      ensures r.Success? ==> (r.value, i) == NumberAt(b, old(i), 8).value
    {
      hide FromLe;
      LongNumber(b, i);
      var lo :- ReadLe(4);
      var hi :- ReadLe(4);
      return Success(hi * 0x1_0000_0000 + lo);
    }

    /** The type and name at the front of a tag. */
    method ReadHeader(debug: bool) returns (r: Result<(nat, Option<Byte>), WireError>)
      modifies this
      ensures r.Success? <==> HeaderAt(b, old(i), debug).Some?
      ensures r.Success? ==> Header(r.value.0, r.value.1, i) == HeaderAt(b, old(i), debug).value
    {
      hide FromLe;
      ghost var start := i;
      var typeRaw :- ReadLe(1);
      assert typeRaw == b[start] by { OneByte(b, start); }
      var tagType, id := typeRaw, None;
      if typeRaw >= 0x80 {
        var name :- ReadLe(1);
        assert name == b[start + 1] by { OneByte(b, start + 1); }
        tagType, id := typeRaw - 0x80, Some(name);
      } else {
        var nameLen :- ReadLe(2);
        if nameLen == 1 {
          var name :- ReadLe(1);
          assert name == b[start + 3] by { OneByte(b, start + 3); }
          id := Some(name);
        } else {
          var _ :- Skip(nameLen);
        }
      }
      if debug {
        var _ :- ReadLe(4);
      }
      return Success((tagType, id));
    }

    /** The value of a tag of a search or publish message, as the strict parser takes it. */
    method ReadStrictValue(tagType: nat, id: Option<Byte>, info: Info) returns (r: Result<Info, WireError>)
      modifies this
      ensures r.Success? <==> ValueAt(b, old(i), tagType).Some?
      ensures r.Success? ==>
        var (v, j) := ValueAt(b, old(i), tagType).value;
        i == j && r.value == Apply(info, Tag(id, v), false)
    {
      hide NumberAt, BytesAt, FromLe;
      ghost var start := i;
      if tagType == T_UINT8 {
        var v :- ReadLe(1);
        return Success(if id == Some(TAG_SOURCETYPE) then info.(sourceType := Some(v)) else info);
      } else if tagType == T_UINT16 {
        var v :- ReadLe(2);
        return Success(if id == Some(TAG_FILESIZE) then info.(fileSize := Some(v)) else info);
      } else if tagType == T_UINT32 {
        var v :- ReadLe(4);
        NumberBound(b, start, 4);
        return Success(
          if id == Some(TAG_FILESIZE) then info.(fileSize := Some(v))
          else if id == Some(TAG_PUBLISHINFO) then info.(publishInfo := Some(v))
          else info);
      } else if tagType == T_UINT64 {
        var v :- ReadHalves();
        return Success(
          if id == Some(TAG_FILESIZE) then info.(fileSize := Some(v))
          else if id == Some(TAG_PUBLISHINFO) then info.(publishInfo := Some(v % 0x1_0000_0000))
          else info);
      } else if tagType == T_ADDRESS {
        var v :- ReadBytes(DEST_LEN);
        return Success(
          if id == Some(TAG_SOURCEDEST) then info.(sourceDest := Some(v))
          else if id == Some(TAG_SOURCEUDEST) then info.(sourceUdpDest := Some(v))
          else info.(fallbackDest := Some(v)));
      } else if tagType == T_STRING {
        var len :- ReadLe(2);
        if len > MAX_STRING_LEN {
          var _ :- Skip(len);
          return Success(info);
        }
        var s :- ReadBytes(len);
        return Success(
          if id == Some(TAG_FILENAME) then info.(fileName := Some(s))
          else if id == Some(TAG_FILETYPE) then info.(fileType := Some(s))
          else info);
      } else if T_STR1 <= tagType <= T_STR16 {
        var s :- ReadBytes(tagType - T_STR1 + 1);
        return Success(
          if id == Some(TAG_FILENAME) then info.(fileName := Some(s))
          else if id == Some(TAG_FILETYPE) then info.(fileType := Some(s))
          else info);
      }
      var _ :- SkipValue(tagType);
      return Success(info);
    }

    /** The values every parser only skips, and the unknown types it gives up on. */
    method SkipValue(tagType: nat) returns (r: Result<(), WireError>)
      requires tagType !in {T_UINT8, T_UINT16, T_UINT32, T_UINT64, T_ADDRESS, T_STRING}
      requires !(T_STR1 <= tagType <= T_STR16)
      modifies this
      ensures r.Success? <==> ValueAt(b, old(i), tagType).Some?
      ensures r.Success? ==> (Skipped, i) == ValueAt(b, old(i), tagType).value
    {
      hide FromLe;
      if tagType == T_HASH16 {
        r := Skip(16);
      } else if tagType == T_FLOAT32 {
        r := Skip(4);
      } else if tagType == T_BOOL {
        r := Skip(1);
      } else if tagType == T_BOOLARRAY {
        var bits :- ReadLe(2);
        r := Skip((bits + 7) / 8);
      } else if tagType == T_BLOB {
        var len :- ReadLe(4);
        r := Skip(len);
      } else if tagType == T_BSOB {
        var len :- ReadLe(1);
        r := Skip(len);
      } else {
        return Failure(InvalidFormat);
      }
    }

    /** The same for the lenient parser, which reads a 64-bit number in one piece and takes
        file size and publish info from a one-byte number, too. */
    method ReadLenientValue(tagType: nat, id: Option<Byte>, info: Info) returns (r: Result<Info, WireError>)
      modifies this
      ensures r.Success? <==> ValueAt(b, old(i), tagType).Some?
      ensures r.Success? ==>
        var (v, j) := ValueAt(b, old(i), tagType).value;
        i == j && r.value == Apply(info, Tag(id, v), true)
    {
      hide NumberAt, BytesAt, FromLe;
      ghost var start := i;
      if tagType == T_UINT8 {
        var v :- ReadLe(1);
        var out := info;
        if id == Some(TAG_FILESIZE) {
          out := out.(fileSize := Some(v));
        }
        if id == Some(TAG_PUBLISHINFO) {
          out := out.(publishInfo := Some(v));
        }
        if id == Some(TAG_SOURCETYPE) {
          out := out.(sourceType := Some(v));
        }
        return Success(out);
      } else if tagType == T_UINT16 {
        var v :- ReadLe(2);
        return Success(if id == Some(TAG_FILESIZE) then info.(fileSize := Some(v)) else info);
      } else if tagType == T_UINT32 || tagType == T_UINT64 {
        var v :- ReadLe(if tagType == T_UINT32 then 4 else 8);
        NumberBound(b, start, 4);
        return Success(
          if id == Some(TAG_FILESIZE) then info.(fileSize := Some(v))
          else if id == Some(TAG_PUBLISHINFO) then info.(publishInfo := Some(v % 0x1_0000_0000))
          else info);
      } else if tagType == T_ADDRESS {
        var v :- ReadBytes(DEST_LEN);
        return Success(
          if id == Some(TAG_SOURCEDEST) then info.(sourceDest := Some(v))
          else if id == Some(TAG_SOURCEUDEST) then info.(sourceUdpDest := Some(v))
          else info.(fallbackDest := Some(v)));
      } else if tagType == T_STRING {
        var len :- ReadLe(2);
        if len > MAX_STRING_LEN {
          var _ :- Skip(len);
          return Success(info);
        }
        var s :- ReadBytes(len);
        return Success(
          if id == Some(TAG_FILENAME) then info.(fileName := Some(s))
          else if id == Some(TAG_FILETYPE) then info.(fileType := Some(s))
          else info);
      } else if T_STR1 <= tagType <= T_STR16 {
        var s :- ReadBytes(tagType - T_STR1 + 1);
        return Success(
          if id == Some(TAG_FILENAME) then info.(fileName := Some(s))
          else if id == Some(TAG_FILETYPE) then info.(fileType := Some(s))
          else info);
      }
      var _ :- SkipValue(tagType);
      return Success(info);
    }

    /** The value of a HELLO tag. */
    method ReadHelloValue(tagType: nat, id: Option<Byte>, info: HelloInfo) returns (r: Result<HelloInfo, WireError>)
      modifies this
      ensures r.Success? <==> ValueAt(b, old(i), tagType).Some?
      ensures r.Success? ==>
        var (v, j) := ValueAt(b, old(i), tagType).value;
        i == j && r.value == ApplyHello(info, Tag(id, v))
    {
      hide NumberAt, FromLe;
      ghost var start := i;
      if tagType == T_UINT8 || tagType == T_UINT16 || tagType == T_UINT32 {
        var v :- ReadLe(if tagType == T_UINT8 then 1 else if tagType == T_UINT16 then 2 else 4);
        return Success(if id.Some? then info.(numbers := info.numbers[id.value := v]) else info);
      } else if tagType == T_UINT64 {
        var v :- ReadHalves();
        return Success(if id.Some? then info.(numbers := info.numbers[id.value := v]) else info);
      } else if tagType == T_ADDRESS {
        var _ :- Skip(DEST_LEN);
        return Success(info);
      } else if tagType == T_STRING {
        var len :- ReadLe(2);
        if len > MAX_STRING_LEN {
          var _ :- Skip(len);
          return Success(info);
        }
        var s :- ReadBytes(len);
        return Success(if id == Some(TAG_AGENT) then info.(agent := Some(s)) else info);
      } else if T_STR1 <= tagType <= T_STR16 {
        var s :- ReadBytes(tagType - T_STR1 + 1);
        return Success(if id == Some(TAG_AGENT) then info.(agent := Some(s)) else info);
      }
      var _ :- SkipValue(tagType);
      return Success(info);
    }
  }

  lemma OneByte(b: seq<Byte>, i: nat)
    requires i < |b|
    ensures FromLe(b[i..i + 1]) == b[i]
  {
    assert b[i..i + 1] == [b[i]];
    assert [b[i]][1..] == [];
  }

  lemma NumberBound(b: seq<Byte>, i: nat, n: nat)
    ensures NumberAt(b, i, n).Some? ==> NumberAt(b, i, n).value.0 < Pow256(n)
    ensures Pow256(4) == 0x1_0000_0000
  {
    hide FromLe, ToLe;
    Pow256Values();
    if i + n <= |b| {
      ToFromLe(b[i..i + n]);
    }
  }

  /** A 64-bit number is its two 32-bit halves. */
  lemma LongNumber(b: seq<Byte>, i: nat)
    ensures NumberAt(b, i, 8).Some? <==> NumberAt(b, i, 4).Some? && NumberAt(b, i + 4, 4).Some?
    ensures NumberAt(b, i, 8).Some? ==>
      && NumberAt(b, i, 8).value.0 == NumberAt(b, i + 4, 4).value.0 * 0x1_0000_0000 + NumberAt(b, i, 4).value.0
      && NumberAt(b, i, 8).value.1 == i + 8 == NumberAt(b, i + 4, 4).value.1
      && NumberAt(b, i, 4).value.1 == i + 4
  {
    if i + 8 <= |b| {
      assert b[i..i + 8] == b[i..i + 4] + b[i + 4..i + 8];
      FromLeConcat(b[i..i + 4], b[i + 4..i + 8]);
      Pow256Values();
    }
  }

  lemma {:induction false} FromLeConcat(s: seq<Byte>, t: seq<Byte>)
    ensures FromLe(s + t) == FromLe(s) + Pow256(|s|) * FromLe(t)
  {
    if s == [] {
      assert s + t == t;
    } else {
      assert (s + t)[1..] == s[1..] + t;
      FromLeConcat(s[1..], t);
      Associate(256, Pow256(|s| - 1), FromLe(t));
    }
  }
}
