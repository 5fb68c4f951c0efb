/** The LSB-first bit reader of `src/kad/packed.rs`. */
module BitReaders {
  import opened Wrappers
  import opened Bits

  datatype InflateError =
    | StreamTooSmall
    | UnsupportedMethod
    | BadHeaderCheck
    | PresetDictionary
    | UnexpectedEof
    | InvalidBlockType
    | StoredLengthMismatch
    | OutputTooLarge
    | InvalidSymbol
    | InvalidHuffmanCode
    | CodeLengthTooLarge
    | OversubscribedTree
    | NoPreviousLength
    | BadDistance
    | AdlerMismatch

  /** `bitbuf` holds the `bitcnt` bits just before byte `pos`: it is always below
      2^24, so the source's 64-bit shifts and ors are the sums and quotients below. */
  class BitReader {
    const bytes: seq<Byte>
    var pos: nat
    var bitbuf: nat
    var bitcnt: nat

    constructor (input: seq<Byte>)
      ensures Valid() && bytes == input && At() == 0
    {
      bytes := input;
      pos, bitbuf, bitcnt := 0, 0, 0;
    }

    ghost predicate Valid()
      reads this
    {
      && pos <= |bytes|
      && bitcnt <= 8 * pos
      && bitcnt <= 23
      && bitbuf == Lsb(Stream(), 8 * pos - bitcnt, bitcnt)
    }

    ghost function Stream(): seq<Bit>
    {
      BitList(bytes)
    }

    /** Position of the next unread bit in the stream. */
    ghost function At(): (p: nat)
      reads this
      requires Valid()
      ensures p <= |Stream()|
    {
      8 * pos - bitcnt
    }

    method Fill(n: nat) returns (r: Result<(), InflateError>)
      requires Valid() && n <= 16
      modifies this
      ensures Valid() && At() == old(At())
      ensures r.Success? <==> old(At()) + n <= |Stream()|
      ensures r.Success? ==> n <= bitcnt
    {
      hide Pow2, Lsb, BitList, BitAt;
      while bitcnt < n
        invariant Valid() && At() == old(At())
        decreases n - bitcnt
      {
        if pos >= |bytes| {
          return Failure(UnexpectedEof);
        }
        AppendByte(bytes, bitcnt, pos);
        bitbuf := bitbuf + Pow2(bitcnt) * bytes[pos];
        pos, bitcnt := pos + 1, bitcnt + 8;
      }
      return Success(());
    }

    /** Splits the buffer after n bits: the low part is read, the high part stays. */
    lemma TakeBits(n: nat)
      requires Valid() && n <= bitcnt
      ensures bitbuf % Pow2(n) == Lsb(Stream(), At(), n)
      ensures bitbuf / Pow2(n) == Lsb(Stream(), At() + n, bitcnt - n)
    {
      hide Pow2, Lsb, BitList, BitAt;
      SplitBits(Stream(), At(), n, bitcnt - n);
    }

    method ReadBits(n: nat) returns (r: Result<nat, InflateError>)
      requires Valid() && n <= 16
      modifies this
      ensures Valid()
      ensures r.Success? <==> old(At()) + n <= |Stream()|
      ensures r.Success? ==> At() == old(At()) + n && r.value == Lsb(Stream(), old(At()), n)
      ensures r.Failure? ==> At() == old(At())
    {
      hide Pow2, Lsb, BitList, BitAt;
      var _ :- Fill(n);
      TakeBits(n);
      var v := bitbuf % Pow2(n);
      bitbuf, bitcnt := bitbuf / Pow2(n), bitcnt - n;
      return Success(v);
    }

    method PeekBits(n: nat) returns (r: Result<nat, InflateError>)
      requires Valid() && n <= 16
      modifies this
      ensures Valid() && At() == old(At())
      ensures r.Success? <==> At() + n <= |Stream()|
      ensures r.Success? ==> r.value == Lsb(Stream(), At(), n)
    {
      hide Pow2, Lsb, BitList, BitAt;
      var _ :- Fill(n);
      TakeBits(n);
      return Success(bitbuf % Pow2(n));
    }

    method DropBits(n: nat) returns (r: Result<(), InflateError>)
      requires Valid() && n <= 16
      modifies this
      ensures Valid()
      ensures r.Success? <==> old(At()) + n <= |Stream()|
      ensures At() == if r.Success? then old(At()) + n else old(At())
    {
      hide Pow2, Lsb, BitList, BitAt;
      var _ :- Fill(n);
      TakeBits(n);
      bitbuf, bitcnt := bitbuf / Pow2(n), bitcnt - n;
      return Success(());
    }

    method AlignToByte()
      requires Valid()
      modifies this
      ensures Valid()
      ensures At() == ByteBoundary(old(At()))
    {
      hide Pow2, Lsb, BitList, BitAt, ByteBoundary;
      BoundaryAhead(pos, bitcnt);
      var rem := bitcnt % 8;
      if rem != 0 {
        var _ := DropBits(rem);
      }
    }
  }

  lemma BoundaryAhead(pos: nat, bitcnt: nat)
    requires bitcnt <= 8 * pos
    ensures ByteBoundary(8 * pos - bitcnt) == 8 * pos - bitcnt + bitcnt % 8
    ensures 8 * pos - bitcnt + bitcnt % 8 <= 8 * pos
  {
  }

  lemma AppendByte(bytes: seq<Byte>, count: nat, pos: nat)
    requires pos < |bytes| && count <= 8 * pos
    ensures Lsb(BitList(bytes), 8 * pos - count, count + 8)
         == Lsb(BitList(bytes), 8 * pos - count, count) + Pow2(count) * bytes[pos]
  {
    hide Lsb, BitList, Pow2;
    ByteFromBits(bytes, pos);
    LsbSplit(BitList(bytes), 8 * pos - count, count, 8);
  }

  lemma SplitBits(bits: seq<Bit>, p: nat, m: nat, n: nat)
    requires p + m + n <= |bits|
    ensures Lsb(bits, p, m + n) % Pow2(m) == Lsb(bits, p, m)
    ensures Lsb(bits, p, m + n) / Pow2(m) == Lsb(bits, p + m, n)
  {
    LsbSplit(bits, p, m, n);
    SplitAt(Lsb(bits, p, m), Lsb(bits, p + m, n), Pow2(m));
  }

  /** The first multiple of eight not below p. */
  function ByteBoundary(p: nat): (q: nat)
    ensures p <= q < p + 8 && q % 8 == 0
  {
    (p + 7) / 8 * 8
  }
}
