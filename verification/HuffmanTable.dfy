/** The table-driven Huffman decoder of `src/kad/packed.rs`. */
module HuffmanTables {
  import opened Wrappers
  import opened Bits
  import opened BitReaders
  import opened CanonicalCodes

  /** `bits == 0` marks a slot no code owns. */
  datatype HuffEntry = HuffEntry(sym: nat, bits: nat)

  datatype HuffmanTable = HuffmanTable(maxBits: nat, entries: seq<HuffEntry>)

  const NO_ENTRY := HuffEntry(0, 0)

  ghost predicate WellFormed(t: HuffmanTable) {
    && 1 <= t.maxBits <= MAX_BITS
    && |t.entries| == Pow2(t.maxBits)
    && forall i :: 0 <= i < |t.entries| ==> t.entries[i].bits <= t.maxBits
  }

  /** The code the source gives a symbol: the canonical one, computed in 16 bits. */
  function Code16(lens: seq<nat>, sym: nat): nat
    requires sym < |lens|
  {
    (NextCode16(lens, lens[sym]) + Count(lens[..sym], lens[sym])) % 0x1_0000
  }

  /** Slot idx starts (least significant bit first) with the code of the symbol. */
  ghost predicate Hits(lens: seq<nat>, sym: nat, idx: nat) {
    && sym < |lens|
    && lens[sym] > 0
    && ClassOf(idx, Pow2(lens[sym])) == Reverse(Code16(lens, sym), lens[sym])
  }

  /** What the first n symbols leave in slot idx: the last of them to hit it. */
  ghost function Slot(lens: seq<nat>, n: nat, idx: nat): HuffEntry
    requires n <= |lens|
  {
    if n == 0 then NO_ENTRY
    else if Hits(lens, n - 1, idx) then HuffEntry(n - 1, lens[n - 1])
    else Slot(lens, n - 1, idx)
  }

  ghost predicate Holds(entries: seq<HuffEntry>, lens: seq<nat>, n: nat)
    requires n <= |lens|
  {
    forall i :: 0 <= i < |entries| ==> entries[i] == Slot(lens, n, i)
  }

  ghost predicate Represents(t: HuffmanTable, lens: seq<nat>) {
    && WellFormed(t)
    && (forall s :: 0 <= s < |lens| ==> lens[s] <= t.maxBits)
    && Holds(t.entries, lens, |lens|)
  }

  /** The code the source gives the symbol starts the bits from p. */
  ghost predicate Starts16(lens: seq<nat>, bits: seq<Bit>, p: nat, sym: nat) {
    && sym < |lens|
    && lens[sym] > 0
    && p + lens[sym] <= |bits|
    && Lsb(bits, p, lens[sym]) == Reverse(Code16(lens, sym), lens[sym])
  }

  /** The last of the first n symbols whose code starts the bits from p. */
  ghost function LastStart(lens: seq<nat>, bits: seq<Bit>, p: nat, n: nat): (r: Option<nat>)
    requires n <= |lens|
    ensures r.Some? ==> r.value < n && Starts16(lens, bits, p, r.value)
    ensures r.None? ==> forall s :: 0 <= s < n ==> !Starts16(lens, bits, p, s)
  {
    if n == 0 then None
    else if Starts16(lens, bits, p, n - 1) then Some(n - 1)
    else LastStart(lens, bits, p, n - 1)
  }

  /** A slot is hit by a symbol exactly when the bits it stands for start with its code. */
  lemma HitsIsStart(lens: seq<nat>, bits: seq<Bit>, p: nat, n: nat, sym: nat)
    requires p + n <= |bits| && sym < |lens| && lens[sym] <= n
    ensures Hits(lens, sym, Lsb(bits, p, n)) <==> Starts16(lens, bits, p, sym)
  {
    hide Lsb, Pow2, Reverse, Code16;
    var len := lens[sym];
    SplitBits(bits, p, len, n - len);
  }

  /** For a tree of the format these are the canonical codes. */
  lemma StartIsMatch(lens: seq<nat>, bits: seq<Bit>, p: nat, sym: nat)
    requires NotOversubscribed(lens) && LengthsFit(lens) && sym < |lens|
    ensures Starts16(lens, bits, p, sym) <==> Matches(lens, bits, p, sym)
  {
    var len := lens[sym];
    if len > 0 && p + len <= |bits| {
      CodeIn16Bits(lens, sym);
      hide Lsb, Msb, Pow2, Reverse, Code16, Code;
      MsbIsReversedLsb(bits, p, len);
      CodeFits(lens, sym);
      ReverseTwice(Code(lens, sym), len);
      ReverseTwice(Lsb(bits, p, len), len);
    }
  }

  lemma HitsIsMatch(lens: seq<nat>, bits: seq<Bit>, p: nat, n: nat, sym: nat)
    requires NotOversubscribed(lens) && LengthsFit(lens)
    requires p + n <= |bits| && sym < |lens| && lens[sym] <= n
    ensures Hits(lens, sym, Lsb(bits, p, n)) <==> Matches(lens, bits, p, sym)
  {
    hide *;
    HitsIsStart(lens, bits, p, n, sym);
    StartIsMatch(lens, bits, p, sym);
  }

  /** The last symbol to write a slot is the last whose code starts the bits it stands for. */
  lemma {:induction false} SlotIsLastStart(lens: seq<nat>, bits: seq<Bit>, p: nat, width: nat, n: nat)
    requires p + width <= |bits| && n <= |lens| && forall s :: 0 <= s < n ==> lens[s] <= width
    ensures
        var last := LastStart(lens, bits, p, n);
        Slot(lens, n, Lsb(bits, p, width)) == if last.Some? then HuffEntry(last.value, lens[last.value]) else NO_ENTRY
  {
    hide Hits, Starts16, Lsb;
    if n > 0 {
      HitsIsStart(lens, bits, p, width, n - 1);
      SlotIsLastStart(lens, bits, p, width, n - 1);
    }
  }

  /** In the table of a tree of the format, the symbol whose code starts the slot is in it. */
  lemma {:induction false} SlotIsCanonical(lens: seq<nat>, width: nat, n: nat, s: nat, idx: nat)
    requires NotOversubscribed(lens) && LengthsFit(lens) && forall k :: 0 <= k < |lens| ==> lens[k] <= width
    requires s < n <= |lens| && idx < Pow2(width) && Hits(lens, s, idx)
    ensures Slot(lens, n, idx) == HuffEntry(s, lens[s])
  {
    hide Hits, Pow2, NotOversubscribed;
    if Hits(lens, n - 1, idx) {
      HitsAtMostOne(lens, width, s, n - 1, idx) by { HitsHasLength(lens, s, idx); HitsHasLength(lens, n - 1, idx); }
    } else {
      SlotIsCanonical(lens, width, n - 1, s, idx);
    }
  }

  lemma HitsHasLength(lens: seq<nat>, s: nat, idx: nat)
    requires Hits(lens, s, idx)
    ensures s < |lens|
  {
  }

  function LowBits(v: nat, n: nat): (bits: seq<Bit>)
    ensures |bits| == n
    decreases n
  {
    if n == 0 then [] else [v % 2] + LowBits(v / 2, n - 1)
  }

  lemma {:induction false} LsbShift(bits: seq<Bit>, b: Bit, p: nat, n: nat)
    requires p + n <= |bits|
    ensures Lsb([b] + bits, p + 1, n) == Lsb(bits, p, n)
    decreases n
  {
    if n > 0 {
      LsbShift(bits, b, p + 1, n - 1);
    }
  }

  lemma {:induction false} LowBitsValue(v: nat, n: nat)
    requires v < Pow2(n)
    ensures Lsb(LowBits(v, n), 0, n) == v
    decreases n
  {
    if n > 0 {
      LowBitsValue(v / 2, n - 1);
      LsbShift(LowBits(v / 2, n - 1), v % 2, 0, n - 1);
    }
  }

  /** No two symbols write the same table slot. */
  lemma HitsAtMostOne(lens: seq<nat>, n: nat, s: nat, t: nat, idx: nat)
    requires NotOversubscribed(lens) && LengthsFit(lens)
    requires idx < Pow2(n) && Hits(lens, s, idx) && Hits(lens, t, idx)
    requires lens[s] <= n && lens[t] <= n
    ensures s == t
  {
    var bits := LowBits(idx, n);
    LowBitsValue(idx, n);
    HitsIsMatch(lens, bits, 0, n, s);
    HitsIsMatch(lens, bits, 0, n, t);
    PrefixFree(lens, bits, 0, s, t);
  }

  /** `u16::wrapping_add`. */
  function WrappingAdd16(a: nat, b: nat): nat {
    (a + b) % 0x1_0000
  }

  /** `<<= 1` on a `u16`. */
  function ShiftLeft16(a: nat): nat {
    a * 2 % 0x1_0000
  }

  /** The 16-bit arithmetic of the source computes the first codes modulo 2^16. */
  function NextCode16(lens: seq<nat>, len: nat): nat {
    if len == 0 then 0
    else ShiftLeft16(WrappingAdd16(NextCode16(lens, len - 1), Codes(lens, len - 1)))
  }

  lemma NextCodeStep(lens: seq<nat>, len: nat)
    ensures NextCode16(lens, 0) == 0
    ensures len > 0 ==>
        NextCode16(lens, len) == ShiftLeft16(WrappingAdd16(NextCode16(lens, len - 1), Codes(lens, len - 1)))
  {
  }

  lemma WrapDouble(a: nat, c: nat)
    ensures (a % 0x1_0000 + c) % 0x1_0000 * 2 % 0x1_0000 == 2 * (a + c) % 0x1_0000
  {
    var x := a + c;
    var q, r := x / 0x1_0000, x % 0x1_0000;
    assert (a % 0x1_0000 + c) % 0x1_0000 == r;
    if 2 * r < 0x1_0000 {
      SplitAt(2 * r, 2 * q, 0x1_0000);
    } else {
      SplitAt(2 * r - 0x1_0000, 2 * q + 1, 0x1_0000);
    }
  }

  lemma {:induction false} NextCodeWraps(lens: seq<nat>, len: nat)
    ensures NextCode16(lens, len) == FirstCode(lens, len) % 0x1_0000
  {
    if len > 0 {
      NextCodeWraps(lens, len - 1);
      WrapDouble(FirstCode(lens, len - 1), Codes(lens, len - 1));
    }
  }

  /** The source's oversubscription test. */
  ghost predicate Accepts(lens: seq<nat>) {
    NextCode16(lens, MAX_BITS) + Count(lens, MAX_BITS) <= Pow2(MAX_BITS)
  }

  lemma KraftFromLastLength(lens: seq<nat>)
    ensures Kraft(lens) == FirstCode(lens, MAX_BITS) + Count(lens, MAX_BITS)
  {
    assert Pow2(0) == 1;
    FirstCodeIsSpaceUsed(lens, MAX_BITS);
    KraftByLength(lens);
  }

  /** The test is wrong exactly when the last first-code wraps round to a small value. */
  lemma AcceptsExactlyWhen(lens: seq<nat>)
    ensures NotOversubscribed(lens) ==> Accepts(lens)
    ensures Accepts(lens) && !NotOversubscribed(lens) <==>
            && FirstCode(lens, MAX_BITS) >= 0x1_0000
            && FirstCode(lens, MAX_BITS) % 0x1_0000 + Count(lens, MAX_BITS) <= Pow2(MAX_BITS)
  {
    hide FirstCode, Count, Kraft, NextCode16;
    NextCodeWraps(lens, MAX_BITS);
    KraftFromLastLength(lens);
    Pow2Values();
  }

  /** Four one-bit codes use twice the code space, and the source accepts them. */
  lemma OversubscribedTreeAccepted()
    ensures !NotOversubscribed([1, 1, 1, 1]) && Accepts([1, 1, 1, 1])
  {
    hide Count, FirstCode, Kraft, NextCode16, Accepts;
    var lens: seq<nat> := [1, 1, 1, 1];
    FourOfOneBit();
    FirstCodeOfOneLength(lens, MAX_BITS);
    Pow2Values();
    assert Pow2(15) == 2 * Pow2(14);
    AcceptsExactlyWhen(lens);
  }

  lemma FourOfOneBit()
    ensures forall len: nat :: Count([1, 1, 1, 1], len) == if len == 1 then 4 else 0
  {
    assert [1, 1, 1, 1] == [] + Repeat(1, 4);
    forall len: nat
      ensures Count([1, 1, 1, 1], len) == if len == 1 then 4 else 0
    {
      CountRepeat([], 1, 4, len);
    }
  }

  /** What that tree decodes to: of the symbols that share a code, the last one. */
  lemma LastWriterWins()
    ensures LastStart([1, 1, 1, 1], [0], 0, 4) == Some(2)
    ensures LastStart([1, 1, 1, 1], [1], 0, 4) == Some(3)
  {
    hide Code16, Reverse, Lsb;
    FourCodes();
    OneBitReversed();
    OneBitRead(0);
    OneBitRead(1);
  }

  lemma OneBitRead(b: Bit)
    ensures Lsb([b], 0, 1) == b
  {
    assert Lsb([b], 1, 0) == 0;
  }

  lemma OneBitReversed()
    ensures Reverse(2, 1) == 0 && Reverse(3, 1) == 1
  {
    assert Pow2(0) == 1 && Reverse(1, 0) == 0;
  }

  lemma FourCodes()
    ensures Code16([1, 1, 1, 1], 2) == 2 && Code16([1, 1, 1, 1], 3) == 3
  {
    hide Count, NextCode16, Repeat;
    var lens: seq<nat> := [1, 1, 1, 1];
    NextCodeStep(lens, 1);
    CountRepeat([], 1, 2, 1);
    CountRepeat([], 1, 3, 1);
    OnesRepeated(lens);
    assert Count([], 1) == 0 by { NothingCounted(); }
  }

  lemma OnesRepeated(lens: seq<nat>)
    requires lens == [1, 1, 1, 1]
    ensures lens[..2] == [] + Repeat(1, 2) && lens[..3] == [] + Repeat(1, 3)
  {
  }

  lemma NothingCounted()
    ensures Count([], 1) == 0
  {
  }

  lemma {:induction false} FirstCodeOfOneLength(lens: seq<nat>, len: nat)
    requires len >= 2 && forall n: nat :: n != 1 ==> Count(lens, n) == 0
    ensures FirstCode(lens, len) == Count(lens, 1) * Pow2(len - 1)
  {
    if len == 2 {
      assert FirstCode(lens, 1) == 0 by { assert FirstCode(lens, 0) == 0; }
      assert FirstCode(lens, 2) == 2 * Count(lens, 1);
      assert Pow2(1) == 2 by { assert Pow2(0) == 1; }
    } else {
      FirstCodeOfOneLength(lens, len - 1);
      Associate(Count(lens, 1), 2, Pow2(len - 2));
      Associate(2, Count(lens, 1), Pow2(len - 2));
    }
  }

  method ReverseBits(code: nat, len: nat) returns (out: nat)
    requires len <= MAX_BITS
    ensures out == Reverse(code, len)
  {
    NothingReversed();
    hide Reverse, Pow2;
    out := 0;
    var x := code;
    for i := 0 to len
      invariant Reverse(code, len) == out * Pow2(len - i) + Reverse(x, len - i)
    {
      ReverseMore(out, x, len - i);
      out, x := 2 * out + x % 2, x / 2;
    }
  }

  lemma NothingReversed()
    ensures Pow2(0) == 1 && forall x: nat :: Reverse(x, 0) == 0
  {
  }

  lemma ReverseMore(out: nat, x: nat, n: nat)
    requires n > 0
    ensures out * Pow2(n) + Reverse(x, n) == (2 * out + x % 2) * Pow2(n - 1) + Reverse(x / 2, n - 1)
  {
    hide Reverse;
    ReverseUnfold(x, n);
    Distribute(Pow2(n - 1), 2 * out, x % 2);
    Associate(out, 2, Pow2(n - 1));
  }

  method MaxLength(lens: seq<nat>) returns (longest: nat)
    ensures forall s :: 0 <= s < |lens| ==> lens[s] <= longest
    ensures longest > 0 ==> longest in lens
  {
    longest := 0;
    for i := 0 to |lens|
      invariant forall s :: 0 <= s < i ==> lens[s] <= longest
      invariant longest > 0 ==> longest in lens
    {
      if lens[i] > longest {
        longest := lens[i];
      }
    }
  }

  method CountLengths(lens: seq<nat>) returns (counts: array<nat>)
    requires LengthsFit(lens)
    ensures fresh(counts) && counts.Length == 16
    ensures forall len :: 0 <= len <= MAX_BITS ==> counts[len] == Codes(lens, len)
  {
    counts := new nat[16](_ => 0);
    for i := 0 to |lens|
      invariant forall len :: 0 <= len <= MAX_BITS ==> counts[len] == Codes(lens[..i], len)
    {
      assert lens[..i + 1][..i] == lens[..i];
      if lens[i] != 0 {
        counts[lens[i]] := counts[lens[i]] + 1;
      }
    }
    assert lens[..|lens|] == lens;
  }

  method FirstCodes16(ghost lens: seq<nat>, counts: array<nat>) returns (next: array<nat>)
    requires counts.Length == 16
    requires forall len :: 0 <= len <= MAX_BITS ==> counts[len] == Codes(lens, len)
    ensures fresh(next) && next.Length == 16
    ensures forall len :: 1 <= len <= MAX_BITS ==> next[len] == NextCode16(lens, len)
  {
    hide Count, Codes, NextCode16, WrappingAdd16, ShiftLeft16;
    next := new nat[16](_ => 0);
    var code := 0;
    NextCodeStep(lens, 0);
    for len := 1 to 16
      invariant code == NextCode16(lens, len - 1)
      invariant forall n :: 1 <= n < len ==> next[n] == NextCode16(lens, n)
    {
      NextCodeStep(lens, len);
      code := WrappingAdd16(code, counts[len - 1]);
      code := ShiftLeft16(code);
      next[len] := code;
    }
  }

  /** The remainder a slot or a copied byte has by the step. */
  function ClassOf(i: nat, step: nat): (c: nat)
    requires step > 0
    ensures c < step
  {
    i % step
  }

  /** Numbers of the same class are a whole step apart. */
  lemma NextInClass(step: nat, j: nat, i: nat)
    requires step > 0 && ClassOf(j, step) == ClassOf(i, step) && j < i
    ensures j + step <= i
  {
    var d := i / step - j / step;
    Distribute(step, j / step, d);
    assert i - j == step * d;
    MulAtLeast(step, d);
    assert d == 0 ==> step * d == 0;
  }

  lemma StepKeepsClass(step: nat, j: nat)
    requires step > 0
    ensures ClassOf(j + step, step) == ClassOf(j, step)
  {
    Distribute(step, j / step, 1);
    SplitAt(j % step, j / step + 1, step);
  }

  lemma LowestOfClass(step: nat)
    requires step > 0
    ensures forall i: nat :: i < step ==> ClassOf(i, step) == i
  {
    forall i: nat | i < step
      ensures ClassOf(i, step) == i
    {
      SplitAt(i, 0, step);
    }
  }

  method WriteSlots(entries: array<HuffEntry>, r: nat, step: nat, e: HuffEntry)
    requires r < step
    modifies entries
    ensures forall i :: 0 <= i < entries.Length ==> entries[i] == if ClassOf(i, step) == r then e else old(entries[i])
  {
    hide ClassOf;
    var idx := r;
    LowestOfClass(step);
    while idx < entries.Length
      invariant ClassOf(idx, step) == r
      invariant forall i :: 0 <= i < entries.Length ==>
          entries[i] == if ClassOf(i, step) == r && i < idx then e else old(entries[i])
    {
      forall i: nat | idx < i && ClassOf(i, step) == r
        ensures idx + step <= i
      {
        NextInClass(step, idx, i);
      }
      StepKeepsClass(step, idx);
      entries[idx] := e;
      idx := idx + step;
    }
  }

  lemma HoldsForNextSymbol(lens: seq<nat>, sym: nat, before: seq<HuffEntry>, after: seq<HuffEntry>)
    requires sym < |lens| && 0 < lens[sym] && |before| == |after| && Holds(before, lens, sym)
    requires forall i :: 0 <= i < |after| ==>
        after[i] == if ClassOf(i, Pow2(lens[sym])) == Reverse(Code16(lens, sym), lens[sym])
                    then HuffEntry(sym, lens[sym]) else before[i]
    ensures Holds(after, lens, sym + 1)
  {
    hide Code16, Reverse, Pow2, ClassOf;
  }

  /** A code in range is the same number in 16-bit arithmetic. */
  lemma CodeIn16Bits(lens: seq<nat>, sym: nat)
    requires NotOversubscribed(lens) && LengthsFit(lens) && sym < |lens| && lens[sym] > 0
    ensures Code16(lens, sym) == Code(lens, sym)
  {
    hide FirstCode, Count, Kraft, NextCode16;
    NextCodeWraps(lens, lens[sym]);
    CodeFits(lens, sym);
    Pow2Monotone(lens[sym], MAX_BITS);
    Pow2Values();
  }

  /** Counter for each length: the next unassigned code, modulo 2^16. */
  ghost predicate NextCodes(next: seq<nat>, lens: seq<nat>, sym: nat)
    requires sym <= |lens|
  {
    && |next| == 16
    && forall len :: 1 <= len <= MAX_BITS ==>
        next[len] == (NextCode16(lens, len) + Count(lens[..sym], len)) % 0x1_0000
  }

  lemma NoCodesYet(next: seq<nat>, lens: seq<nat>)
    requires |next| == 16
    requires forall len :: 1 <= len <= MAX_BITS ==> next[len] == NextCode16(lens, len)
    ensures NextCodes(next, lens, 0)
  {
  }

  lemma NextCodesStep(next: seq<nat>, lens: seq<nat>, sym: nat)
    requires sym < |lens| && lens[sym] <= MAX_BITS && NextCodes(next, lens, sym)
    ensures lens[sym] == 0 ==> NextCodes(next, lens, sym + 1)
    ensures NextCodes(next[lens[sym] := WrappingAdd16(next[lens[sym]], 1)], lens, sym + 1)
  {
    hide NextCode16;
    assert lens[..sym + 1][..sym] == lens[..sym];
    var len := lens[sym];
    if len > 0 {
      AddOne16(NextCode16(lens, len) + Count(lens[..sym], len));
    }
  }

  lemma AddOne16(x: nat)
    ensures WrappingAdd16(x % 0x1_0000, 1) == (x + 1) % 0x1_0000
  {
  }

  /** Takes the next code of the symbol's length and writes every slot it owns. */
  method PlaceSymbol(lens: seq<nat>, sym: nat, maxBits: nat, next: array<nat>, entries: array<HuffEntry>)
    requires sym < |lens| && 0 < lens[sym] <= maxBits <= MAX_BITS
    requires forall s :: 0 <= s < |lens| ==> lens[s] <= maxBits
    requires NextCodes(next[..], lens, sym) && entries.Length == Pow2(maxBits)
    requires forall i :: 0 <= i < entries.Length ==> entries[i].bits <= maxBits
    requires Holds(entries[..], lens, sym)
    modifies next, entries
    ensures NextCodes(next[..], lens, sym + 1)
    ensures forall i :: 0 <= i < entries.Length ==> entries[i].bits <= maxBits
    ensures Holds(entries[..], lens, sym + 1)
  {
    hide Reverse, Pow2, Count, NextCode16, WrappingAdd16, Holds, ClassOf;
    var len := lens[sym];
    var c := next[len];
    NextCodesStep(next[..], lens, sym);
    next[len] := WrappingAdd16(next[len], 1);
    assert next[..] == old(next[..])[len := WrappingAdd16(c, 1)];
    var r := ReverseBits(c, len);
    WriteSlots(entries, r, Pow2(len), HuffEntry(sym, len));
    HoldsForNextSymbol(lens, sym, old(entries[..]), entries[..]);
  }

  method FillEntries(lens: seq<nat>, maxBits: nat, next: array<nat>) returns (entries: array<HuffEntry>)
    requires 1 <= maxBits <= MAX_BITS && next.Length == 16
    requires forall s :: 0 <= s < |lens| ==> lens[s] <= maxBits
    requires forall len :: 1 <= len <= MAX_BITS ==> next[len] == NextCode16(lens, len)
    modifies next
    ensures fresh(entries) && entries.Length == Pow2(maxBits)
    ensures forall i :: 0 <= i < entries.Length ==> entries[i].bits <= maxBits
    ensures Holds(entries[..], lens, |lens|)
  {
    entries := new HuffEntry[Pow2(maxBits)](_ => NO_ENTRY);
    NoCodesYet(next[..], lens);
    assert Holds(entries[..], lens, 0);
    for sym := 0 to |lens|
      invariant NextCodes(next[..], lens, sym)
      invariant forall i :: 0 <= i < entries.Length ==> entries[i].bits <= maxBits
      invariant Holds(entries[..], lens, sym)
    {
      hide Code, Kraft, Reverse, Pow2, Count, NextCode16, Holds, NextCodes;
      if lens[sym] == 0 {
        UnusedSymbol(next[..], entries[..], lens, sym);
      } else {
        PlaceSymbol(lens, sym, maxBits, next, entries);
      }
    }
  }

  lemma UnusedSymbol(next: seq<nat>, entries: seq<HuffEntry>, lens: seq<nat>, sym: nat)
    requires sym < |lens| && lens[sym] == 0
    ensures NextCodes(next, lens, sym) ==> NextCodes(next, lens, sym + 1)
    ensures Holds(entries, lens, sym) ==> Holds(entries, lens, sym + 1)
  {
    hide Count, NextCode16;
    if NextCodes(next, lens, sym) {
      NextCodesStep(next, lens, sym);
    }
  }

  /** `HuffmanTable::build`: which length vectors are accepted, on every input, and what the
      table then holds. */
  method Build(lens: seq<nat>) returns (r: Result<HuffmanTable, InflateError>)
    requires |lens| < 0x1_0000
    ensures r.Success? <==> LengthsFit(lens) && Accepts(lens)
    ensures r.Success? ==> Represents(r.value, lens)
    ensures r.Failure? ==> r.error == if LengthsFit(lens) then OversubscribedTree else CodeLengthTooLarge
  {
    var longest := MaxLength(lens);
    if longest == 0 {
      assert Pow2(1) == 2 by { Pow2Values(); }
      NoCodesAccepted(lens);
      NoCodesNoHits(lens, |lens|);
      return Success(HuffmanTable(1, [NO_ENTRY, NO_ENTRY]));
    }
    if longest > MAX_BITS {
      return Failure(CodeLengthTooLarge);
    }
    var counts := CountLengths(lens);
    var next := FirstCodes16(lens, counts);
    Pow2Values();
    hide Code, Kraft, Reverse, Pow2, Count, NextCode16;
    if next[MAX_BITS] + counts[MAX_BITS] > 0x8000 {
      return Failure(OversubscribedTree);
    }
    var entries := FillEntries(lens, longest, next);
    return Success(HuffmanTable(longest, entries[..]));
  }

  lemma {:induction false} NoCodesNoHits(lens: seq<nat>, n: nat)
    requires n <= |lens| && forall s :: 0 <= s < |lens| ==> lens[s] == 0
    ensures forall i: nat :: Slot(lens, n, i) == NO_ENTRY
  {
    if n > 0 {
      NoCodesNoHits(lens, n - 1);
    }
  }

  lemma {:induction false} NoCodesAccepted(lens: seq<nat>)
    requires forall s :: 0 <= s < |lens| ==> lens[s] == 0
    ensures Accepts(lens)
  {
    KraftOfUnused(lens);
    AcceptsExactlyWhen(lens);
  }

  lemma {:induction false} KraftOfUnused(lens: seq<nat>)
    requires forall s :: 0 <= s < |lens| ==> lens[s] == 0
    ensures Kraft(lens) == 0
  {
    if |lens| > 0 {
      KraftOfUnused(lens[..|lens| - 1]);
    }
  }

  /** `HuffmanTable::decode`: the last symbol whose code starts the remaining bits (the only
      one, for a tree of the format), consuming exactly its length. A failure means that no
      code starts them, or that fewer than 15 bits are left. */
  method Decode(t: HuffmanTable, br: BitReader, ghost lens: seq<nat>) returns (r: Result<nat, InflateError>)
    requires br.Valid() && Represents(t, lens)
    modifies br
    ensures br.Valid()
    ensures r.Success? ==>
        && LastStart(lens, br.Stream(), old(br.At()), |lens|) == Some(r.value)
        && br.At() == old(br.At()) + lens[r.value] > old(br.At())
    ensures r.Failure? ==> br.At() == old(br.At())
    ensures r.Failure? ==>
        || old(br.At()) + MAX_BITS > |br.Stream()|
        || LastStart(lens, br.Stream(), old(br.At()), |lens|) == None
  {
    hide Pow2, Lsb, BitList, LastStart, Slot, Hits, Starts16;
    var idx :- br.PeekBits(t.maxBits);
    var e := t.entries[idx];
    SlotIsLastStart(lens, br.Stream(), br.At(), t.maxBits, |lens|);
    LastHasLength(lens, br.Stream(), br.At());
    if e.bits == 0 {
      return Failure(InvalidHuffmanCode);
    }
    var dropped := br.DropBits(e.bits);
    assert dropped.Success?;
    return Success(e.sym);
  }

  lemma LastHasLength(lens: seq<nat>, bits: seq<Bit>, p: nat)
    ensures
        var last := LastStart(lens, bits, p, |lens|);
        last.Some? ==> last.value < |lens| && 0 < lens[last.value] && p + lens[last.value] <= |bits|
  {
    hide Lsb, Reverse, Code16, LastStart;
  }
}
