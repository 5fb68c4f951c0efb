/** Canonical Huffman codes (RFC 1951 section 3.2.2) as plain mathematics, and the
    16-bit variant that `HuffmanTable::build` computes. */
module CanonicalCodes {
  import opened Bits

  const MAX_BITS: nat := 15

  /** Number of symbols whose code has the given length. */
  function Count(lens: seq<nat>, len: nat): (c: nat)
    ensures c <= |lens|
  {
    if |lens| == 0 then 0
    else Count(lens[..|lens| - 1], len) + (if lens[|lens| - 1] == len then 1 else 0)
  }

  /** Number of codes of the given length; length 0 means the symbol is unused. */
  function Codes(lens: seq<nat>, len: nat): nat {
    if len == 0 then 0 else Count(lens, len)
  }

  /** Smallest code of each length: step 2 of the algorithm in section 3.2.2. */
  function FirstCode(lens: seq<nat>, len: nat): nat {
    if len == 0 then 0 else 2 * (FirstCode(lens, len - 1) + Codes(lens, len - 1))
  }

  /** The code of a symbol: consecutive values, in symbol order, within a length. */
  function Code(lens: seq<nat>, sym: nat): nat
    requires sym < |lens|
  {
    FirstCode(lens, lens[sym]) + Count(lens[..sym], lens[sym])
  }

  /** Share of the code space used, in units of 2^-15. */
  function Kraft(lens: seq<nat>): nat {
    if |lens| == 0 then 0
    else Kraft(lens[..|lens| - 1]) + Share(lens[|lens| - 1])
  }

  function Share(len: nat): nat {
    if 1 <= len <= MAX_BITS then Pow2(MAX_BITS - len) else 0
  }

  ghost predicate NotOversubscribed(lens: seq<nat>) {
    Kraft(lens) <= Pow2(MAX_BITS)
  }

  ghost predicate LengthsFit(lens: seq<nat>) {
    forall s :: 0 <= s < |lens| ==> lens[s] <= MAX_BITS
  }

  function Repeat(x: nat, n: nat): (r: seq<nat>)
    ensures |r| == n
  {
    seq(n, _ => x)
  }

  lemma {:induction false} CountRepeat(front: seq<nat>, x: nat, n: nat, len: nat)
    ensures Count(front + Repeat(x, n), len) == Count(front, len) + (if x == len then n else 0)
  {
    if n == 0 {
      assert front + Repeat(x, 0) == front;
    } else {
      CountRepeat(front, x, n - 1, len);
      var whole := front + Repeat(x, n);
      assert whole[..|whole| - 1] == front + Repeat(x, n - 1);
    }
  }

  lemma {:induction false} KraftRepeat(front: seq<nat>, x: nat, n: nat)
    ensures Kraft(front + Repeat(x, n)) == Kraft(front) + n * Share(x)
  {
    if n == 0 {
      assert front + Repeat(x, 0) == front;
    } else {
      KraftRepeat(front, x, n - 1);
      var whole := front + Repeat(x, n);
      assert whole[..|whole| - 1] == front + Repeat(x, n - 1);
      Distribute(Share(x), n - 1, 1);
    }
  }

  /** Share of the code space used by the codes of length at most len. */
  function KraftUpTo(lens: seq<nat>, len: nat): nat
    requires len <= MAX_BITS
  {
    if len == 0 then 0 else KraftUpTo(lens, len - 1) + Count(lens, len) * Pow2(MAX_BITS - len)
  }

  lemma {:induction false} KraftUpToAppend(lens: seq<nat>, last: nat, len: nat)
    requires len <= MAX_BITS
    ensures KraftUpTo(lens + [last], len)
         == KraftUpTo(lens, len) + (if 1 <= last <= len then Share(last) else 0)
    decreases len
  {
    if len > 0 {
      KraftUpToAppend(lens, last, len - 1);
      assert (lens + [last])[..|lens|] == lens;
      Distribute(Pow2(MAX_BITS - len), Count(lens, len), if last == len then 1 else 0);
    }
  }

  /** Summing over the symbols or over the lengths gives the same share. */
  lemma {:induction false} KraftByLength(lens: seq<nat>)
    ensures Kraft(lens) == KraftUpTo(lens, MAX_BITS)
  {
    if |lens| == 0 {
      KraftOfNothing(MAX_BITS);
    } else {
      var front, last := lens[..|lens| - 1], lens[|lens| - 1];
      KraftByLength(front);
      assert front + [last] == lens;
      KraftUpToAppend(front, last, MAX_BITS);
    }
  }

  lemma {:induction false} KraftOfNothing(len: nat)
    requires len <= MAX_BITS
    ensures KraftUpTo([], len) == 0
  {
    if len > 0 {
      KraftOfNothing(len - 1);
    }
  }

  /** The first code of a length, scaled, is the space the shorter codes take. */
  lemma {:induction false} FirstCodeIsSpaceUsed(lens: seq<nat>, len: nat)
    requires 1 <= len <= MAX_BITS
    ensures FirstCode(lens, len) * Pow2(MAX_BITS - len) == KraftUpTo(lens, len - 1)
    decreases len
  {
    if len == 1 {
      assert FirstCode(lens, 1) == 0 by { assert FirstCode(lens, 0) == 0; }
    } else {
      FirstCodeIsSpaceUsed(lens, len - 1);
      var unit := Pow2(MAX_BITS - len);
      assert Pow2(MAX_BITS - (len - 1)) == 2 * unit;
      DoubledSum(FirstCode(lens, len - 1), Codes(lens, len - 1), unit);
    }
  }

  lemma DoubledSum(a: nat, b: nat, unit: nat)
    ensures 2 * (a + b) * unit == a * (2 * unit) + b * (2 * unit)
  {
  }

  lemma {:induction false} KraftUpToMonotone(lens: seq<nat>, m: nat, n: nat)
    requires m <= n <= MAX_BITS
    ensures KraftUpTo(lens, m) <= KraftUpTo(lens, n)
  {
    hide Pow2, Count;
    if m < n {
      KraftUpToMonotone(lens, m, n - 1);
      ProductIsNat(Count(lens, n), Pow2(MAX_BITS - n));
    }
  }

  /** Codes of a length stay below 2^len when the tree is not oversubscribed. */
  lemma CodesFit(lens: seq<nat>, len: nat)
    requires NotOversubscribed(lens) && 1 <= len <= MAX_BITS
    ensures FirstCode(lens, len) + Count(lens, len) <= Pow2(len)
  {
    hide *;
    var unit := Pow2(MAX_BITS - len);
    SpaceUsed(lens, len);
    Pow2Add(len, MAX_BITS - len);
    CancelUnit(FirstCode(lens, len) + Count(lens, len), Pow2(len), unit);
  }

  lemma SpaceUsed(lens: seq<nat>, len: nat)
    requires NotOversubscribed(lens) && 1 <= len <= MAX_BITS
    ensures (FirstCode(lens, len) + Count(lens, len)) * Pow2(MAX_BITS - len) <= Pow2(MAX_BITS)
  {
    hide FirstCode, Count, Kraft, Pow2;
    var unit := Pow2(MAX_BITS - len);
    FirstCodeIsSpaceUsed(lens, len);
    assert KraftUpTo(lens, len) == KraftUpTo(lens, len - 1) + Count(lens, len) * unit;
    hide KraftUpTo;
    KraftUpToMonotone(lens, len, MAX_BITS);
    KraftByLength(lens);
    Distribute(unit, FirstCode(lens, len), Count(lens, len));
  }

  lemma CancelUnit(a: nat, b: nat, unit: nat)
    requires unit > 0 && a * unit <= b * unit
    ensures a <= b
  {
    if a > b {
      Distribute(unit, b, a - b);
      MulAtLeast(unit, a - b);
    }
  }

  lemma {:induction false} CountBefore(lens: seq<nat>, m: nat, n: nat, len: nat)
    requires m <= n <= |lens|
    ensures Count(lens[..m], len) <= Count(lens[..n], len)
    ensures m < n && lens[m] == len ==> Count(lens[..m], len) < Count(lens[..n], len)
    decreases n
  {
    if m < n {
      CountBefore(lens, m, n - 1, len);
      assert lens[..n][..n - 1] == lens[..n - 1];
    }
  }

  lemma RankInRange(lens: seq<nat>, sym: nat)
    requires sym < |lens|
    ensures Count(lens[..sym], lens[sym]) < Count(lens, lens[sym])
  {
    CountBefore(lens, sym, |lens|, lens[sym]);
    assert lens[..|lens|] == lens;
  }

  lemma CodeFits(lens: seq<nat>, sym: nat)
    requires NotOversubscribed(lens) && sym < |lens| && 1 <= lens[sym] <= MAX_BITS
    ensures Code(lens, sym) < Pow2(lens[sym])
  {
    CodesFit(lens, lens[sym]);
    RankInRange(lens, sym);
  }

  /** Longer codes start after every extension of the shorter ones. */
  lemma {:induction false} FirstCodeGrows(lens: seq<nat>, m: nat, n: nat)
    requires 1 <= m < n
    ensures FirstCode(lens, n) >= (FirstCode(lens, m) + Count(lens, m)) * Pow2(n - m)
    decreases n
  {
    if m + 1 < n {
      FirstCodeGrows(lens, m, n - 1);
      var base := FirstCode(lens, m) + Count(lens, m);
      Associate(base, Pow2(n - 1 - m), 2);
      assert Pow2(n - m) == 2 * Pow2(n - 1 - m);
    } else {
      assert Pow2(1) == 2 by { assert Pow2(0) == 1; }
    }
  }

  /** No code is a prefix of another: at most one symbol's code starts any bit string. */
  lemma PrefixFree(lens: seq<nat>, bits: seq<Bit>, p: nat, s: nat, t: nat)
    requires NotOversubscribed(lens) && LengthsFit(lens)
    requires Matches(lens, bits, p, s) && Matches(lens, bits, p, t)
    ensures s == t
  {
    if lens[s] == lens[t] {
      if s < t {
        CountBefore(lens, s, t, lens[s]);
      } else if t < s {
        CountBefore(lens, t, s, lens[t]);
      }
    } else if lens[s] < lens[t] {
      ShorterIsNotPrefix(lens, bits, p, s, t);
    } else {
      ShorterIsNotPrefix(lens, bits, p, t, s);
    }
  }

  lemma ShorterIsNotPrefix(lens: seq<nat>, bits: seq<Bit>, p: nat, s: nat, t: nat)
    requires NotOversubscribed(lens) && LengthsFit(lens)
    requires Matches(lens, bits, p, s) && Matches(lens, bits, p, t)
    ensures lens[s] >= lens[t]
  {
    var m, n := lens[s], lens[t];
    if m < n {
      MsbSplit(bits, p, m, n - m);
      FirstCodeGrows(lens, m, n);
      RankInRange(lens, s);
      NextBlockAbove(Code(lens, s), FirstCode(lens, m) + Count(lens, m), Pow2(n - m), Msb(bits, p + m, n - m));
    }
  }

  lemma NextBlockAbove(code: nat, bound: nat, unit: nat, tail: nat)
    requires code < bound && tail < unit
    ensures code * unit + tail < bound * unit
  {
    Distribute(unit, code, bound - code);
    MulAtLeast(unit, bound - code);
  }

  /** The code of the symbol is a prefix of the bits from p, most significant bit first. */
  ghost predicate Matches(lens: seq<nat>, bits: seq<Bit>, p: nat, sym: nat) {
    && sym < |lens|
    && lens[sym] > 0
    && p + lens[sym] <= |bits|
    && Msb(bits, p, lens[sym]) == Code(lens, sym)
  }
}
