/** `reserve_blocks`: it grants the lowest missing bytes, in order, and keeps the invariant. */
module Reservation {
  import opened Wrappers
  import opened ByteRanges
  import opened Downloads
  import opened DownloadInvariant

  /** The first block is the lowest stretch of missing bytes, up to the block size. */
  lemma FirstBlockIsLowest(met: PartMet, blockSize: nat)
    requires Canonical(met.missing) && met.missing != [] && blockSize > 0
    ensures
        var block := FirstBlock(met, blockSize);
        var rest := Subtracted(met.missing, block.start, block.end);
        && block.start <= block.end <= met.missing[0].end && Length(block) <= blockSize
        && (Length(block) == blockSize || block.end + 1 !in Bytes(met.missing))
        && Span(block) <= Bytes(met.missing)
        && Canonical(rest) && Bytes(rest) == Bytes(met.missing) - Span(block)
        && (forall b :: b in Bytes(rest) ==> block.end < b)
  {
    hide Bytes, Span, Subtracted;
    var block := FirstBlock(met, blockSize);
    CanonicalTail(met.missing);
    SubtractedCorrect(met.missing, block.start, block.end);
    SubSpan(block, met.missing[0]);
    AboveBlock(met.missing, block);
  }

  lemma SubSpan(a: ByteRange, b: ByteRange)
    requires b.start <= a.start && a.end <= b.end
    ensures Span(a) <= Span(b)
  {
  }

  lemma AboveBlock(rs: seq<ByteRange>, block: ByteRange)
    requires forall b :: b in Bytes(rs) ==> block.start <= b
    ensures forall b :: b in Bytes(rs) - Span(block) ==> block.end < b
  {
  }

  lemma GrantOneKeeps(d: Download, peer: string, blockSize: nat, deadline: nat)
    requires Consistent(d.met, d.leases) && Canonical(d.met.missing) && d.met.missing != [] && blockSize > 0
    ensures
        var next := GrantOne(d, peer, blockSize, deadline);
        Consistent(next.met, next.leases) && Canonical(next.met.missing) && Outstanding(next.met) == Outstanding(d.met)
  {
    var block := FirstBlock(d.met, blockSize);
    FirstBlockIsLowest(d.met, blockSize);
    var next := GrantOne(d, peer, blockSize, deadline);
    hide Bytes, Span, Subtracted, Canonical, FirstBlock;
    FitsInFile(d.met.missing, d.met.fileSize);
    BytesConcat(d.met.inflight, [block]);
    BytesOfOne(block);
    FitAfterGrant(d.met, block, next.met.missing);
  }

  lemma FitAfterGrant(met: PartMet, block: ByteRange, rest: seq<ByteRange>)
    requires Canonical(rest) && block.start <= block.end
    requires Bytes(rest) <= Bytes(met.missing) && Span(block) <= Bytes(met.missing)
    requires Bytes(met.missing) <= FileBytes(met.fileSize) && Bytes(met.missing) !! Bytes(met.inflight)
    requires Fit(met.inflight, met.fileSize) && PairwiseDisjoint(met.inflight)
    ensures Fit(rest, met.fileSize) && Fit(met.inflight + [block], met.fileSize)
    ensures PairwiseDisjoint(met.inflight + [block])
  {
    hide Bytes;
    FitFromBytes(rest, met.fileSize);
    assert block.end in Span(block);
    forall i | 0 <= i < |met.inflight|
      ensures Disjoint(met.inflight[i], block)
    {
      SpanInBytes(met.inflight, i);
      assert block.start in Span(block) && met.inflight[i].start in Span(met.inflight[i]);
    }
  }

  lemma {:induction false} GrantKeeps(d: Download, peer: string, blockSize: nat, deadline: nat, budget: nat)
    requires Consistent(d.met, d.leases) && Canonical(d.met.missing) && blockSize > 0
    ensures
        var (after, blocks) := Grant(d, peer, blockSize, deadline, budget);
        && Consistent(after.met, after.leases) && Canonical(after.met.missing)
        && Outstanding(after.met) == Outstanding(d.met)
        && after.met == d.met.(missing := after.met.missing, inflight := d.met.inflight + blocks)
    decreases budget
  {
    hide Consistent, Canonical, Outstanding, FirstBlock, Subtracted;
    if budget > 0 && d.met.missing != [] {
      GrantOneKeeps(d, peer, blockSize, deadline);
      GrantKeeps(GrantOne(d, peer, blockSize, deadline), peer, blockSize, deadline, budget - 1);
    }
  }

  /** The new leases are the blocks, all held by the peer, and no more than the budget. */
  lemma {:induction false} GrantCounts(d: Download, peer: string, blockSize: nat, deadline: nat, budget: nat, other: string)
    requires blockSize > 0
    ensures
        var (after, blocks) := Grant(d, peer, blockSize, deadline, budget);
        && |blocks| <= budget
        && |after.leases| == |d.leases| + |blocks|
        && PeerLeases(after.leases, other) == PeerLeases(d.leases, other) + (if other == peer then |blocks| else 0)
        && (|blocks| == budget || after.met.missing == [])
        && (blocks == [] ==> after == d)
    decreases budget
  {
    hide FirstBlock, Subtracted;
    if budget > 0 && d.met.missing != [] {
      var next := GrantOne(d, peer, blockSize, deadline);
      GrantCounts(next, peer, blockSize, deadline, budget - 1, other);
      assert next.leases[..|next.leases| - 1] == d.leases;
    }
  }

  /** The granted blocks in order: disjoint, below everything still missing, each at most a
      block long, and shorter than a block only where the missing bytes stop. */
  ghost predicate LowestFirst(missing: set<nat>, blocks: seq<ByteRange>, rest: set<nat>, blockSize: nat) {
    && missing == Bytes(blocks) + rest
    && (forall i, j :: 0 <= i < j < |blocks| ==> blocks[i].end < blocks[j].start)
    && (forall i, b :: 0 <= i < |blocks| && b in rest ==> blocks[i].end < b)
    && (forall i :: 0 <= i < |blocks| ==>
          && blocks[i].start <= blocks[i].end && Length(blocks[i]) <= blockSize
          && (Length(blocks[i]) == blockSize || blocks[i].end + 1 !in missing))
  }

  lemma {:induction false} GrantTakesLowest(d: Download, peer: string, blockSize: nat, deadline: nat, budget: nat)
    requires Consistent(d.met, d.leases) && Canonical(d.met.missing) && blockSize > 0
    ensures
        var (after, blocks) := Grant(d, peer, blockSize, deadline, budget);
        LowestFirst(Bytes(d.met.missing), blocks, Bytes(after.met.missing), blockSize)
    decreases budget
  {
    hide Consistent, Canonical, Outstanding, FirstBlock, Subtracted;
    if budget > 0 && d.met.missing != [] {
      var next := GrantOne(d, peer, blockSize, deadline);
      var (after, blocks) := Grant(next, peer, blockSize, deadline, budget - 1);
      FirstBlockIsLowest(d.met, blockSize);
      GrantOneKeeps(d, peer, blockSize, deadline);
      GrantTakesLowest(next, peer, blockSize, deadline, budget - 1);
      OneMoreBlock(Bytes(d.met.missing), FirstBlock(d.met, blockSize), Bytes(next.met.missing), blocks, Bytes(after.met.missing), blockSize);
    } else {
      BytesOfNone();
    }
  }

  lemma OneMoreBlock(all: set<nat>, block: ByteRange, middle: set<nat>, blocks: seq<ByteRange>, rest: set<nat>, blockSize: nat)
    requires LowestFirst(middle, blocks, rest, blockSize)
    requires block.start <= block.end && Length(block) <= blockSize
    requires Length(block) == blockSize || block.end + 1 !in all
    requires Span(block) <= all && middle == all - Span(block)
    requires forall b :: b in middle ==> block.end < b
    ensures LowestFirst(all, [block] + blocks, rest, blockSize)
  {
    hide Bytes;
    BytesConcat([block], blocks);
    BytesOfOne(block);
    var more := [block] + blocks;
    forall i | 0 <= i < |blocks|
      ensures block.end < blocks[i].start && (Length(blocks[i]) == blockSize || blocks[i].end + 1 !in all)
    {
      SpanInBytes(blocks, i);
      assert blocks[i].start in Span(blocks[i]);
      assert blocks[i].end + 1 !in Span(block);
    }
    forall i | 0 <= i < |more|
      ensures more[i].start <= more[i].end && Length(more[i]) <= blockSize
      ensures Length(more[i]) == blockSize || more[i].end + 1 !in all
      ensures forall b :: b in rest ==> more[i].end < b
    {
      assert i > 0 ==> more[i] == blocks[i - 1];
    }
    assert all == Span(block) + middle;
    assert Bytes(more) == Span(block) + Bytes(blocks);
  }

  /** `reserve_blocks` on a known download: what is granted and what is kept. */
  lemma ReserveKeeps(d: Download, peer: string, maxBlocks: nat, blockSize: nat, now: nat)
    requires Inv(d)
    ensures
        var (after, r) := Reserve(d, peer, maxBlocks, blockSize, now);
        && Inv(after)
        && ReceivedBytes(after.met) == ReceivedBytes(d.met)
        && (r.Failure? ==> after.met == d.met && after.leases == d.leases)
        && (r.Success? ==>
              && |r.value| <= maxBlocks
              && after.met.inflight == d.met.inflight + r.value
              && LowestFirst(Bytes(d.met.missing), r.value, Bytes(after.met.missing), blockSize)
              && (r.value == [] ==> after.met == d.met && after.leases == d.leases))
  {
    BytesOfNone();
    hide Fit, PairwiseDisjoint, OneLeasePerRange, Canonical, FirstBlock, Subtracted, Grant, Bytes, PeerLeases,
         WithinCaps, LowestFirst, FileBytes, ReserveBudget;
    NothingGranted(Bytes(d.met.missing), blockSize);
    var ready := d.(cooldownUntil := None);
    if PeerLeases(d.leases, peer) < MAX_LEASES_PER_PEER && |d.leases| < MAX_LEASES_PER_DOWNLOAD && blockSize > 0 {
      GrantInvariant(ready, peer, blockSize, now + LEASE_TIMEOUT_MS, ReserveBudget(d, peer, maxBlocks));
    }
  }

  lemma NothingGranted(missing: set<nat>, blockSize: nat)
    ensures LowestFirst(missing, [], missing, blockSize)
  {
  }

  lemma GrantInvariant(d: Download, peer: string, blockSize: nat, deadline: nat, budget: nat)
    requires Inv(d) && blockSize > 0
    requires PeerLeases(d.leases, peer) + budget <= MAX_LEASES_PER_PEER && |d.leases| + budget <= MAX_LEASES_PER_DOWNLOAD
    ensures
        var (after, blocks) := Grant(d, peer, blockSize, deadline, budget);
        && Consistent(after.met, after.leases) && Canonical(after.met.missing) && WithinCaps(after.leases)
        && Outstanding(after.met) == Outstanding(d.met)
        && after.met == d.met.(missing := after.met.missing, inflight := d.met.inflight + blocks)
        && |blocks| <= budget && (blocks == [] ==> after == d)
        && LowestFirst(Bytes(d.met.missing), blocks, Bytes(after.met.missing), blockSize)
  {
    hide Consistent, Canonical, Outstanding, FirstBlock, Subtracted, Grant, Bytes, PeerLeases, LowestFirst;
    GrantKeeps(d, peer, blockSize, deadline, budget);
    GrantTakesLowest(d, peer, blockSize, deadline, budget);
    GrantCounts(d, peer, blockSize, deadline, budget, peer);
    forall other: string
      ensures PeerLeases(Grant(d, peer, blockSize, deadline, budget).0.leases, other) <= MAX_LEASES_PER_PEER
    {
      GrantCounts(d, peer, blockSize, deadline, budget, other);
    }
  }
}
