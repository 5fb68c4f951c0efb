/** The command loop's table of downloads, updated in place by each command. */
module DownloadServices {
  import opened Wrappers
  import opened Integers
  import opened ByteRanges
  import opened Downloads
  import opened DownloadInvariant
  import opened Reservation
  import opened DownloadRuns

  const MAX_PART_NUMBER: nat := 0xFFFF

  class DownloadService {
    var downloads: map<nat, Download>

    constructor ()
      ensures downloads == map[] && Valid()
    {
      downloads := map[];
    }

    ghost predicate Valid()
      reads this
    {
      forall n :: n in downloads ==> Inv(downloads[n])
    }

    /** The lowest part number from 1 that no file in the download directory uses. */
    static method AllocateNextPartNumber(used: set<nat>) returns (r: Option<nat>)
      ensures r.Some? ==> 1 <= r.value <= MAX_PART_NUMBER && r.value !in used && forall n :: 1 <= n < r.value ==> n in used
      ensures r.None? ==> forall n :: 1 <= n <= MAX_PART_NUMBER ==> n in used
    {
      for n := 1 to MAX_PART_NUMBER + 1
        invariant forall m :: 1 <= m < n ==> m in used
      {
        if n !in used {
          return Some(n);
        }
      }
      return None;
    }

    /** Every known download has its files in the directory, so a free number is new. */
    method CreateDownload(fileName: string, fileHash: string, fileSize: nat, used: set<nat>)
      returns (r: Result<nat, DownloadError>)
      requires Valid()
      modifies this
      ensures Valid()
      ensures r.Success? <==> fileSize > 0 && exists n :: 1 <= n <= MAX_PART_NUMBER && n !in used
      ensures r.Success? ==> 1 <= r.value <= MAX_PART_NUMBER && r.value !in used && forall n :: 1 <= n < r.value ==> n in used
      ensures r.Success? ==> downloads == old(downloads)[r.value := Created(fileName, fileHash, fileSize)]
      ensures r.Failure? ==> downloads == old(downloads)
    {
      if fileSize == 0 {
        return Failure(InvalidInput);
      }
      var number := AllocateNextPartNumber(used);
      if number.None? {
        return Failure(InvalidInput);
      }
      CreatedInv(fileName, fileHash, fileSize);
      downloads := downloads[number.value := Created(fileName, fileHash, fileSize)];
      return Success(number.value);
    }

    method SetState(n: nat, next: PartState, allowed: set<PartState>) returns (r: Result<(), DownloadError>)
      requires Valid() && next != Completing
      modifies this
      ensures Valid()
      ensures n !in old(downloads) ==> r == Failure(NotFound) && downloads == old(downloads)
      ensures n in old(downloads) ==>
          && downloads == old(downloads)[n := OrKeep(WithState(old(downloads)[n], next, allowed), old(downloads)[n])]
          && (r.Success? <==> old(downloads)[n].met.state in allowed)
    {
      hide Inv;
      if n !in downloads {
        return Failure(NotFound);
      }
      var d := downloads[n];
      var prev := d.met.state;
      if prev !in allowed {
        return Failure(InvalidTransition(prev, next));
      }
      StateStep(d, next, allowed);
      downloads := downloads[n := d.(met := d.met.(state := next))];
      return Success(());
    }

    static method CountPeerLeases(leases: seq<Lease>, peer: string) returns (count: nat)
      ensures count == PeerLeases(leases, peer)
    {
      count := 0;
      for i := 0 to |leases|
        invariant count == PeerLeases(leases[..i], peer)
      {
        assert leases[..i + 1][..i] == leases[..i];
        if leases[i].peer == peer {
          count := count + 1;
        }
      }
      assert leases[..|leases|] == leases;
    }

    /** The granting loop of `reserve_blocks`. */
    static method GrantBlocks(d: Download, peer: string, blockSize: nat, deadline: nat, budget: nat)
      returns (after: Download, out: seq<ByteRange>)
      requires blockSize > 0
      ensures (after, out) == Grant(d, peer, blockSize, deadline, budget)
    {
      hide FirstBlock, Subtracted;
      after, out := d, [];
      for i := 0 to budget
        invariant
            var (rest, more) := Grant(after, peer, blockSize, deadline, budget - i);
            rest == Grant(d, peer, blockSize, deadline, budget).0 && out + more == Grant(d, peer, blockSize, deadline, budget).1
      {
        assert out + [] == out;
        if after.met.missing == [] {
          return;
        }
        var block := FirstBlock(after.met, blockSize);
        var missing := SubtractRange(after.met.missing, block.start, block.end);
        out := out + [block];
        after := Download(
          after.met.(missing := missing, inflight := after.met.inflight + [block]),
          after.leases + [Lease(block, peer, deadline)],
          after.cooldownUntil);
      }
      assert out + [] == out;
    }

    method ReserveBlocks(n: nat, peer: string, maxBlocks: nat, blockSize: nat, now: nat)
      returns (r: Result<seq<ByteRange>, DownloadError>)
      requires Valid()
      modifies this
      ensures Valid()
      ensures n in old(downloads) ==>
          var (after, blocks) := Reserve(old(downloads)[n], peer, maxBlocks, blockSize, now);
          r == blocks && downloads == old(downloads)[n := after]
      ensures n !in old(downloads) ==>
          && downloads == old(downloads)
          && r == if maxBlocks == 0 then Success([])
                  else if maxBlocks > MAX_RESERVE_BLOCKS_PER_CALL || blockSize == 0 then Failure(InvalidInput)
                  else Failure(NotFound)
    {
      hide Inv, Reserve;
      if n in downloads {
        ReserveKeeps(downloads[n], peer, maxBlocks, blockSize, now);
        var after;
        after, r := ReserveOn(downloads[n], peer, maxBlocks, blockSize, now);
        downloads := downloads[n := after];
        return;
      }
      if maxBlocks == 0 {
        return Success([]);
      }
      if maxBlocks > MAX_RESERVE_BLOCKS_PER_CALL || blockSize == 0 {
        return Failure(InvalidInput);
      }
      return Failure(NotFound);
    }

    /** `reserve_blocks` on the download it finds. */
    static method ReserveOn(found: Download, peer: string, maxBlocks: nat, blockSize: nat, now: nat)
      returns (d: Download, r: Result<seq<ByteRange>, DownloadError>)
      ensures (d, r) == Reserve(found, peer, maxBlocks, blockSize, now)
    {
      hide Grant;
      d := found;
      if maxBlocks == 0 {
        return d, Success([]);
      }
      if maxBlocks > MAX_RESERVE_BLOCKS_PER_CALL {
        return d, Failure(InvalidInput);
      }
      if blockSize == 0 {
        return d, Failure(InvalidInput);
      }
      if d.cooldownUntil.Some? && now < d.cooldownUntil.value {
        return d, Success([]);
      }
      d := d.(cooldownUntil := None);
      if d.met.state != Queued && d.met.state != Downloading {
        return d, Failure(InvalidTransition(d.met.state, Downloading));
      }
      var peerLeases := CountPeerLeases(d.leases, peer);
      if peerLeases >= MAX_LEASES_PER_PEER || |d.leases| >= MAX_LEASES_PER_DOWNLOAD {
        return d, Success([]);
      }
      var budget := Min(Min(maxBlocks, MAX_LEASES_PER_PEER - peerLeases), MAX_LEASES_PER_DOWNLOAD - |d.leases|);
      var out;
      d, out := GrantBlocks(d, peer, blockSize, now + LEASE_TIMEOUT_MS, budget);
      if out != [] {
        d := d.(met := d.met.(state := Downloading, lastError := None));
      }
      return d, Success(out);
    }

    method MarkBlockReceived(n: nat, peer: string, block: ByteRange) returns (r: Result<(), DownloadError>)
      requires Valid()
      modifies this
      ensures Valid()
      ensures n !in old(downloads) ==> r == Failure(NotFound) && downloads == old(downloads)
      ensures n in old(downloads) ==>
          && downloads == old(downloads)[n := OrKeep(Receive(old(downloads)[n], peer, block), old(downloads)[n])]
          && (r.Success? <==> FindLease(old(downloads)[n].leases, peer, block).Some?)
    {
      hide Inv, FindLease, RemoveInflight, RemoveAt, ReceivedBytes, Span, SizeLessMissing;
      if n !in downloads {
        return Failure(NotFound);
      }
      var d := downloads[n];
      ReceiveStep(d, peer, block);
      var k := FindLease(d.leases, peer, block);
      if k.None? {
        return Failure(InvalidInput);
      }
      var inflight := RemoveInflight(d.met.inflight, block);
      var state := d.met.state;
      if d.met.missing == [] && inflight == [] {
        state := Completing;
      } else if state == Queued {
        state := Downloading;
      }
      var met := d.met.(
        inflight := inflight,
        downloadedBytes := SizeLessMissing(d.met.fileSize, d.met.missing),
        state := state,
        lastError := None);
      downloads := downloads[n := d.(met := met, leases := RemoveAt(d.leases, k.value))];
      return Success(());
    }

    method MarkBlockFailed(n: nat, peer: string, block: ByteRange, reason: string, now: nat) returns (r: Result<(), DownloadError>)
      requires Valid()
      modifies this
      ensures Valid()
      ensures n !in old(downloads) ==> r == Failure(NotFound) && downloads == old(downloads)
      ensures n in old(downloads) ==>
          && downloads == old(downloads)[n := OrKeep(Fail(old(downloads)[n], peer, block, reason, now), old(downloads)[n])]
          && (r.Success? <==> FindLease(old(downloads)[n].leases, peer, block).Some?)
    {
      hide Inv, FindLease, RemoveInflight, RemoveAt, ReceivedBytes, Merged, SizeLessMissing;
      if n !in downloads {
        return Failure(NotFound);
      }
      var d := downloads[n];
      FailStep(d, peer, block, reason, now);
      var k := FindLease(d.leases, peer, block);
      if k.None? {
        return Failure(InvalidInput);
      }
      LeasedBlocksAreValid(d, k.value);
      var missing := MergeRanges(d.met.missing + [block]);
      var met := d.met.(
        inflight := RemoveInflight(d.met.inflight, block),
        missing := missing,
        retryCount := SaturatingIncU32(d.met.retryCount),
        lastError := Some(reason),
        state := if d.met.state == Paused then Paused else Queued);
      met := met.(downloadedBytes := SizeLessMissing(met.fileSize, met.missing));
      downloads := downloads[n := Download(met, RemoveAt(d.leases, k.value), Some(now + RetryBackoffMs(met.retryCount)))];
      return Success(());
    }

    /** The index loop shared by `peer_disconnected` and `process_timeouts`. */
    static method ReclaimLeases(d: Download, doom: Doom) returns (met: PartMet, leases: seq<Lease>, reclaimed: nat)
      ensures (met, leases, reclaimed) == ReclaimFrom(d.met, d.leases, doom, 0)
    {
      met, leases, reclaimed := d.met, d.leases, 0;
      var i := 0;
      while i < |leases|
        invariant i <= |leases|
        invariant
            var (m, l, k) := ReclaimFrom(met, leases, doom, i);
            (m, l, reclaimed + k) == ReclaimFrom(d.met, d.leases, doom, 0)
        decreases |leases| - i
      {
        if Doomed(leases[i], doom) {
          var range := leases[i].range;
          leases := RemoveAt(leases, i);
          reclaimed := reclaimed + 1;
          met := met.(inflight := RemoveInflight(met.inflight, range), missing := met.missing + [range]);
        } else {
          i := i + 1;
        }
      }
    }

    static method ReclaimOne(d: Download, doom: Doom, error: string, now: nat) returns (after: Download, reclaimed: nat)
      requires Inv(d)
      ensures (after, reclaimed) == Reclaim(d, doom, error, now)
    {
      hide ReclaimFrom, Inv, Bytes, AllValid, Apart, Merged, RetryBackoffMs, SizeLessMissing;
      var met, leases;
      met, leases, reclaimed := ReclaimLeases(d, doom);
      if reclaimed == 0 {
        return d, 0;
      }
      ReclaimedRangesAreValid(d, doom);
      var missing := MergeRanges(met.missing);
      met := met.(
        missing := missing,
        retryCount := SaturatingIncU32(met.retryCount),
        lastError := Some(error),
        state := if met.state == Downloading then Queued else met.state);
      met := met.(downloadedBytes := SizeLessMissing(met.fileSize, met.missing));
      after := Download(met, leases, Some(now + RetryBackoffMs(met.retryCount)));
    }

    /** Applies the reclaiming to every download: `peer_disconnected`, `process_timeouts`. */
    method ReclaimEverywhere(doom: Doom, error: string, now: nat) returns (total: nat)
      requires Valid()
      modifies this
      ensures Valid()
      ensures downloads.Keys == old(downloads).Keys
      ensures forall n :: n in downloads ==> downloads[n] == Reclaim(old(downloads)[n], doom, error, now).0
      ensures total == 0 <==> forall n :: n in downloads ==> Reclaim(old(downloads)[n], doom, error, now).1 == 0
    {
      hide Inv, Reclaim;
      total := 0;
      var pending := downloads.Keys;
      while pending != {}
        invariant pending <= downloads.Keys == old(downloads).Keys
        invariant forall n :: n in pending ==> downloads[n] == old(downloads)[n]
        invariant forall n :: n in downloads && n !in pending ==>
            downloads[n] == Reclaim(old(downloads)[n], doom, error, now).0
        invariant forall n :: n in downloads ==> Inv(downloads[n])
        invariant total == 0 <==>
            forall n :: n in downloads && n !in pending ==> Reclaim(old(downloads)[n], doom, error, now).1 == 0
      {
        var n :| n in pending;
        var d := downloads[n];
        ReclaimStep(d, doom, error, now);
        var after, reclaimed := ReclaimOne(d, doom, error, now);
        downloads := downloads[n := after];
        pending := pending - {n};
        total := total + reclaimed;
      }
    }
  }

  lemma LeasedBlocksAreValid(d: Download, k: nat)
    requires Inv(d) && k < |d.leases|
    ensures AllValid(d.met.missing + [d.leases[k].range])
  {
  }

  lemma ReclaimedRangesAreValid(d: Download, doom: Doom)
    requires Inv(d)
    ensures AllValid(ReclaimFrom(d.met, d.leases, doom, 0).0.missing)
  {
    hide ReclaimFrom, Bytes, WithinCaps, Canonical;
    ReclaimFromConserves(d.met, d.leases, doom, 0);
  }
}
