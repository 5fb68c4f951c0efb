/** One managed download of `src/download/service.rs`: its metadata, leases and cooldown,
    and what each command does to them. Time is in milliseconds and is passed in. */
module Downloads {
  import opened Wrappers
  import opened Integers
  import opened ByteRanges

  const LEASE_TIMEOUT_MS: nat := 15_000
  const MAX_RESERVE_BLOCKS_PER_CALL: nat := 128
  const MAX_LEASES_PER_PEER: nat := 32
  const MAX_LEASES_PER_DOWNLOAD: nat := 256

  datatype PartState = Queued | Downloading | Paused | Completing | Completed | Cancelled | Error

  datatype DownloadError =
    | NotFound
    | InvalidInput
    | InvalidTransition(from: PartState, to: PartState)
    | StoreFailed

  datatype Lease = Lease(range: ByteRange, peer: string, deadline: nat)

  /** The persisted metadata; the two time stamps are left out. */
  datatype PartMet = PartMet(
    fileName: string,
    fileHash: string,
    fileSize: nat,
    state: PartState,
    downloadedBytes: nat,
    missing: seq<ByteRange>,
    inflight: seq<ByteRange>,
    retryCount: nat,
    lastError: Option<string>)

  datatype Download = Download(met: PartMet, leases: seq<Lease>, cooldownUntil: Option<nat>)

  /** `retry_backoff_delay`. */
  function RetryBackoffMs(retryCount: nat): (delay: nat)
    ensures 200 <= delay <= 5000
  {
    var shift := if retryCount == 0 then 0 else if retryCount - 1 < 6 then retryCount - 1 else 6;
    var factor := [1, 2, 4, 8, 16, 32, 64][shift];
    Min(200 * factor, 5000)
  }

  /** The delay starts at 200 ms and doubles with every failure, up to 5 s. */
  lemma BackoffDoubles(n: nat)
    requires n >= 1
    ensures RetryBackoffMs(1) == 200 && RetryBackoffMs(n + 1) == Min(2 * RetryBackoffMs(n), 5000)
  {
    var factors := [1, 2, 4, 8, 16, 32, 64];
    if n < 7 {
      assert factors[n] == 2 * factors[n - 1];
    }
  }

  function Created(fileName: string, fileHash: string, fileSize: nat): Download
    requires fileSize > 0
  {
    Download(
      PartMet(fileName, fileHash, fileSize, Queued, 0, [ByteRange(0, fileSize - 1)], [], 0, None),
      [], None)
  }

  /** What a restart makes of the persisted metadata. */
  function Recovered(met: PartMet): Download {
    var fixed :=
      if met.inflight == [] then met
      else met.(missing := Merged(met.missing + met.inflight),
                inflight := [],
                state := if met.state == Downloading then Queued else met.state);
    Download(fixed, [], None)
  }

  function WithState(d: Download, next: PartState, allowed: set<PartState>): Result<Download, DownloadError> {
    if d.met.state in allowed then Success(d.(met := d.met.(state := next)))
    else Failure(InvalidTransition(d.met.state, next))
  }

  function PeerLeases(leases: seq<Lease>, peer: string): nat {
    if leases == [] then 0
    else PeerLeases(leases[..|leases| - 1], peer) + (if leases[|leases| - 1].peer == peer then 1 else 0)
  }

  function FirstBlock(met: PartMet, blockSize: nat): ByteRange
    requires met.missing != [] && blockSize > 0
  {
    var first := met.missing[0];
    ByteRange(first.start, first.start + Min(Length(first), blockSize) - 1)
  }

  /** Leases the first block of the missing bytes to the peer. */
  function GrantOne(d: Download, peer: string, blockSize: nat, deadline: nat): Download
    requires d.met.missing != [] && blockSize > 0
  {
    var block := FirstBlock(d.met, blockSize);
    Download(
      d.met.(missing := Subtracted(d.met.missing, block.start, block.end),
             inflight := d.met.inflight + [block]),
      d.leases + [Lease(block, peer, deadline)],
      d.cooldownUntil)
  }

  function Grant(d: Download, peer: string, blockSize: nat, deadline: nat, budget: nat): (Download, seq<ByteRange>)
    requires blockSize > 0
    decreases budget
  {
    if budget == 0 || d.met.missing == [] then (d, [])
    else
      var (rest, blocks) := Grant(GrantOne(d, peer, blockSize, deadline), peer, blockSize, deadline, budget - 1);
      (rest, [FirstBlock(d.met, blockSize)] + blocks)
  }

  function ReserveBudget(d: Download, peer: string, maxBlocks: nat): (budget: nat)
    requires PeerLeases(d.leases, peer) <= MAX_LEASES_PER_PEER && |d.leases| <= MAX_LEASES_PER_DOWNLOAD
    ensures budget <= maxBlocks
    ensures PeerLeases(d.leases, peer) + budget <= MAX_LEASES_PER_PEER && |d.leases| + budget <= MAX_LEASES_PER_DOWNLOAD
  {
    Min(Min(maxBlocks, MAX_LEASES_PER_PEER - PeerLeases(d.leases, peer)), MAX_LEASES_PER_DOWNLOAD - |d.leases|)
  }

  /** `reserve_blocks` on a known download: the new download, and the blocks or the error. */
  function Reserve(d: Download, peer: string, maxBlocks: nat, blockSize: nat, now: nat)
    : (Download, Result<seq<ByteRange>, DownloadError>)
  {
    if maxBlocks == 0 then (d, Success([]))
    else if maxBlocks > MAX_RESERVE_BLOCKS_PER_CALL || blockSize == 0 then (d, Failure(InvalidInput))
    else if d.cooldownUntil.Some? && now < d.cooldownUntil.value then (d, Success([]))
    else
      var ready := d.(cooldownUntil := None);
      if d.met.state != Queued && d.met.state != Downloading then
        (ready, Failure(InvalidTransition(d.met.state, Downloading)))
      else if PeerLeases(d.leases, peer) >= MAX_LEASES_PER_PEER || |d.leases| >= MAX_LEASES_PER_DOWNLOAD then
        (ready, Success([]))
      else
        var (granted, blocks) := Grant(ready, peer, blockSize, now + LEASE_TIMEOUT_MS, ReserveBudget(d, peer, maxBlocks));
        (if blocks == [] then granted
         else granted.(met := granted.met.(state := Downloading, lastError := None)),
         Success(blocks))
  }

  function RemoveAt<T>(s: seq<T>, k: nat): seq<T>
    requires k < |s|
  {
    s[..k] + s[k + 1..]
  }

  /** Position of the first lease of this block by this peer. */
  function FindLease(leases: seq<Lease>, peer: string, block: ByteRange): (k: Option<nat>)
    ensures k.Some? ==> k.value < |leases| && leases[k.value].peer == peer && leases[k.value].range == block
    ensures k.None? ==> forall i :: 0 <= i < |leases| ==> !(leases[i].peer == peer && leases[i].range == block)
  {
    if leases == [] then None
    else if leases[0].peer == peer && leases[0].range == block then Some(0)
    else
      match FindLease(leases[1..], peer, block)
      case Some(k) => Some(k + 1)
      case None => assert forall i :: 1 <= i < |leases| ==> leases[i] == leases[1..][i - 1]; None
  }

  /** `remove_inflight`: drops the first entry equal to the block, if any. */
  function RemoveInflight(inflight: seq<ByteRange>, block: ByteRange): seq<ByteRange> {
    if inflight == [] then []
    else if inflight[0] == block then inflight[1..]
    else [inflight[0]] + RemoveInflight(inflight[1..], block)
  }

  /** `file_size.saturating_sub(total_missing(missing))`. */
  function SizeLessMissing(fileSize: nat, missing: seq<ByteRange>): nat {
    if TotalMissing(missing) <= fileSize then fileSize - TotalMissing(missing) else 0
  }

  /** `mark_block_received`. */
  function Receive(d: Download, peer: string, block: ByteRange): Result<Download, DownloadError> {
    match FindLease(d.leases, peer, block)
    case None => Failure(InvalidInput)
    case Some(k) =>
      var inflight := RemoveInflight(d.met.inflight, block);
      var state :=
        if d.met.missing == [] && inflight == [] then Completing
        else if d.met.state == Queued then Downloading
        else d.met.state;
      Success(d.(
        met := d.met.(inflight := inflight, downloadedBytes := SizeLessMissing(d.met.fileSize, d.met.missing), state := state, lastError := None),
        leases := RemoveAt(d.leases, k)))
  }

  /** `mark_block_failed`. */
  function Fail(d: Download, peer: string, block: ByteRange, reason: string, now: nat): Result<Download, DownloadError> {
    match FindLease(d.leases, peer, block)
    case None => Failure(InvalidInput)
    case Some(k) =>
      var met := d.met.(
        inflight := RemoveInflight(d.met.inflight, block),
        missing := Merged(d.met.missing + [block]),
        retryCount := SaturatingIncU32(d.met.retryCount),
        lastError := Some(reason),
        state := if d.met.state == Paused then Paused else Queued);
      Success(Download(
        met.(downloadedBytes := SizeLessMissing(met.fileSize, met.missing)),
        RemoveAt(d.leases, k),
        Some(now + RetryBackoffMs(met.retryCount))))
  }

  /** Which leases a disconnect or a timer tick takes back. */
  datatype Doom = OfPeer(peer: string) | ExpiredAt(now: nat)

  predicate Doomed(lease: Lease, doom: Doom) {
    match doom
    case OfPeer(peer) => lease.peer == peer
    case ExpiredAt(now) => lease.deadline <= now
  }

  /** Takes back the doomed leases from index i on, one at a time. */
  function ReclaimFrom(met: PartMet, leases: seq<Lease>, doom: Doom, i: nat): (r: (PartMet, seq<Lease>, nat))
    requires i <= |leases|
    ensures |r.1| + r.2 == |leases|
    decreases |leases| - i
  {
    if i == |leases| then (met, leases, 0)
    else if Doomed(leases[i], doom) then
      var range := leases[i].range;
      var (m, l, n) := ReclaimFrom(
        met.(inflight := RemoveInflight(met.inflight, range), missing := met.missing + [range]),
        RemoveAt(leases, i), doom, i);
      (m, l, n + 1)
    else ReclaimFrom(met, leases, doom, i + 1)
  }

  /** `peer_disconnected` and `process_timeouts` on one download. */
  function Reclaim(d: Download, doom: Doom, error: string, now: nat): (Download, nat) {
    var (met, leases, n) := ReclaimFrom(d.met, d.leases, doom, 0);
    if n == 0 then (d, 0)
    else
      var merged := met.(
        missing := Merged(met.missing),
        retryCount := SaturatingIncU32(met.retryCount),
        lastError := Some(error),
        state := if met.state == Downloading then Queued else met.state);
      (Download(
         merged.(downloadedBytes := SizeLessMissing(merged.fileSize, merged.missing)),
         leases,
         Some(now + RetryBackoffMs(merged.retryCount))),
       n)
  }
}
