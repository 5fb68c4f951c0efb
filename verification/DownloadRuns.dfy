/** Whole runs of one download under any sequence of commands, ticks and restarts. */
module DownloadRuns {
  import opened Wrappers
  import opened ByteRanges
  import opened Downloads
  import opened DownloadInvariant
  import opened Reservation

  datatype Event =
    | Pause
    | Resume
    | Cancel
    | ReserveBlocks(peer: string, maxBlocks: nat, blockSize: nat, now: nat)
    | BlockReceived(peer: string, block: ByteRange)
    | BlockFailed(peer: string, block: ByteRange, reason: string, now: nat)
    | PeerGone(peer: string, now: nat)
    | Tick(now: nat)
    | Restart

  const PAUSABLE: set<PartState> := {Queued, Downloading}
  const CANCELLABLE: set<PartState> := {Queued, Paused, Downloading}

  function OrKeep(r: Result<Download, DownloadError>, d: Download): Download {
    match r
    case Success(after) => after
    case Failure(_) => d
  }

  /** A command that fails leaves the download as it was. */
  function Apply(d: Download, e: Event): Download {
    match e
    case Pause => OrKeep(WithState(d, Paused, PAUSABLE), d)
    case Resume => OrKeep(WithState(d, Queued, {Paused}), d)
    case Cancel => OrKeep(WithState(d, Cancelled, CANCELLABLE), d)
    case ReserveBlocks(peer, maxBlocks, blockSize, now) => Reserve(d, peer, maxBlocks, blockSize, now).0
    case BlockReceived(peer, block) => OrKeep(Receive(d, peer, block), d)
    case BlockFailed(peer, block, reason, now) => OrKeep(Fail(d, peer, block, reason, now), d)
    case PeerGone(peer, now) => Reclaim(d, OfPeer(peer), "peer disconnected: " + peer, now).0
    case Tick(now) => Reclaim(d, ExpiredAt(now), "block timeout", now).0
    case Restart => Recovered(d.met)
  }

  function Run(d: Download, events: seq<Event>): Download {
    if events == [] then d else Apply(Run(d, events[..|events| - 1]), events[|events| - 1])
  }

  /** The bytes an event adds to the received ones: those of a block received under a lease. */
  ghost function Gained(d: Download, e: Event): set<nat> {
    if e.BlockReceived? && FindLease(d.leases, e.peer, e.block).Some? then Span(e.block) else {}
  }

  lemma StepKeeps(d: Download, e: Event)
    requires Inv(d)
    ensures Inv(Apply(d, e))
    ensures ReceivedBytes(Apply(d, e).met) == ReceivedBytes(d.met) + Gained(d, e)
    ensures Apply(d, e).met.fileSize == d.met.fileSize
  {
    hide Inv, ReceivedBytes, Span, Reserve, Reclaim, Receive, Fail, Recovered, WithState;
    match e {
      case Pause => StateStep(d, Paused, PAUSABLE);
      case Resume => StateStep(d, Queued, {Paused});
      case Cancel => StateStep(d, Cancelled, CANCELLABLE);
      case ReserveBlocks(peer, maxBlocks, blockSize, now) => ReserveStep(d, peer, maxBlocks, blockSize, now);
      case BlockReceived(peer, block) => ReceiveStep(d, peer, block);
      case BlockFailed(peer, block, reason, now) => FailStep(d, peer, block, reason, now);
      case PeerGone(peer, now) => ReclaimStep(d, OfPeer(peer), "peer disconnected: " + peer, now);
      case Tick(now) => ReclaimStep(d, ExpiredAt(now), "block timeout", now);
      case Restart => RestartStep(d);
    }
  }

  lemma StateStep(d: Download, next: PartState, allowed: set<PartState>)
    requires Inv(d) && next != Completing
    ensures Inv(OrKeep(WithState(d, next, allowed), d))
    ensures ReceivedBytes(OrKeep(WithState(d, next, allowed), d).met) == ReceivedBytes(d.met)
    ensures OrKeep(WithState(d, next, allowed), d).met.fileSize == d.met.fileSize
  {
    hide Inv, ReceivedBytes;
    if WithState(d, next, allowed).Success? {
      WithStateKeeps(d, next, allowed);
    }
  }

  lemma ReserveStep(d: Download, peer: string, maxBlocks: nat, blockSize: nat, now: nat)
    requires Inv(d)
    ensures
        var after := Reserve(d, peer, maxBlocks, blockSize, now).0;
        Inv(after) && ReceivedBytes(after.met) == ReceivedBytes(d.met) && after.met.fileSize == d.met.fileSize
  {
    hide Inv, ReceivedBytes, Grant;
    ReserveKeeps(d, peer, maxBlocks, blockSize, now);
    if blockSize > 0 && PeerLeases(d.leases, peer) < MAX_LEASES_PER_PEER && |d.leases| < MAX_LEASES_PER_DOWNLOAD {
      GrantKeepsSize(d.(cooldownUntil := None), peer, blockSize, now + LEASE_TIMEOUT_MS, ReserveBudget(d, peer, maxBlocks));
    }
  }

  lemma {:induction false} GrantKeepsSize(d: Download, peer: string, blockSize: nat, deadline: nat, budget: nat)
    requires blockSize > 0
    ensures Grant(d, peer, blockSize, deadline, budget).0.met.fileSize == d.met.fileSize
    ensures Grant(d, peer, blockSize, deadline, budget).0.met.downloadedBytes == d.met.downloadedBytes
    decreases budget
  {
    if budget > 0 && d.met.missing != [] {
      GrantKeepsSize(GrantOne(d, peer, blockSize, deadline), peer, blockSize, deadline, budget - 1);
    }
  }

  lemma ReceiveStep(d: Download, peer: string, block: ByteRange)
    requires Inv(d)
    ensures
        var after := OrKeep(Receive(d, peer, block), d);
        && Inv(after) && after.met.fileSize == d.met.fileSize
        && ReceivedBytes(after.met) == ReceivedBytes(d.met) + Gained(d, BlockReceived(peer, block))
  {
    hide Inv, ReceivedBytes, Span;
    if Receive(d, peer, block).Success? {
      ReceiveKeeps(d, peer, block);
    }
  }

  lemma FailStep(d: Download, peer: string, block: ByteRange, reason: string, now: nat)
    requires Inv(d)
    ensures
        var after := OrKeep(Fail(d, peer, block, reason, now), d);
        Inv(after) && ReceivedBytes(after.met) == ReceivedBytes(d.met) && after.met.fileSize == d.met.fileSize
  {
    hide Inv, ReceivedBytes;
    if Fail(d, peer, block, reason, now).Success? {
      FailKeeps(d, peer, block, reason, now);
    }
  }

  lemma ReclaimStep(d: Download, doom: Doom, error: string, now: nat)
    requires Inv(d)
    ensures
        var after := Reclaim(d, doom, error, now).0;
        Inv(after) && ReceivedBytes(after.met) == ReceivedBytes(d.met) && after.met.fileSize == d.met.fileSize
  {
    hide Inv, ReceivedBytes, ReclaimFrom;
    ReclaimKeeps(d, doom, error, now);
    ReclaimFromFilters(d.met, d.leases, doom, 0);
  }

  lemma RestartStep(d: Download)
    requires Inv(d)
    ensures
        var after := Recovered(d.met);
        Inv(after) && ReceivedBytes(after.met) == ReceivedBytes(d.met) && after.met.fileSize == d.met.fileSize
  {
    RecoveredKeeps(d);
  }

  lemma {:induction false} RunKeeps(d: Download, events: seq<Event>)
    requires Inv(d)
    ensures Inv(Run(d, events)) && Run(d, events).met.fileSize == d.met.fileSize
  {
    hide Inv, Apply;
    if events != [] {
      RunKeeps(d, events[..|events| - 1]);
      StepKeeps(Run(d, events[..|events| - 1]), events[|events| - 1]);
    }
  }

  /** Received bytes never shrink: whatever happens later only adds to them. */
  lemma {:induction false} ReceivedNeverShrinks(d: Download, events: seq<Event>, k: nat)
    requires Inv(d) && k <= |events|
    ensures ReceivedBytes(Run(d, events[..k]).met) <= ReceivedBytes(Run(d, events).met)
    decreases |events|
  {
    hide Inv, Apply, ReceivedBytes;
    if k == |events| {
      assert events[..k] == events;
    } else {
      var front := events[..|events| - 1];
      assert front[..k] == events[..k];
      ReceivedNeverShrinks(d, front, k);
      RunKeeps(d, front);
      StepKeeps(Run(d, front), events[|events| - 1]);
    }
  }

  /** In every run of a created download: the bytes partition the file, in-flight ranges and
      leases match one to one, the caps hold, and a download that is Completing has every
      byte, so that finalization never meets a completion size mismatch. */
  lemma EveryRun(fileName: string, fileHash: string, fileSize: nat, events: seq<Event>)
    requires fileSize > 0
    ensures
        var d := Run(Created(fileName, fileHash, fileSize), events);
        && Bytes(d.met.missing) + Bytes(d.met.inflight) + ReceivedBytes(d.met) == FileBytes(fileSize)
        && Bytes(d.met.missing) !! Bytes(d.met.inflight) !! ReceivedBytes(d.met)
        && OneLeasePerRange(d.met.inflight, d.leases) && PairwiseDisjoint(d.met.inflight)
        && WithinCaps(d.leases)
        && |ReceivedBytes(d.met)| <= d.met.downloadedBytes <= fileSize
        && (d.met.state == Completing ==>
              ReceivedBytes(d.met) == FileBytes(fileSize) && d.met.downloadedBytes == fileSize)
  {
    var start := Created(fileName, fileHash, fileSize);
    CreatedInv(fileName, fileHash, fileSize);
    RunKeeps(start, events);
    var d := Run(start, events);
    BytesOfNone();
    hide Bytes, Span, FileBytes, Fit, Canonical, PairwiseDisjoint, OneLeasePerRange, WithinCaps, Run, Apply;
    Partition(d);
  }

  /** The events that recompute `downloaded_bytes`: a leased block arrives or fails, or a lease
      is taken back. */
  predicate Recomputes(d: Download, e: Event) {
    match e
    case BlockReceived(peer, block) => FindLease(d.leases, peer, block).Some?
    case BlockFailed(peer, block, _, _) => FindLease(d.leases, peer, block).Some?
    case PeerGone(peer, _) => exists i :: 0 <= i < |d.leases| && Doomed(d.leases[i], OfPeer(peer))
    case Tick(now) => exists i :: 0 <= i < |d.leases| && Doomed(d.leases[i], ExpiredAt(now))
    case _ => false
  }

  /** The blocks in flight when `downloaded_bytes` was last recomputed. */
  ghost function InflightThen(d: Download, events: seq<Event>): seq<ByteRange> {
    if events == [] then []
    else
      var before := Run(d, events[..|events| - 1]);
      if Recomputes(before, events[|events| - 1]) then Run(d, events).met.inflight
      else InflightThen(d, events[..|events| - 1])
  }

  lemma {:induction false} ReclaimsSomething(met: PartMet, leases: seq<Lease>, doom: Doom, i: nat)
    requires i <= |leases|
    ensures ReclaimFrom(met, leases, doom, i).2 > 0 <==> exists k :: i <= k < |leases| && Doomed(leases[k], doom)
    decreases |leases| - i
  {
    if i < |leases| && !Doomed(leases[i], doom) {
      ReclaimsSomething(met, leases, doom, i + 1);
    }
  }

  lemma StepRecomputes(d: Download, e: Event)
    requires Inv(d)
    ensures
        var after := Apply(d, e).met;
        if Recomputes(d, e) then after.downloadedBytes == |ReceivedBytes(after)| + |Bytes(after.inflight)|
        else after.downloadedBytes == d.met.downloadedBytes && Gained(d, e) == {}
  {
    hide Inv, ReceivedBytes, Span, Bytes, ReclaimFrom, Grant, FindLease;
    match e {
      case ReserveBlocks(peer, maxBlocks, blockSize, now) => ReserveKeepsCount(d, peer, maxBlocks, blockSize, now);
      case BlockReceived(peer, block) =>
        if Recomputes(d, e) {
          ReceiveKeeps(d, peer, block);
        }
      case BlockFailed(peer, block, reason, now) =>
        if Recomputes(d, e) {
          FailKeeps(d, peer, block, reason, now);
        }
      case PeerGone(peer, now) =>
        ReclaimsSomething(d.met, d.leases, OfPeer(peer), 0);
        ReclaimKeeps(d, OfPeer(peer), "peer disconnected: " + peer, now);
      case Tick(now) =>
        ReclaimsSomething(d.met, d.leases, ExpiredAt(now), 0);
        ReclaimKeeps(d, ExpiredAt(now), "block timeout", now);
      case _ =>
    }
  }

  lemma ReserveKeepsCount(d: Download, peer: string, maxBlocks: nat, blockSize: nat, now: nat)
    requires Inv(d)
    ensures Reserve(d, peer, maxBlocks, blockSize, now).0.met.downloadedBytes == d.met.downloadedBytes
  {
    hide Inv, Grant;
    if blockSize > 0 && PeerLeases(d.leases, peer) < MAX_LEASES_PER_PEER && |d.leases| < MAX_LEASES_PER_DOWNLOAD {
      GrantKeepsSize(d.(cooldownUntil := None), peer, blockSize, now + LEASE_TIMEOUT_MS, ReserveBudget(d, peer, maxBlocks));
    }
  }

  /** In every run, `downloaded_bytes` is the received bytes plus those that were in flight when
      it was last recomputed. */
  lemma {:induction false} CountInRuns(fileName: string, fileHash: string, fileSize: nat, events: seq<Event>)
    requires fileSize > 0
    ensures
        var start := Created(fileName, fileHash, fileSize);
        var met := Run(start, events).met;
        && met.downloadedBytes == |ReceivedBytes(met)| + |Bytes(InflightThen(start, events))|
        && (|Bytes(InflightThen(start, events))| == 0 <==> InflightThen(start, events) == [])
  {
    hide Bytes, ReceivedBytes, Apply, Recomputes, Inv;
    var start := Created(fileName, fileHash, fileSize);
    CreatedInv(fileName, fileHash, fileSize);
    BytesOfNone();
    if events != [] {
      var front, e := events[..|events| - 1], events[|events| - 1];
      CountInRuns(fileName, fileHash, fileSize, front);
      RunKeeps(start, front);
      StepKeeps(Run(start, front), e);
      StepRecomputes(Run(start, front), e);
      RunKeeps(start, events);
      InvMeansSomething(Run(start, events));
    } else {
      assert Run(start, events) == start;
    }
  }

  lemma InvMeansSomething(d: Download)
    requires Inv(d)
    ensures |Bytes(d.met.inflight)| == 0 <==> d.met.inflight == []
  {
    InflightIsSomething(d.met, d.leases);
  }

  /** `downloaded_bytes` says how many bytes are received exactly when no block was in flight at
      its last recomputation: over every run, restarts included. */
  lemma DownloadedIsReceivedExactlyWhen(fileName: string, fileHash: string, fileSize: nat, events: seq<Event>)
    requires fileSize > 0
    ensures
        var start := Created(fileName, fileHash, fileSize);
        var met := Run(start, events).met;
        met.downloadedBytes == |ReceivedBytes(met)| <==> InflightThen(start, events) == []
  {
    hide Bytes, ReceivedBytes, Run, InflightThen, Created;
    CountInRuns(fileName, fileHash, fileSize, events);
  }

  /** Cancelled is not terminal: it is left exactly when a block still leased fails, or when
      the last outstanding block arrives. */
  lemma CancelledIsLeftExactlyWhen(d: Download, e: Event)
    requires Inv(d) && d.met.state == Cancelled
    ensures Apply(d, e).met.state != Cancelled <==>
        && (e.BlockFailed? || e.BlockReceived?)
        && FindLease(d.leases, e.peer, e.block).Some?
        && (e.BlockReceived? ==> d.met.missing == [] && |d.leases| == 1)
  {
    hide Bytes, Canonical, Fit, WithinCaps, Grant, PeerLeases, ReclaimFrom;
    match e {
      case PeerGone(peer, now) => ReclaimFromFilters(d.met, d.leases, OfPeer(peer), 0);
      case Tick(now) => ReclaimFromFilters(d.met, d.leases, ExpiredAt(now), 0);
      case BlockReceived(peer, block) =>
        if FindLease(d.leases, peer, block).Some? {
          RemoveInflightIsRemoveAt(d.met.inflight, FindLease(d.leases, peer, block).value, d.met.fileSize);
        }
      case _ =>
    }
  }

  /** A cancelled download that becomes complete: one byte, leased, cancelled, received. */
  lemma CancelledCanComplete()
    ensures
        var d := Created("f", "h", 1);
        var events := [ReserveBlocks("p", 1, 1, 0), Cancel, BlockReceived("p", ByteRange(0, 0))];
        && Run(d, events[..2]).met.state == Cancelled
        && Run(d, events).met.state == Completing
  {
    hide Apply;
    var d := Created("f", "h", 1);
    var e1, e2, e3 := ReserveBlocks("p", 1, 1, 0), Cancel, BlockReceived("p", ByteRange(0, 0));
    OneByteLeased();
    OneByteReceived();
    var events := [e1, e2, e3];
    assert events[..2] == [e1, e2] && [e1, e2][..1] == [e1] && [e1][..0] == [];
    assert Run(d, [e1]) == Apply(d, e1);
    assert Run(d, [e1, e2]) == Apply(Apply(d, e1), e2);
  }

  lemma OneByteLeased()
    ensures
        var d := Apply(Created("f", "h", 1), ReserveBlocks("p", 1, 1, 0));
        && d.met.state == Downloading && d.met.missing == [] && d.met.inflight == [ByteRange(0, 0)]
        && d.leases == [Lease(ByteRange(0, 0), "p", LEASE_TIMEOUT_MS)]
  {
    var d := Created("f", "h", 1);
    assert FirstBlock(d.met, 1) == ByteRange(0, 0);
    assert Subtracted(d.met.missing, 0, 0) == [] by { assert d.met.missing[1..] == []; }
    var granted := GrantOne(d, "p", 1, LEASE_TIMEOUT_MS);
    assert Grant(granted, "p", 1, LEASE_TIMEOUT_MS, 0) == (granted, []);
  }

  lemma OneByteReceived()
    ensures
        var d := Apply(Apply(Created("f", "h", 1), ReserveBlocks("p", 1, 1, 0)), Cancel);
        && d.met.state == Cancelled
        && Apply(d, BlockReceived("p", ByteRange(0, 0))).met.state == Completing
  {
    hide Reserve;
    OneByteLeased();
    assert FindLease([Lease(ByteRange(0, 0), "p", LEASE_TIMEOUT_MS)], "p", ByteRange(0, 0)) == Some(0);
  }

  /** A restart that leaves `downloaded_bytes` too high: of two leased bytes one arrives, and
      the restart gives the other one back. */
  lemma RestartOverstates()
    ensures
        var reserve := ReserveBlocks("p", 1, 1, 0);
        var met := Run(Created("f", "h", 2), [reserve, reserve, BlockReceived("p", ByteRange(0, 0)), Restart]).met;
        && met.missing == [ByteRange(1, 1)] && met.inflight == []
        && met.downloadedBytes == met.fileSize == 2
  {
    hide Apply;
    var d := Created("f", "h", 2);
    var e, f, g := ReserveBlocks("p", 1, 1, 0), BlockReceived("p", ByteRange(0, 0)), Restart;
    var events := [e, e, f, g];
    assert events[..3] == [e, e, f] && [e, e, f][..2] == [e, e] && [e, e][..1] == [e] && [e][..0] == [];
    assert Run(d, [e]) == Apply(d, e);
    assert Run(d, [e, e]) == Apply(Apply(d, e), e);
    assert Run(d, [e, e, f]) == Apply(Apply(Apply(d, e), e), f);
    FirstOfTwoLeased();
    SecondOfTwoLeased();
    OneOfTwoReceived();
  }

  function LeaseOf(b: nat): Lease {
    Lease(ByteRange(b, b), "p", LEASE_TIMEOUT_MS)
  }

  ghost predicate TwoBytes(d: Download, missing: seq<ByteRange>, leases: seq<Lease>) {
    && d.met.fileSize == 2 && d.met.missing == missing && d.leases == leases && d.cooldownUntil == None
    && OneLeasePerRange(d.met.inflight, leases)
    && d.met.state in {Queued, Downloading}
  }

  lemma FirstOfTwoLeased()
    ensures TwoBytes(Apply(Created("f", "h", 2), ReserveBlocks("p", 1, 1, 0)), [ByteRange(1, 1)], [LeaseOf(0)])
  {
    var d := Created("f", "h", 2);
    assert FirstBlock(d.met, 1) == ByteRange(0, 0);
    assert d.met.missing[1..] == [];
    assert Subtracted(d.met.missing, 0, 0) == Cut(ByteRange(0, 1), 0, 0) + Subtracted([], 0, 0) == [ByteRange(1, 1)];
    var granted := GrantOne(d, "p", 1, LEASE_TIMEOUT_MS);
    assert Grant(granted, "p", 1, LEASE_TIMEOUT_MS, 0) == (granted, []);
  }

  lemma SecondOfTwoLeased()
    ensures TwoBytes(Apply(Apply(Created("f", "h", 2), ReserveBlocks("p", 1, 1, 0)), ReserveBlocks("p", 1, 1, 0)),
                     [], [LeaseOf(0), LeaseOf(1)])
  {
    var d := Apply(Created("f", "h", 2), ReserveBlocks("p", 1, 1, 0));
    FirstOfTwoLeased();
    assert PeerLeases(d.leases, "p") == 1 by { assert d.leases[..0] == [] && PeerLeases([], "p") == 0; }
    assert FirstBlock(d.met, 1) == ByteRange(1, 1);
    assert Subtracted(d.met.missing, 1, 1) == [] by { assert d.met.missing[1..] == []; }
    var granted := GrantOne(d, "p", 1, LEASE_TIMEOUT_MS);
    assert Grant(granted, "p", 1, LEASE_TIMEOUT_MS, 0) == (granted, []);
    assert d.leases + [LeaseOf(1)] == [LeaseOf(0), LeaseOf(1)];
  }

  lemma OneOfTwoReceived()
    ensures
        var e := ReserveBlocks("p", 1, 1, 0);
        var after := Apply(Apply(Apply(Apply(Created("f", "h", 2), e), e), BlockReceived("p", ByteRange(0, 0))), Restart);
        && after.met.missing == [ByteRange(1, 1)] && after.met.inflight == []
        && after.met.downloadedBytes == after.met.fileSize == 2
  {
    hide Reserve;
    SecondOfTwoLeased();
    var d := Apply(Apply(Created("f", "h", 2), ReserveBlocks("p", 1, 1, 0)), ReserveBlocks("p", 1, 1, 0));
    assert FindLease(d.leases, "p", ByteRange(0, 0)) == Some(0);
    assert d.met.inflight == [ByteRange(0, 0), ByteRange(1, 1)];
    assert RemoveInflight(d.met.inflight, ByteRange(0, 0)) == [ByteRange(1, 1)];
    assert TotalMissing([]) == 0;
    var all := [] + [ByteRange(1, 1)];
    assert all[..0] == [] && Merged([]) == [];
    assert Merged(all) == Insert([], ByteRange(1, 1)) == [ByteRange(1, 1)];
  }
}
