/** What a run of commands does to the state, the retries and the cooldown of a download, said
    in leases, times and numbers. */
module DownloadLaws {
  import opened Wrappers
  import opened ByteRanges
  import opened Downloads
  import opened DownloadInvariant
  import opened Reservation
  import opened DownloadRuns
  import opened LeaseTimes

  /** A leased block fails, its peer goes, or its time is over. */
  ghost predicate Setback(d: Download, e: Event) {
    || (e.BlockFailed? && Leased(d.leases, e.peer, e.block))
    || (e.PeerGone? && exists l :: l in d.leases && l.peer == e.peer)
    || (e.Tick? && exists l :: l in d.leases && l.deadline <= e.now)
  }

  /** A reservation that is answered with a block. */
  ghost predicate Granted(d: Download, e: Event) {
    && e.ReserveBlocks?
    && var r := Reserve(d, e.peer, e.maxBlocks, e.blockSize, e.now).1;
       r.Success? && r.value != []
  }

  /** A leased block arrives. */
  ghost predicate Arrives(d: Download, e: Event) {
    e.BlockReceived? && Leased(d.leases, e.peer, e.block)
  }

  /** What a reservation does besides the ranges and the leases. */
  lemma ReserveFields(d: Download, e: Event)
    requires Inv(d) && e.ReserveBlocks?
    ensures
        var after := Apply(d, e);
        && (if Granted(d, e) then
              && (d.met.state == Queued || d.met.state == Downloading)
              && after.met.state == Downloading && after.met.lastError == None
            else after.met == d.met && after.leases == d.leases)
        && after.met.retryCount == d.met.retryCount
        && (after.cooldownUntil == None || after.cooldownUntil == d.cooldownUntil)
        && (after.cooldownUntil == None && d.cooldownUntil.Some? ==> d.cooldownUntil.value <= e.now)
        && (Granted(d, e) && d.cooldownUntil.Some? ==> d.cooldownUntil.value <= e.now)
  {
    hide Inv, Grant, PeerLeases, ReserveBudget;
    ApplyReserve(d, e);
    ReserveKeeps(d, e.peer, e.maxBlocks, e.blockSize, e.now);
    if e.blockSize > 0 && PeerLeases(d.leases, e.peer) < MAX_LEASES_PER_PEER && |d.leases| < MAX_LEASES_PER_DOWNLOAD {
      var ready := d.(cooldownUntil := None);
      var deadline, budget := e.now + LEASE_TIMEOUT_MS, ReserveBudget(d, e.peer, e.maxBlocks);
      GrantFields(ready, e.peer, e.blockSize, deadline, budget);
    }
  }

  lemma {:induction false} GrantFields(d: Download, peer: string, blockSize: nat, deadline: nat, budget: nat)
    requires blockSize > 0
    ensures
        var after := Grant(d, peer, blockSize, deadline, budget).0;
        && after.met.state == d.met.state && after.met.retryCount == d.met.retryCount && after.met.lastError == d.met.lastError
        && after.cooldownUntil == d.cooldownUntil
    decreases budget
  {
    hide FirstBlock, Subtracted;
    if budget > 0 && d.met.missing != [] {
      GrantFields(GrantOne(d, peer, blockSize, deadline), peer, blockSize, deadline, budget - 1);
    }
  }

  /** The position found is that of a lease of the block by the peer. */
  lemma FoundWhenLeased(leases: seq<Lease>, peer: string, block: ByteRange)
    ensures FindLease(leases, peer, block).Some? <==> Leased(leases, peer, block)
  {
    hide FindLease;
    var k := FindLease(leases, peer, block);
    if k.Some? {
      assert leases[k.value].peer == peer && leases[k.value].range == block;
    }
  }

  /** What an arriving block does besides the ranges and the leases. */
  lemma ReceiveFields(d: Download, e: Event)
    requires Inv(d) && e.BlockReceived?
    ensures
        var after := Apply(d, e);
        && (if Arrives(d, e) then
              && after.met.state == (if d.met.missing == [] && |d.leases| == 1 then Completing
                                     else if d.met.state == Queued then Downloading else d.met.state)
              && after.met.lastError == None && after.met.retryCount == d.met.retryCount && after.cooldownUntil == d.cooldownUntil
            else after == d)
  {
    FoundWhenLeased(d.leases, e.peer, e.block);
    hide Bytes, Canonical, WithinCaps, FindLease, RemoveInflight, SizeLessMissing, Leased;
    var k := FindLease(d.leases, e.peer, e.block);
    if k.Some? {
      RemoveInflightIsRemoveAt(d.met.inflight, k.value, d.met.fileSize);
    }
  }

  /** What a setback does besides the ranges and the leases, and that nothing happens without. */
  lemma SetbackFields(d: Download, e: Event)
    requires Inv(d) && (e.BlockFailed? || e.PeerGone? || e.Tick?)
    ensures
        var after := Apply(d, e);
        && (if Setback(d, e) then
              && after.met.state == (if e.BlockFailed? then (if d.met.state == Paused then Paused else Queued)
                                     else if d.met.state == Downloading then Queued else d.met.state)
              && after.met.retryCount == (if d.met.retryCount < 0xFFFF_FFFF then d.met.retryCount + 1 else d.met.retryCount)
              && after.met.lastError == Some(if e.BlockFailed? then e.reason
                                             else if e.PeerGone? then "peer disconnected: " + e.peer else "block timeout")
              && after.cooldownUntil == Some(e.now + RetryBackoffMs(after.met.retryCount))
            else after == d)
  {
    hide Inv, FindLease, RemoveInflight, SizeLessMissing, Leased, RetryBackoffMs, Merged, ReclaimFrom;
    match e {
      case BlockFailed(peer, block, reason, now) => FoundWhenLeased(d.leases, peer, block);
      case PeerGone(peer, now) => ReclaimFields(d, OfPeer(peer), "peer disconnected: " + peer, now);
      case Tick(now) => ReclaimFields(d, ExpiredAt(now), "block timeout", now);
    }
  }

  lemma ReclaimFields(d: Download, doom: Doom, error: string, now: nat)
    requires Inv(d)
    ensures
        var after := Reclaim(d, doom, error, now).0;
        if exists l :: l in d.leases && (if doom.OfPeer? then l.peer == doom.peer else l.deadline <= doom.now) then
          && after.met.state == (if d.met.state == Downloading then Queued else d.met.state)
          && after.met.retryCount == (if d.met.retryCount < 0xFFFF_FFFF then d.met.retryCount + 1 else d.met.retryCount)
          && after.met.lastError == Some(error) && after.cooldownUntil == Some(now + RetryBackoffMs(after.met.retryCount))
        else after == d
  {
    hide Inv, RetryBackoffMs, Merged, SizeLessMissing, ReclaimFrom;
    ReclaimFromFilters(d.met, d.leases, doom, 0);
    ReclaimsSomething(d.met, d.leases, doom, 0);
    assert (exists l :: l in d.leases && Doomed(l, doom)) <==> exists k :: 0 <= k < |d.leases| && Doomed(d.leases[k], doom);
  }

  /** When a download changes its state, and to which. */
  lemma StateMoves(d: Download, e: Event)
    requires Inv(d)
    ensures
        var was, next := d.met.state, Apply(d, e).met.state;
        && (e.Pause? ==> next == if was == Queued || was == Downloading then Paused else was)
        && (e.Resume? ==> next == if was == Paused then Queued else was)
        && (e.Cancel? ==> next == if was == Queued || was == Paused || was == Downloading then Cancelled else was)
        && (Granted(d, e) ==> (was == Queued || was == Downloading) && next == Downloading)
        && (Arrives(d, e) ==>
              next == if d.met.missing == [] && |d.leases| == 1 then Completing else if was == Queued then Downloading else was)
        && (Setback(d, e) && e.BlockFailed? ==> next == if was == Paused then Paused else Queued)
        && (Setback(d, e) && !e.BlockFailed? ==> next == if was == Downloading then Queued else was)
        && (e.Restart? ==> next == if was == Downloading && d.leases != [] then Queued else was)
        && (!e.Pause? && !e.Resume? && !e.Cancel? && !e.Restart? && !Granted(d, e) && !Arrives(d, e) && !Setback(d, e) ==> next == was)
  {
    FewStates(d, e);
    hide Inv, Apply, Granted, Arrives, Setback;
    NeedsEvent(d, e);
    if e.ReserveBlocks? {
      ReserveFields(d, e);
    } else if e.BlockReceived? {
      ReceiveFields(d, e);
    } else if e.BlockFailed? || e.PeerGone? || e.Tick? {
      SetbackFields(d, e);
    }
  }

  lemma NeedsEvent(d: Download, e: Event)
    ensures Granted(d, e) ==> e.ReserveBlocks?
    ensures Arrives(d, e) ==> e.BlockReceived?
    ensures Setback(d, e) ==> e.BlockFailed? || e.PeerGone? || e.Tick?
  {
  }

  /** The commands that only look at the state, and a restart. */
  lemma FewStates(d: Download, e: Event)
    requires Inv(d)
    ensures
        var was, after := d.met.state, Apply(d, e);
        && (e.Pause? ==> after == if was == Queued || was == Downloading then d.(met := d.met.(state := Paused)) else d)
        && (e.Resume? ==> after == if was == Paused then d.(met := d.met.(state := Queued)) else d)
        && (e.Cancel? ==> after == if was == Queued || was == Paused || was == Downloading then d.(met := d.met.(state := Cancelled)) else d)
        && (e.Restart? ==>
              && after.met.state == (if was == Downloading && d.leases != [] then Queued else was)
              && after.met.retryCount == d.met.retryCount && after.met.lastError == d.met.lastError && after.cooldownUntil == None)
  {
    hide Bytes, Canonical, Fit, WithinCaps, Merged, Reclaim, Receive, Fail, Reserve;
  }

  /** Exactly when a reservation is answered with blocks, and with how many. */
  lemma ReserveAnswer(d: Download, e: Event)
    requires Inv(d) && e.ReserveBlocks?
    ensures Granted(d, e) <==>
        && 1 <= e.maxBlocks <= 128 && e.blockSize > 0
        && (d.cooldownUntil.Some? ==> d.cooldownUntil.value <= e.now)
        && (d.met.state == Queued || d.met.state == Downloading)
        && PeerLeases(d.leases, e.peer) < 32 && |d.leases| < 256 && d.met.missing != []
    ensures
        var (after, r) := Reserve(d, e.peer, e.maxBlocks, e.blockSize, e.now);
        Granted(d, e) && after.met.missing != [] ==>
          || |r.value| == e.maxBlocks
          || PeerLeases(after.leases, e.peer) == 32
          || |after.leases| == 256
  {
    hide Inv, Grant, PeerLeases;
    if e.blockSize > 0 && PeerLeases(d.leases, e.peer) < MAX_LEASES_PER_PEER && |d.leases| < MAX_LEASES_PER_DOWNLOAD {
      var ready := d.(cooldownUntil := None);
      GrantCounts(ready, e.peer, e.blockSize, e.now + LEASE_TIMEOUT_MS, ReserveBudget(d, e.peer, e.maxBlocks), e.peer);
      NoneMissing(ready, e.peer, e.blockSize, e.now + LEASE_TIMEOUT_MS, ReserveBudget(d, e.peer, e.maxBlocks));
    }
  }

  lemma NoneMissing(d: Download, peer: string, blockSize: nat, deadline: nat, budget: nat)
    requires blockSize > 0
    ensures Grant(d, peer, blockSize, deadline, budget).1 == [] <==> budget == 0 || d.met.missing == []
  {
  }

  lemma CooldownStays(d: Download, e: Event)
    requires Inv(d) && d.cooldownUntil.Some? && !Setback(d, e) && !e.Restart? && (e.ReserveBlocks? ==> e.now < d.cooldownUntil.value)
    ensures Apply(d, e).cooldownUntil == d.cooldownUntil
  {
    FewStates(d, e);
    hide Inv, Apply, Granted, Arrives, Setback;
    if e.ReserveBlocks? {
      ReserveFields(d, e);
    } else if e.BlockReceived? {
      ReceiveFields(d, e);
    } else if e.BlockFailed? || e.PeerGone? || e.Tick? {
      SetbackFields(d, e);
    }
  }

  /** Nothing since event k ends the cooldown before this time. */
  ghost predicate Quiet(start: Download, events: seq<Event>, k: nat, until: nat) {
    forall i :: k < i < |events| ==>
      && !Setback(Run(start, events[..i]), events[i]) && !events[i].Restart?
      && (events[i].ReserveBlocks? ==> events[i].now < until)
  }

  /** The cooldown over a whole run: from a setback on, no reservation is answered with a block
      until the delay for the number of retries is over. */
  lemma {:induction false} NoBlocksWhileCooling(start: Download, events: seq<Event>, k: nat, e: Event)
    requires Inv(start) && k < |events| && Setback(Run(start, events[..k]), events[k])
    requires
        var until := events[k].now + RetryBackoffMs(Run(start, events[..k + 1]).met.retryCount);
        Quiet(start, events, k, until) && (e.ReserveBlocks? ==> e.now < until)
    ensures !Granted(Run(start, events), e)
    ensures Run(start, events).cooldownUntil == Some(events[k].now + RetryBackoffMs(Run(start, events[..k + 1]).met.retryCount))
    decreases |events|
  {
    hide Inv, Apply, Setback, Granted, RetryBackoffMs;
    NeedsEvent(Run(start, events[..k]), events[k]);
    var front, last := events[..|events| - 1], events[|events| - 1];
    var until := events[k].now + RetryBackoffMs(Run(start, events[..k + 1]).met.retryCount);
    RunKeeps(start, front);
    if k == |events| - 1 {
      assert events[..k] == front && events[..k + 1] == events;
      SetbackFields(Run(start, front), last);
    } else {
      assert front[..k] == events[..k] && front[..k + 1] == events[..k + 1];
      assert forall i :: k < i < |front| ==> front[..i] == events[..i];
      NoBlocksWhileCooling(start, front, k, last);
      CooldownStays(Run(start, front), last);
    }
    RunKeeps(start, events);
    NeedsEvent(Run(start, events), e);
    if e.ReserveBlocks? {
      ReserveFields(Run(start, events), e);
    }
  }

  /** The setbacks of a run. */
  ghost function SetbacksOf(start: Download, events: seq<Event>): nat {
    if events == [] then 0
    else
      var front := events[..|events| - 1];
      SetbacksOf(start, front) + if Setback(Run(start, front), events[|events| - 1]) then 1 else 0
  }

  /** What the last setback was, unless a block was granted or arrived since. */
  ghost function LastTrouble(start: Download, events: seq<Event>): Option<string> {
    if events == [] then None
    else
      var front, e := events[..|events| - 1], events[|events| - 1];
      var d := Run(start, front);
      if Setback(d, e) then
        Some(if e.BlockFailed? then e.reason else if e.PeerGone? then "peer disconnected: " + e.peer else "block timeout")
      else if Granted(d, e) || Arrives(d, e) then None
      else LastTrouble(start, front)
  }

  /** The retries are the setbacks of the whole run, restarts included, and the error is the
      last one that nothing made up for. */
  lemma {:induction false} RetriesAreSetbacks(fileName: string, fileHash: string, fileSize: nat, events: seq<Event>)
    requires fileSize > 0
    ensures
        var start := Created(fileName, fileHash, fileSize);
        var met := Run(start, events).met;
        && met.retryCount == (if SetbacksOf(start, events) < 0xFFFF_FFFF then SetbacksOf(start, events) else 0xFFFF_FFFF)
        && met.lastError == LastTrouble(start, events)
  {
    hide Inv, Apply, Setback, Granted, Arrives, RetryBackoffMs;
    var start := Created(fileName, fileHash, fileSize);
    CreatedInv(fileName, fileHash, fileSize);
    if events != [] {
      var front, e := events[..|events| - 1], events[|events| - 1];
      RetriesAreSetbacks(fileName, fileHash, fileSize, front);
      RunKeeps(start, front);
      StepTrouble(Run(start, front), e);
    }
  }

  lemma StepTrouble(d: Download, e: Event)
    requires Inv(d)
    ensures
        var after := Apply(d, e).met;
        && after.retryCount == (if Setback(d, e) && d.met.retryCount < 0xFFFF_FFFF then d.met.retryCount + 1 else d.met.retryCount)
        && after.lastError ==
             if Setback(d, e) then
               Some(if e.BlockFailed? then e.reason else if e.PeerGone? then "peer disconnected: " + e.peer else "block timeout")
             else if Granted(d, e) || Arrives(d, e) then None
             else d.met.lastError
  {
    FewStates(d, e);
    hide Inv, Apply, Granted, Arrives, Setback;
    NeedsEvent(d, e);
    if e.ReserveBlocks? {
      ReserveFields(d, e);
    } else if e.BlockReceived? {
      ReceiveFields(d, e);
    } else if e.BlockFailed? || e.PeerGone? || e.Tick? {
      SetbackFields(d, e);
    }
  }
}
