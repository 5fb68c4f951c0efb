/** How long a lease lives, over whole runs: from the reservation that granted it until it is
    used, until its peer is gone or the process restarts, and at most 15 seconds of ticks. */
module LeaseTimes {
  import opened Wrappers
  import opened ByteRanges
  import opened Downloads
  import opened DownloadInvariant
  import opened Reservation
  import opened DownloadRuns

  /** The peer holds a lease of the block. */
  ghost predicate Leased(leases: seq<Lease>, peer: string, block: ByteRange) {
    exists i :: 0 <= i < |leases| && leases[i].peer == peer && leases[i].range == block
  }

  /** The event is a reservation by the peer that is answered with the block. */
  ghost predicate Grants(d: Download, e: Event, peer: string, block: ByteRange) {
    && e.ReserveBlocks? && e.peer == peer
    && var r := Reserve(d, peer, e.maxBlocks, e.blockSize, e.now).1;
       r.Success? && block in r.value
  }

  /** The time of the last reservation by the peer that was answered with the block. */
  ghost function GrantedAt(d: Download, events: seq<Event>, peer: string, block: ByteRange): Option<nat> {
    if events == [] then None
    else
      var front, e := events[..|events| - 1], events[|events| - 1];
      if Grants(Run(d, front), e, peer, block) then Some(e.now) else GrantedAt(d, front, peer, block)
  }

  ghost predicate Timed(d: Download, events: seq<Event>, leases: seq<Lease>) {
    forall i :: 0 <= i < |leases| ==>
      var t := GrantedAt(d, events, leases[i].peer, leases[i].range);
      t.Some? && leases[i].deadline == t.value + 15_000
  }

  /** The leases a grant adds. */
  function NewLeases(blocks: seq<ByteRange>, peer: string, deadline: nat): (r: seq<Lease>)
    ensures |r| == |blocks| && forall i :: 0 <= i < |r| ==> r[i] == Lease(blocks[i], peer, deadline)
  {
    seq(|blocks|, i requires 0 <= i < |blocks| => Lease(blocks[i], peer, deadline))
  }

  lemma {:induction false} GrantAppends(d: Download, peer: string, blockSize: nat, deadline: nat, budget: nat)
    requires blockSize > 0
    ensures
        var (after, blocks) := Grant(d, peer, blockSize, deadline, budget);
        after.leases == d.leases + NewLeases(blocks, peer, deadline)
    decreases budget
  {
    hide FirstBlock, Subtracted;
    if budget > 0 && d.met.missing != [] {
      var next := GrantOne(d, peer, blockSize, deadline);
      GrantAppends(next, peer, blockSize, deadline, budget - 1);
      var (after, blocks) := Grant(next, peer, blockSize, deadline, budget - 1);
      var first := FirstBlock(d.met, blockSize);
      assert NewLeases([first] + blocks, peer, deadline) == [Lease(first, peer, deadline)] + NewLeases(blocks, peer, deadline);
    }
  }

  /** What a reservation adds: a lease for every block of its answer, for 15 seconds. */
  lemma ReserveAppends(d: Download, peer: string, maxBlocks: nat, blockSize: nat, now: nat)
    ensures
        var (after, r) := Reserve(d, peer, maxBlocks, blockSize, now);
        after.leases == d.leases + NewLeases(if r.Success? then r.value else [], peer, now + 15_000)
  {
    hide Grant, PeerLeases, ReserveBudget;
    var ready := d.(cooldownUntil := None);
    if PeerLeases(d.leases, peer) < MAX_LEASES_PER_PEER && |d.leases| < MAX_LEASES_PER_DOWNLOAD && blockSize > 0 {
      GrantAppends(ready, peer, blockSize, now + LEASE_TIMEOUT_MS, ReserveBudget(d, peer, maxBlocks));
    }
  }

  /** Leases of one download are of different blocks. */
  lemma LeasesDiffer(d: Download, i: nat, j: nat)
    requires Inv(d) && i < j < |d.leases|
    ensures Disjoint(d.leases[i].range, d.leases[j].range) && d.leases[i].range != d.leases[j].range
  {
    hide Bytes, Canonical, WithinCaps;
    assert Disjoint(d.met.inflight[i], d.met.inflight[j]);
  }

  lemma {:induction false} FilteredLeases(leases: seq<Lease>, doom: Doom)
    ensures forall l :: l in Filtered(leases, doom) <==> l in leases && !Doomed(l, doom)
  {
    hide Doomed;
    if leases != [] {
      FilteredLeases(leases[1..], doom);
    }
  }

  lemma LeasedIn(leases: seq<Lease>, peer: string, block: ByteRange)
    ensures Leased(leases, peer, block) <==> exists l :: l in leases && l.peer == peer && l.range == block
  {
  }

  /** Who still holds a lease after a disconnect or a tick, in deadlines. */
  lemma ReclaimLeaves(d: Download, doom: Doom, error: string, now: nat)
    requires Inv(d)
    ensures
        var after := Reclaim(d, doom, error, now).0.leases;
        && (doom.OfPeer? ==> forall l :: l in after <==> l in d.leases && l.peer != doom.peer)
        && (doom.ExpiredAt? ==> forall l :: l in after <==> l in d.leases && doom.now < l.deadline)
  {
    hide Inv, Reclaim, Filtered;
    ReclaimKeeps(d, doom, error, now);
    FilteredLeases(d.leases, doom);
  }

  lemma OthersStay(leases: seq<Lease>, k: nat)
    requires k < |leases|
    ensures forall j :: 0 <= j < |leases| && j != k ==> leases[j] in RemoveAt(leases, k)
  {
    var rest := RemoveAt(leases, k);
    forall j | 0 <= j < |leases| && j != k
      ensures leases[j] in rest
    {
      assert rest[if j < k then j else j - 1] == leases[j];
    }
  }

  /** A block that is used up: its lease goes, and no other one. */
  lemma UsedUp(d: Download, peer: string, block: ByteRange)
    requires Inv(d)
    ensures
        var k := FindLease(d.leases, peer, block);
        && (k.None? ==> !Leased(d.leases, peer, block))
        && (k.Some? ==> forall l :: l in RemoveAt(d.leases, k.value) <==> l in d.leases && !(l.peer == peer && l.range == block))
  {
    hide Inv, FindLease;
    var k := FindLease(d.leases, peer, block);
    if k.Some? {
      var rest := RemoveAt(d.leases, k.value);
      OthersStay(d.leases, k.value);
      forall l
        ensures l in rest <==> l in d.leases && !(l.peer == peer && l.range == block)
      {
        if l in rest {
          var i :| 0 <= i < |rest| && rest[i] == l;
          var j := if i < k.value then i else i + 1;
          assert d.leases[j] == l;
          LeasesDiffer(d, if j < k.value then j else k.value, if j < k.value then k.value else j);
        }
      }
    }
  }

  /** What each event but a reservation leaves of the leases. */
  lemma LeasesLeft(d: Download, e: Event)
    requires Inv(d) && !e.ReserveBlocks?
    ensures
        var after := Apply(d, e).leases;
        && (e.Pause? || e.Resume? || e.Cancel? ==> after == d.leases)
        && (e.BlockReceived? || e.BlockFailed? ==> forall l :: l in after <==> l in d.leases && !(l.peer == e.peer && l.range == e.block))
        && (e.PeerGone? ==> forall l :: l in after <==> l in d.leases && l.peer != e.peer)
        && (e.Tick? ==> forall l :: l in after <==> l in d.leases && e.now < l.deadline)
        && (e.Restart? ==> after == [])
  {
    hide Inv, FindLease, Reclaim, RemoveAt, RemoveInflight, Merged, SizeLessMissing;
    match e {
      case BlockReceived(peer, block) => UsedUp(d, peer, block);
      case BlockFailed(peer, block, _, _) => UsedUp(d, peer, block);
      case PeerGone(peer, now) => ReclaimLeaves(d, OfPeer(peer), "peer disconnected: " + peer, now);
      case Tick(now) => ReclaimLeaves(d, ExpiredAt(now), "block timeout", now);
      case _ =>
    }
  }

  /** Every lease was granted by a reservation, and its deadline is 15 seconds later. */
  lemma {:induction false} AlwaysTimed(start: Download, events: seq<Event>)
    requires Inv(start) && start.leases == []
    ensures Timed(start, events, Run(start, events).leases)
  {
    hide Inv, Apply, Grants;
    if events != [] {
      var front, e := events[..|events| - 1], events[|events| - 1];
      AlwaysTimed(start, front);
      RunKeeps(start, front);
      var d, after := Run(start, front), Apply(Run(start, front), e).leases;
      forall i | 0 <= i < |after|
        ensures
            var t := GrantedAt(start, events, after[i].peer, after[i].range);
            t.Some? && after[i].deadline == t.value + 15_000
      {
        LeaseOrigin(d, e, i);
        if !Grants(d, e, after[i].peer, after[i].range) {
          var j :| 0 <= j < |d.leases| && d.leases[j] == after[i];
        }
      }
    }
  }

  /** A lease after an event was there before, or the event is the reservation that grants it. */
  lemma LeaseOrigin(d: Download, e: Event, i: nat)
    requires Inv(d) && i < |Apply(d, e).leases|
    ensures
        var l := Apply(d, e).leases[i];
        if Grants(d, e, l.peer, l.range) then l.deadline == e.now + 15_000 else l in d.leases
  {
    hide Inv, Apply, Reserve;
    var after := Apply(d, e).leases;
    assert after[i] in after;
    if e.ReserveBlocks? {
      ApplyReserve(d, e);
      ReserveOrigin(d, e.peer, e.maxBlocks, e.blockSize, e.now, i);
    } else {
      LeasesLeft(d, e);
    }
  }

  lemma ApplyReserve(d: Download, e: Event)
    requires e.ReserveBlocks?
    ensures Apply(d, e) == Reserve(d, e.peer, e.maxBlocks, e.blockSize, e.now).0
  {
    hide Reserve;
  }

  lemma ReserveOrigin(d: Download, peer: string, maxBlocks: nat, blockSize: nat, now: nat, i: nat)
    requires Inv(d) && i < |Reserve(d, peer, maxBlocks, blockSize, now).0.leases|
    ensures
        var (after, r) := Reserve(d, peer, maxBlocks, blockSize, now);
        var l := after.leases[i];
        if r.Success? && l.peer == peer && l.range in r.value then l.deadline == now + 15_000 else l in d.leases
  {
    hide Inv, Reserve;
    var (after, r) := Reserve(d, peer, maxBlocks, blockSize, now);
    ReserveAppends(d, peer, maxBlocks, blockSize, now);
    ReserveKeeps(d, peer, maxBlocks, blockSize, now);
    if i < |d.leases| && r.Success? {
      assert after.leases[i] == d.leases[i];
      forall k | 0 <= k < |r.value|
        ensures r.value[k] != after.leases[i].range
      {
        assert after.leases[|d.leases| + k].range == r.value[k];
        LeasesDiffer(after, i, |d.leases| + k);
      }
    }
  }

  /** What happens to the lease of a block by a peer at every event of a run. The time limit is
      said in the time of its reservation: a tick takes the lease back exactly when it comes
      15 seconds after it, or later. */
  lemma LeaseLife(start: Download, events: seq<Event>, e: Event, peer: string, block: ByteRange)
    requires Inv(start) && start.leases == []
    ensures
        var before, after := Run(start, events).leases, Run(start, events + [e]).leases;
        var granted := GrantedAt(start, events, peer, block);
        && (Leased(before, peer, block) ==> granted.Some?)
        && (e.ReserveBlocks? ==>
              (Leased(after, peer, block) <==> Leased(before, peer, block) || Grants(Run(start, events), e, peer, block)))
        && (e.BlockReceived? || e.BlockFailed? ==>
              (Leased(after, peer, block) <==> Leased(before, peer, block) && !(e.peer == peer && e.block == block)))
        && (e.PeerGone? ==> (Leased(after, peer, block) <==> Leased(before, peer, block) && e.peer != peer))
        && (e.Tick? ==>
              (Leased(after, peer, block) <==> Leased(before, peer, block) && e.now < granted.value + 15_000))
        && (e.Restart? ==> !Leased(after, peer, block))
        && (e.Pause? || e.Resume? || e.Cancel? ==> after == before)
  {
    hide Inv, Apply, Grants, Reserve;
    var d, more := Run(start, events), events + [e];
    assert more[..|more| - 1] == events;
    RunKeeps(start, events);
    AlwaysTimed(start, events);
    LeasedIn(d.leases, peer, block);
    LeasedIn(Apply(d, e).leases, peer, block);
    if e.ReserveBlocks? {
      ApplyReserve(d, e);
      ReserveLeases(d, e, peer, block);
    } else {
      LeasesLeft(d, e);
    }
  }

  lemma LeasedInBoth(a: seq<Lease>, b: seq<Lease>, peer: string, block: ByteRange)
    ensures Leased(a + b, peer, block) <==> Leased(a, peer, block) || Leased(b, peer, block)
  {
    var both := a + b;
    if Leased(both, peer, block) {
      var i :| 0 <= i < |both| && both[i].peer == peer && both[i].range == block;
      assert i >= |a| ==> both[i] == b[i - |a|];
    }
    if Leased(a, peer, block) {
      var i :| 0 <= i < |a| && a[i].peer == peer && a[i].range == block;
      assert both[i] == a[i];
    } else if Leased(b, peer, block) {
      var i :| 0 <= i < |b| && b[i].peer == peer && b[i].range == block;
      assert both[|a| + i] == b[i];
    }
  }

  lemma LeasedNew(blocks: seq<ByteRange>, holder: string, deadline: nat, peer: string, block: ByteRange)
    ensures Leased(NewLeases(blocks, holder, deadline), peer, block) <==> peer == holder && block in blocks
  {
    var added := NewLeases(blocks, holder, deadline);
    if peer == holder && block in blocks {
      var k :| 0 <= k < |blocks| && blocks[k] == block;
      assert added[k].peer == peer && added[k].range == block;
    }
  }

  lemma ReserveLeases(d: Download, e: Event, peer: string, block: ByteRange)
    requires e.ReserveBlocks?
    ensures
        var after := Reserve(d, e.peer, e.maxBlocks, e.blockSize, e.now).0.leases;
        Leased(after, peer, block) <==> Leased(d.leases, peer, block) || Grants(d, e, peer, block)
  {
    hide Reserve, Leased;
    var (after, r) := Reserve(d, e.peer, e.maxBlocks, e.blockSize, e.now);
    ReserveAppends(d, e.peer, e.maxBlocks, e.blockSize, e.now);
    var blocks := if r.Success? then r.value else [];
    var added := NewLeases(blocks, e.peer, e.now + 15_000);
    LeasedInBoth(d.leases, added, peer, block);
    LeasedNew(blocks, e.peer, e.now + 15_000, peer, block);
  }

  /** Over a whole run: a lease granted at t is still there when none of the events since then
      used it, sent its peer away, restarted the process or was a tick at t + 15 s or later. */
  ghost predicate Spares(e: Event, peer: string, block: ByteRange, t: nat) {
    && (e.BlockReceived? || e.BlockFailed? ==> !(e.peer == peer && e.block == block))
    && (e.PeerGone? ==> e.peer != peer)
    && (e.Tick? ==> e.now < t + 15_000)
    && !e.Restart?
  }

  lemma {:induction false} Survives(start: Download, events: seq<Event>, k: nat, peer: string, block: ByteRange)
    requires Inv(start) && start.leases == [] && k <= |events|
    requires Leased(Run(start, events[..k]).leases, peer, block)
    requires
        var t := GrantedAt(start, events[..k], peer, block);
        t.Some? && forall i :: k <= i < |events| ==> Spares(events[i], peer, block, t.value)
    ensures Leased(Run(start, events).leases, peer, block)
    ensures GrantedAt(start, events, peer, block) == GrantedAt(start, events[..k], peer, block)
    decreases |events|
  {
    hide Inv, Leased, Run, Grants;
    if k == |events| {
      assert events[..k] == events;
    } else {
      var front, e := events[..|events| - 1], events[|events| - 1];
      assert front[..k] == events[..k] && front + [e] == events;
      Survives(start, front, k, peer, block);
      LeaseLife(start, front, e, peer, block);
      RunKeeps(start, front);
      NotGrantedTwice(Run(start, front), e, peer, block);
    }
  }

  /** A block that is leased is not given out. */
  lemma NotGrantedTwice(d: Download, e: Event, peer: string, block: ByteRange)
    requires Inv(d) && Leased(d.leases, peer, block)
    ensures !Grants(d, e, peer, block)
  {
    hide Inv, Reserve;
    if e.ReserveBlocks? && e.peer == peer {
      var (after, r) := Reserve(d, peer, e.maxBlocks, e.blockSize, e.now);
      ReserveAppends(d, peer, e.maxBlocks, e.blockSize, e.now);
      ReserveKeeps(d, peer, e.maxBlocks, e.blockSize, e.now);
      var i :| 0 <= i < |d.leases| && d.leases[i].peer == peer && d.leases[i].range == block;
      assert after.leases[i] == d.leases[i];
      forall k | r.Success? && 0 <= k < |r.value|
        ensures r.value[k] != block
      {
        assert after.leases[|d.leases| + k].range == r.value[k];
        LeasesDiffer(after, i, |d.leases| + k);
      }
    }
  }

  /** After a tick, no lease is left that was granted 15 seconds before it or earlier, and its
      bytes are missing again. */
  lemma TickReturns(start: Download, events: seq<Event>, now: nat, peer: string, block: ByteRange)
    requires Inv(start) && start.leases == []
    requires Leased(Run(start, events).leases, peer, block)
    requires GrantedAt(start, events, peer, block).Some? ==> GrantedAt(start, events, peer, block).value + 15_000 <= now
    ensures
        var after := Run(start, events + [Tick(now)]);
        !Leased(after.leases, peer, block) && Span(block) <= Bytes(after.met.missing)
  {
    hide Inv, Leased, Apply, Bytes, Span, ReceivedBytes;
    var more := events + [Tick(now)];
    assert more[..|more| - 1] == events;
    var d := Run(start, events);
    RunKeeps(start, events);
    LeaseLife(start, events, Tick(now), peer, block);
    StepKeeps(d, Tick(now));
    LeasesLeft(d, Tick(now));
    assert Gained(d, Tick(now)) == {};
    MissingAgain(d, Apply(d, Tick(now)), peer, block);
  }

  /** When a lease goes without its block being received, the block is missing. */
  lemma MissingAgain(d: Download, after: Download, peer: string, block: ByteRange)
    requires Inv(d) && Inv(after) && after.met.fileSize == d.met.fileSize
    requires ReceivedBytes(after.met) == ReceivedBytes(d.met) && forall l :: l in after.leases ==> l in d.leases
    requires Leased(d.leases, peer, block) && !Leased(after.leases, peer, block)
    ensures Span(block) <= Bytes(after.met.missing)
  {
    hide Bytes, Canonical, WithinCaps, FileBytes, ReceivedBytes, Fit, PairwiseDisjoint;
    Partition(d);
    Partition(after);
    var i :| 0 <= i < |d.leases| && d.leases[i].peer == peer && d.leases[i].range == block;
    assert d.met.inflight[i] == block;
    SpanInBytes(d.met.inflight, i);
    forall b | b in Span(block)
      ensures b in Bytes(after.met.missing)
    {
      if b in Bytes(after.met.inflight) {
        StillLeased(d, after, i, b);
      }
    }
  }

  lemma StillLeased(d: Download, after: Download, i: nat, b: nat)
    requires Inv(d) && Inv(after) && i < |d.leases| && forall l :: l in after.leases ==> l in d.leases
    requires b in Span(d.leases[i].range) && b in Bytes(after.met.inflight)
    ensures Leased(after.leases, d.leases[i].peer, d.leases[i].range)
  {
    hide Bytes, Canonical, WithinCaps, FileBytes, ReceivedBytes, Fit, PairwiseDisjoint;
    BytesMember(after.met.inflight, b);
    var j :| 0 <= j < |after.met.inflight| && after.met.inflight[j].start <= b <= after.met.inflight[j].end;
    assert after.leases[j] in d.leases && after.leases[j].range == after.met.inflight[j];
    var m :| 0 <= m < |d.leases| && d.leases[m] == after.leases[j];
    assert d.leases[m].range.start <= b <= d.leases[m].range.end;
    if m < i {
      LeasesDiffer(d, m, i);
    } else if i < m {
      LeasesDiffer(d, i, m);
    }
  }
}
