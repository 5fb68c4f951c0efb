/** The routing table of `src/kad/routing.rs`: two indexes over one set of nodes. The keys of
    the second index are base64 texts of destinations. Timers and bookkeeping that none of
    these operations look at are left out. */
module Routing {
  import opened Wrappers
  import opened Integers
  import opened Collections
  import opened WireReader
  import opened Distances
  import opened Sorting

  /** A node as heard of: identifier, destination (as text), version, datagram key. */
  datatype Node = Node(id: KadId, dest: string, version: nat, udpKey: nat, keyOwner: nat, verified: bool)

  datatype NodeState = NodeState(
    node: Node,
    dest: string,
    lastSeen: nat,
    lastInbound: Option<nat>,
    lastQueried: Option<nat>,
    receivedHello: bool,
    failures: nat)

  datatype Outcome = IgnoredZeroId | IgnoredSelf | Inserted | Updated

  type ById = map<KadId, NodeState>
  type ByDest = map<string, KadId>

  /** The two indexes are inverse to each other. */
  ghost predicate Inverse(byId: ById, byDest: ByDest) {
    && (forall id :: id in byId ==> byId[id].dest in byDest && byDest[byId[id].dest] == id)
    && (forall d :: d in byDest ==> byDest[d] in byId && byId[byDest[d]].dest == d)
  }

  function NewState(node: Node, now: nat): NodeState {
    NodeState(node, node.dest, now, None, None, false, 0)
  }

  /** A known node heard of again: newer version, learned key and verification are taken
      over, unless only its timers may be refreshed. */
  function Refreshed(st: NodeState, node: Node, now: nat, timersOnly: bool): NodeState {
    var learned :=
      if timersOnly then st.node
      else
        var v := if node.version > st.node.version then node.version else st.node.version;
        var takeKey := node.udpKey != 0 && st.node.udpKey != node.udpKey;
        st.node.(version := v,
                 udpKey := if takeKey then node.udpKey else st.node.udpKey,
                 keyOwner := if takeKey then node.keyOwner else st.node.keyOwner,
                 verified := st.node.verified || node.verified);
    st.(node := learned, lastSeen := now, failures := 0)
  }

  predicate Legacy(st: NodeState) {
    1 <= st.node.version < 6 && st.receivedHello
  }

  /** A known node that must not be changed by this report. */
  predicate Protected(st: NodeState, node: Node) {
    || (st.node.verified && st.dest != node.dest)
    || (st.dest != node.dest && node.version < st.node.version)
    || (st.node.udpKey != 0 && node.udpKey != 0 && st.node.udpKey != node.udpKey)
    || (Legacy(st) && (st.dest != node.dest || st.node.version != node.version))
  }

  /** The report would move a known node to another destination, and is let through. */
  predicate Moves(byId: ById, node: Node) {
    node.id in byId && byId[node.id].dest != node.dest && !Protected(byId[node.id], node)
  }

  predicate KeepsExisting(existing: Node, node: Node) {
    existing.verified || (!node.verified && existing.version >= node.version)
  }

  /** What is learned from a node by its destination: that it was heard, queried, sent a HELLO
      or failed, or its datagram key and whether it is verified. */
  datatype Mark = Heard | Queried | ReceivedHello | Failed | SenderKeys(key: nat, owner: nat, verified: bool)

  function Marked(st: NodeState, mark: Mark, now: nat): NodeState {
    var heard := st.(lastSeen := now, lastInbound := Some(now), failures := 0);
    match mark
    case Heard => heard
    case Queried => st.(lastQueried := Some(now))
    case ReceivedHello => heard.(receivedHello := true)
    case Failed => st.(failures := SaturatingIncU32(st.failures))
    case SenderKeys(key, owner, verified) =>
      var takeKey := key != 0 && st.node.udpKey != key;
      heard.(node := st.node.(
        udpKey := if takeKey then key else st.node.udpKey,
        keyOwner := if takeKey then owner else st.node.keyOwner,
        verified := st.node.verified || verified))
  }

  /** The node a destination leads to, if any, with the mark. */
  function MarkedById(byId: ById, byDest: ByDest, dest: string, mark: Mark, now: nat): ById {
    if dest in byDest && byDest[dest] in byId then byId[byDest[dest] := Marked(byId[byDest[dest]], mark, now)] else byId
  }

  /** What `upsert` makes of the two indexes. */
  datatype Table = Table(outcome: Outcome, byId: ById, byDest: ByDest)

  /** The second half of `upsert`: the destination may belong to another node, which is
      dropped unless it is to be kept. */
  function Place(byId: ById, byDest: ByDest, node: Node, now: nat, timersOnly: bool): Table {
    var taken := node.dest in byDest && byDest[node.dest] != node.id;
    if taken && byDest[node.dest] in byId && KeepsExisting(byId[byDest[node.dest]].node, node) then
      Table(Updated, byId, byDest)
    else
      var rest := if taken then byId - {byDest[node.dest]} else byId;
      if node.id in rest then
        Table(Updated, rest[node.id := Refreshed(rest[node.id], node, now, timersOnly)], byDest[node.dest := node.id])
      else Table(Inserted, rest[node.id := NewState(node, now)], byDest[node.dest := node.id])
  }

  function Upserted(myId: KadId, byId: ById, byDest: ByDest, node: Node, now: nat): Table {
    if node.id == ZERO_ID then Table(IgnoredZeroId, byId, byDest)
    else if node.id == myId then Table(IgnoredSelf, byId, byDest)
    else if node.id !in byId then Place(byId, byDest, node, now, false)
    else if Protected(byId[node.id], node) then Table(Updated, byId, byDest)
    else
      var known := byId[node.id];
      Place(byId, if known.dest != node.dest then byDest - {known.dest} else byDest, node, now, Legacy(known))
  }

  class RoutingTable {
    const myId: KadId
    var byId: ById
    var byDest: ByDest

    constructor (myId: KadId)
      ensures this.myId == myId && byId == map[] && byDest == map[]
    {
      this.myId := myId;
      byId, byDest := map[], map[];
    }

    /** `upsert`. */
    method Upsert(node: Node, now: nat) returns (r: Outcome)
      modifies this
      ensures Table(r, byId, byDest) == Upserted(myId, old(byId), old(byDest), node, now)
    {
      hide KeepsExisting, Legacy, Refreshed, NewState;
      if node.id == ZERO_ID {
        return IgnoredZeroId;
      }
      if node.id == myId {
        return IgnoredSelf;
      }
      var timersOnly := false;
      if node.id in byId {
        var known := byId[node.id];
        if known.node.verified && known.dest != node.dest {
          return Updated;
        }
        if known.dest != node.dest && node.version < known.node.version {
          return Updated;
        }
        if known.node.udpKey != 0 && node.udpKey != 0 && known.node.udpKey != node.udpKey {
          return Updated;
        }
        if Legacy(known) {
          if known.dest != node.dest || known.node.version != node.version {
            return Updated;
          }
          timersOnly := true;
        }
        if known.dest != node.dest {
          byDest := byDest - {known.dest};
        }
      }
      if node.dest in byDest && byDest[node.dest] != node.id {
        var existing := byDest[node.dest];
        if existing in byId && KeepsExisting(byId[existing].node, node) {
          return Updated;
        }
        byId := byId - {existing};
      }
      byDest := byDest[node.dest := node.id];
      if node.id in byId {
        byId := byId[node.id := Refreshed(byId[node.id], node, now, timersOnly)];
        return Updated;
      }
      byId := byId[node.id := NewState(node, now)];
      return Inserted;
    }

    /** `mark_seen_by_dest`, `mark_queried_by_dest`, `mark_received_hello_by_dest`,
        `mark_failure_by_dest` and `update_sender_keys_by_dest`. */
    method MarkByDest(dest: string, mark: Mark, now: nat)
      modifies this`byId
      ensures byId == MarkedById(old(byId), byDest, dest, mark, now)
    {
      if dest !in byDest {
        return;
      }
      var id := byDest[dest];
      if id !in byId {
        return;
      }
      var st := byId[id];
      match mark {
        case Queried => st := st.(lastQueried := Some(now));
        case Failed => st := st.(failures := SaturatingIncU32(st.failures));
        case _ => st := st.(lastSeen := now, lastInbound := Some(now), failures := 0);
      }
      if mark.ReceivedHello? {
        st := st.(receivedHello := true);
      }
      if mark.SenderKeys? {
        if mark.key != 0 && st.node.udpKey != mark.key {
          st := st.(node := st.node.(udpKey := mark.key, keyOwner := mark.owner));
        }
        if mark.verified {
          st := st.(node := st.node.(verified := true));
        }
      }
      byId := byId[id := st];
    }

    /** `evict`: nodes that failed often enough and were not seen for long enough go. */
    method Evict(now: nat, maxFailures: nat, maxAge: nat) returns (removed: nat)
      modifies this
      ensures Inverse(old(byId), old(byDest)) ==> Inverse(byId, byDest)
      ensures byId.Keys == set id | id in old(byId) && !Stale(old(byId)[id], now, maxFailures, maxAge)
      ensures forall id :: id in byId ==> byId[id] == old(byId)[id]
      ensures removed == |old(byId)| - |byId|
    {
      hide Inverse, Stale;
      var before := |byId|;
      ghost var ids := byId;
      var toRemove := set id | id in byId && Stale(byId[id], now, maxFailures, maxAge);
      DropAll(toRemove);
      SubsetSize(byId.Keys, ids.Keys);
      return before - |byId|;
    }

    /** Removes nodes from both indexes. */
    method DropAll(toRemove: set<KadId>)
      requires toRemove <= byId.Keys
      modifies this
      ensures (byId, byDest) == Without(old(byId), old(byDest), toRemove)
      ensures Inverse(old(byId), old(byDest)) ==> Inverse(byId, byDest)
    {
      hide Inverse, DestsOf;
      ghost var ids, dests := byId, byDest;
      var rest := toRemove;
      NothingDropped(ids, dests);
      while rest != {}
        invariant rest <= toRemove
        invariant (byId, byDest) == Without(ids, dests, toRemove - rest)
        decreases |rest|
      {
        var id :| id in rest;
        assert toRemove - (rest - {id}) == (toRemove - rest) + {id};
        OneMoreDropped(ids, dests, toRemove - rest, id);
        byDest := byDest - {byId[id].dest};
        byId := byId - {id};
        rest := rest - {id};
      }
      assert toRemove - {} == toRemove;
      if Inverse(ids, dests) {
        DropManyKeeps(ids, dests, toRemove);
      }
    }

    /** `enforce_capacity`: the lowest ranked nodes go until the table fits. `ids` are the
        identifiers in the order of the table. */
    method EnforceCapacity(max: nat, now: nat, ids: seq<KadId>) returns (removed: nat)
      requires Enumerates(ids, byId.Keys)
      modifies this
      ensures Inverse(old(byId), old(byDest)) ==> Inverse(byId, byDest)
      ensures byId.Keys <= old(byId).Keys && forall id :: id in byId ==> byId[id] == old(byId)[id]
      ensures |byId| == if |old(byId)| <= max then |old(byId)| else max
      ensures removed == |old(byId)| - |byId|
      ensures forall a, b :: a in byId && b in old(byId) && b !in byId ==> RankLe(old(byId)[b], old(byId)[a], now)
    {
      hide Inverse, RankLe, Enumerates, ByRank, SortBy;
      if |byId| <= max {
        return 0;
      }
      if max == 0 {
        removed := |byId|;
        byId, byDest := map[], map[];
        EmptyIsInverse();
        return;
      }
      var ranked := SortBy(ids, ByRank(byId, now));
      var count := |byId| - max;
      LowestGo(byId, now, ids, count);
      DropAll(set k | 0 <= k < count :: ranked[k]);
      return count;
    }
  }

  /** The destinations of nodes of the table. */
  function DestsOf(byId: ById, ids: set<KadId>): set<string> {
    set id | id in ids && id in byId :: byId[id].dest
  }

  /** Both indexes without these nodes. */
  function Without(byId: ById, byDest: ByDest, ids: set<KadId>): (ById, ByDest) {
    (byId - ids, byDest - DestsOf(byId, ids))
  }

  lemma NothingDropped(byId: ById, byDest: ByDest)
    ensures forall ids :: ids == {} ==> Without(byId, byDest, ids) == (byId, byDest)
  {
    assert byId - {} == byId && DestsOf(byId, {}) == {} && byDest - {} == byDest;
  }

  lemma OneMoreDropped(byId: ById, byDest: ByDest, ids: set<KadId>, id: KadId)
    requires id in byId && id !in ids
    ensures
        var (fewer, fewerDests) := Without(byId, byDest, ids);
        && id in fewer && fewer[id] == byId[id]
        && Without(byId, byDest, ids + {id}) == (fewer - {id}, fewerDests - {byId[id].dest})
  {
    assert DestsOf(byId, ids + {id}) == DestsOf(byId, ids) + {byId[id].dest};
    assert byId - (ids + {id}) == byId - ids - {id};
    var gone := DestsOf(byId, ids);
    assert byDest - (gone + {byId[id].dest}) == byDest - gone - {byId[id].dest};
  }

  lemma EmptyIsInverse()
    ensures Inverse(map[], map[])
  {
  }

  lemma Removed(a: set<KadId>, b: set<KadId>)
    requires b <= a
    ensures |a - b| == |a| - |b|
  {
    assert a == (a - b) + b;
  }

  /** Every identifier once. */
  ghost predicate Enumerates(ids: seq<KadId>, all: set<KadId>) {
    Distinct(ids) && forall id :: id in all <==> id in ids
  }

  lemma {:induction false} FirstSize(ids: seq<KadId>, n: nat)
    requires n <= |ids| && Distinct(ids)
    ensures |set k | 0 <= k < n :: ids[k]| == n
  {
    if n > 0 {
      FirstSize(ids, n - 1);
      assert (set k | 0 <= k < n :: ids[k]) == (set k | 0 <= k < n - 1 :: ids[k]) + {ids[n - 1]};
    }
  }

  lemma EnumeratedSize(ids: seq<KadId>, all: set<KadId>)
    requires Enumerates(ids, all)
    ensures |ids| == |all|
  {
    FirstSize(ids, |ids|);
    assert all == set k | 0 <= k < |ids| :: ids[k];
  }

  datatype Health = Unknown | Verified | Stable | Unreliable

  const STABLE_WINDOW: nat := 600_000_000_000

  /** `classify_peer_health`. */
  function HealthOf(st: NodeState, now: nat): Health {
    if st.failures >= 3 then Unreliable
    else if !st.node.verified then Unknown
    else if st.lastInbound.Some? && now <= st.lastInbound.value + STABLE_WINDOW && st.failures == 0 then Stable
    else Verified
  }

  function HealthRank(h: Health): nat {
    match h
    case Stable => 0
    case Verified => 1
    case Unknown => 2
    case Unreliable => 3
  }

  /** The ranking of `enforce_capacity`, from what goes first to what stays longest: bad
      health, many failures, never heard from, unverified, without a key, seen long ago. */
  predicate RankLe(a: NodeState, b: NodeState, now: nat) {
    var ha, hb := HealthRank(HealthOf(a, now)), HealthRank(HealthOf(b, now));
    if ha != hb then ha > hb
    else if a.failures != b.failures then a.failures > b.failures
    else if a.lastInbound.Some? != b.lastInbound.Some? then b.lastInbound.Some?
    else if a.node.verified != b.node.verified then b.node.verified
    else if (a.node.udpKey != 0) != (b.node.udpKey != 0) then b.node.udpKey != 0
    else a.lastSeen <= b.lastSeen
  }

  function ByRank(byId: ById, now: nat): (KadId, KadId) -> bool {
    (a, b) => if a in byId && b in byId then RankLe(byId[a], byId[b], now) else a in byId || b !in byId
  }

  lemma ByRankIsPreorder(byId: ById, now: nat)
    ensures Preorder(ByRank(byId, now))
  {
    forall a, b, c | ByRank(byId, now)(a, b) && ByRank(byId, now)(b, c)
      ensures ByRank(byId, now)(a, c)
    {
      if a in byId && b in byId && c in byId {
        RankTransitive(byId[a], byId[b], byId[c], now);
      }
    }
  }

  lemma RankTransitive(a: NodeState, b: NodeState, c: NodeState, now: nat)
    requires RankLe(a, b, now) && RankLe(b, c, now)
    ensures RankLe(a, c, now)
  {
  }

  lemma RankedFacts(byId: ById, now: nat, ids: seq<KadId>)
    requires Enumerates(ids, byId.Keys)
    ensures
        var ranked := SortBy(ids, ByRank(byId, now));
        && Enumerates(ranked, byId.Keys) && |ranked| == |byId|
        && forall i, j :: 0 <= i < j < |ranked| ==> RankLe(byId[ranked[i]], byId[ranked[j]], now)
  {
    hide RankLe, SortBy, Distinct;
    var ranked := SortBy(ids, ByRank(byId, now));
    ByRankIsPreorder(byId, now);
    SortCorrect(ids, ByRank(byId, now));
    Rearranged(ids, ranked);
    EnumeratedSize(ranked, byId.Keys);
    assert |byId.Keys| == |byId|;
    forall i, j | 0 <= i < j < |ranked|
      ensures RankLe(byId[ranked[i]], byId[ranked[j]], now)
    {
      assert ByRank(byId, now)(ranked[i], ranked[j]);
      assert ranked[i] in byId && ranked[j] in byId;
    }
  }

  /** Taking the first `count` of the ranking away. */
  lemma LowestGo(byId: ById, now: nat, ids: seq<KadId>, count: nat)
    requires Enumerates(ids, byId.Keys) && count <= |byId|
    ensures
        var ranked := SortBy(ids, ByRank(byId, now));
        && |ranked| == |byId|
        && var gone := set k | 0 <= k < count :: ranked[k];
           && gone <= byId.Keys && |byId.Keys - gone| == |byId| - count
           && forall a, b :: a in byId && a !in gone && b in gone ==> RankLe(byId[b], byId[a], now)
  {
    hide RankLe, SortBy, ByRank, Distinct;
    var ranked := SortBy(ids, ByRank(byId, now));
    RankedFacts(byId, now, ids);
    var gone := set k | 0 <= k < count :: ranked[k];
    FirstSize(ranked, count);
    forall b | b in gone
      ensures b in byId
    {
      assert b in ranked;
    }
    Removed(byId.Keys, gone);
    LowestFirst(byId, now, ranked, count);
  }

  lemma LowestFirst(byId: ById, now: nat, ranked: seq<KadId>, count: nat)
    requires Enumerates(ranked, byId.Keys) && count <= |ranked|
    requires forall i, j :: 0 <= i < j < |ranked| ==> RankLe(byId[ranked[i]], byId[ranked[j]], now)
    ensures
        var gone := set k | 0 <= k < count :: ranked[k];
        forall a, b :: a in byId && a !in gone && b in gone ==> b in byId && RankLe(byId[b], byId[a], now)
  {
    hide RankLe, Enumerates;
    var gone := set k | 0 <= k < count :: ranked[k];
    forall a, b | a in byId && a !in gone && b in gone
      ensures b in byId && RankLe(byId[b], byId[a], now)
    {
      var j :| 0 <= j < count && ranked[j] == b;
      RankedBehind(byId, now, ranked, count, a, j);
    }
  }

  lemma RankedBehind(byId: ById, now: nat, ranked: seq<KadId>, count: nat, a: KadId, j: nat)
    requires Enumerates(ranked, byId.Keys) && j < count <= |ranked|
    requires forall i, j :: 0 <= i < j < |ranked| ==> RankLe(byId[ranked[i]], byId[ranked[j]], now)
    requires a in byId && a !in set k | 0 <= k < count :: ranked[k]
    ensures ranked[j] in byId && RankLe(byId[ranked[j]], byId[a], now)
  {
    hide RankLe, Distinct;
    assert a in ranked && ranked[j] in ranked;
    var i :| 0 <= i < |ranked| && ranked[i] == a;
    assert i >= count;
  }

  predicate Stale(st: NodeState, now: nat, maxFailures: nat, maxAge: nat) {
    st.failures >= maxFailures && (if now < st.lastSeen then 0 else now - st.lastSeen) >= maxAge
  }

  /** Dropping a node from both indexes. */
  lemma DropKeeps(byId: ById, byDest: ByDest, id: KadId)
    requires Inverse(byId, byDest) && id in byId
    ensures Inverse(byId - {id}, byDest - {byId[id].dest})
  {
  }

  /** A node with a new identifier, or with its stored destination, keeps the indexes
      inverse. */
  lemma PlaceKeepsInverse(byId: ById, byDest: ByDest, node: Node, now: nat, timersOnly: bool)
    requires Inverse(byId, byDest) && (node.id in byId ==> byId[node.id].dest == node.dest)
    ensures var t := Place(byId, byDest, node, now, timersOnly); Inverse(t.byId, t.byDest)
  {
    hide KeepsExisting;
    var t := Place(byId, byDest, node, now, timersOnly);
    if node.dest in byDest && byDest[node.dest] != node.id {
      DropKeeps(byId, byDest, byDest[node.dest]);
    }
  }

  /** The indexes stay inverse exactly when no report is let through that moves a known node
      to another destination. */
  lemma InverseExactlyWhen(myId: KadId, byId: ById, byDest: ByDest, node: Node, now: nat)
    requires Inverse(byId, byDest)
    ensures
        var t := Upserted(myId, byId, byDest, node, now);
        Inverse(t.byId, t.byDest) <==> node.id == ZERO_ID || node.id == myId || !Moves(byId, node)
  {
    hide KeepsExisting, Legacy, Protected;
    if node.id != ZERO_ID && node.id != myId {
      if Moves(byId, node) {
        MovedIsLost(byId, byDest, node, now, Legacy(byId[node.id]));
      } else if node.id !in byId || !Protected(byId[node.id], node) {
        PlaceKeepsInverse(byId, byDest, node, now, node.id in byId && Legacy(byId[node.id]));
      }
    }
  }

  /** The moved node keeps its stored destination but loses the entry that led to it. */
  lemma MovedIsLost(byId: ById, byDest: ByDest, node: Node, now: nat, timersOnly: bool)
    requires Inverse(byId, byDest) && node.id in byId && byId[node.id].dest != node.dest
    ensures
        var t := Place(byId, byDest - {byId[node.id].dest}, node, now, timersOnly);
        && t.outcome == Updated
        && node.id in t.byId && t.byId[node.id].dest == byId[node.id].dest && t.byId[node.id].dest !in t.byDest
  {
    hide KeepsExisting;
  }

  /** A verified node stays, verified, at its destination: in every state, whatever comes. */
  lemma VerifiedStays(myId: KadId, byId: ById, byDest: ByDest, node: Node, now: nat, id: KadId)
    requires id in byId && byId[id].node.verified
    ensures
        var t := Upserted(myId, byId, byDest, node, now);
        id in t.byId && t.byId[id].node.verified && t.byId[id].dest == byId[id].dest
  {
    hide Legacy;
  }

  /** The second index is determined by the first. */
  lemma IndexIsDetermined(byId: ById, a: ByDest, b: ByDest)
    requires Inverse(byId, a) && Inverse(byId, b)
    ensures a == b
  {
    forall d
      ensures d in a <==> d in b
      ensures d in a && d in b ==> a[d] == b[d]
    {
      if d in a {
        assert byId[a[d]].dest == d;
      }
      if d in b {
        assert byId[b[d]].dest == d;
      }
    }
  }

  /** What happens to a table: a report comes in, something is learned about the node at a
      destination, or some nodes are dropped from both indexes (by `evict` or
      `enforce_capacity`). */
  datatype Event = Hear(node: Node, now: nat) | Learn(dest: string, mark: Mark, now: nat) | Drop(ids: set<KadId>)

  function Happened(myId: KadId, byId: ById, byDest: ByDest, e: Event): (ById, ByDest) {
    match e
    case Hear(node, now) => var t := Upserted(myId, byId, byDest, node, now); (t.byId, t.byDest)
    case Learn(dest, mark, now) => (MarkedById(byId, byDest, dest, mark, now), byDest)
    case Drop(ids) => Without(byId, byDest, ids)
  }

  function Run(myId: KadId, events: seq<Event>): (ById, ByDest) {
    if events == [] then (map[], map[])
    else
      var (byId, byDest) := Run(myId, events[..|events| - 1]);
      Happened(myId, byId, byDest, events[|events| - 1])
  }

  ghost predicate InverseAfter(myId: KadId, events: seq<Event>) {
    var (byId, byDest) := Run(myId, events);
    Inverse(byId, byDest)
  }

  /** The event is no report that moves a known node of the table. */
  ghost predicate MovesNothing(myId: KadId, byId: ById, e: Event) {
    e.Hear? ==> e.node.id == ZERO_ID || e.node.id == myId || !Moves(byId, e.node)
  }

  /** No report of the run moves a node known at that point. */
  ghost predicate NothingMoves(myId: KadId, events: seq<Event>) {
    forall k :: 0 <= k < |events| ==> MovesNothing(myId, Run(myId, events[..k]).0, events[k])
  }

  lemma DropManyKeeps(byId: ById, byDest: ByDest, ids: set<KadId>)
    requires Inverse(byId, byDest)
    ensures Inverse(byId - ids, byDest - DestsOf(byId, ids))
  {
  }

  lemma MarkKeeps(byId: ById, byDest: ByDest, dest: string, mark: Mark, now: nat)
    requires Inverse(byId, byDest)
    ensures Inverse(MarkedById(byId, byDest, dest, mark, now), byDest)
  {
  }

  lemma StepInverse(myId: KadId, byId: ById, byDest: ByDest, e: Event)
    requires Inverse(byId, byDest)
    ensures
        var (nextId, nextDest) := Happened(myId, byId, byDest, e);
        Inverse(nextId, nextDest) <==> MovesNothing(myId, byId, e)
  {
    hide Inverse, Upserted, Moves, MarkedById, DestsOf;
    match e {
      case Hear(node, now) => InverseExactlyWhen(myId, byId, byDest, node, now);
      case Learn(dest, mark, now) => MarkKeeps(byId, byDest, dest, mark, now);
      case Drop(ids) => DropManyKeeps(byId, byDest, ids);
    }
  }

  lemma RunNext(myId: KadId, events: seq<Event>, k: nat)
    requires k < |events|
    ensures
        var (byId, byDest) := Run(myId, events[..k]);
        Run(myId, events[..k + 1]) == Happened(myId, byId, byDest, events[k])
  {
    hide Happened;
    assert events[..k + 1][..k] == events[..k];
  }

  lemma NothingYet(myId: KadId)
    ensures InverseAfter(myId, [])
  {
  }

  /** In every run, the indexes are inverse all along exactly when no report moves a node that
      is known at that point. */
  lemma RunInverseExactlyWhen(myId: KadId, events: seq<Event>)
    ensures (forall k :: 0 <= k <= |events| ==> InverseAfter(myId, events[..k])) <==> NothingMoves(myId, events)
  {
    hide Inverse, Happened, Run, MovesNothing;
    forall k | 0 <= k < |events| && InverseAfter(myId, events[..k])
      ensures InverseAfter(myId, events[..k + 1]) <==> MovesNothing(myId, Run(myId, events[..k]).0, events[k])
    {
      var (byId, byDest) := Run(myId, events[..k]);
      RunNext(myId, events, k);
      StepInverse(myId, byId, byDest, events[k]);
    }
    if NothingMoves(myId, events) {
      hide InverseAfter;
      NothingYet(myId);
      assert events[..0] == [];
      for k := 0 to |events|
        invariant forall j :: 0 <= j <= k ==> InverseAfter(myId, events[..j])
      {
        assert MovesNothing(myId, Run(myId, events[..k]).0, events[k]);
        assert InverseAfter(myId, events[..k + 1]);
      }
    } else if forall k :: 0 <= k <= |events| ==> InverseAfter(myId, events[..k]) {
      var k :| 0 <= k < |events| && !MovesNothing(myId, Run(myId, events[..k]).0, events[k]);
      assert InverseAfter(myId, events[..k]) && InverseAfter(myId, events[..k + 1]);
    }
  }

  /** Two reports of one node at two destinations leave indexes that are not inverse. */
  lemma TwoReportsBreak(myId: KadId, id: KadId)
    requires id != ZERO_ID && id != myId
    ensures
        var first, second := Node(id, "a", 8, 0, 0, false), Node(id, "b", 8, 0, 0, false);
        !InverseAfter(myId, [Hear(first, 0), Hear(second, 1)])
  {
    var first, second := Node(id, "a", 8, 0, 0, false), Node(id, "b", 8, 0, 0, false);
    var events := [Hear(first, 0), Hear(second, 1)];
    NothingYet(myId);
    assert events[..0] == [] && events[..2] == events;
    RunNext(myId, events, 0);
    RunNext(myId, events, 1);
    assert Run(myId, []) == (map[], map[]);
    hide Run;
    var (byId, byDest) := Run(myId, events[..1]);
    assert byId == map[id := NewState(first, 0)] && byDest == map["a" := id];
    assert Moves(byId, second);
    InverseExactlyWhen(myId, byId, byDest, second, 1);
  }

  /** Every node is stored under its own identifier, which is neither ours nor zero. */
  ghost predicate WellKeyed(myId: KadId, byId: ById) {
    forall id :: id in byId ==> byId[id].node.id == id && id != myId && id != ZERO_ID
  }

  lemma StepWellKeyed(myId: KadId, byId: ById, byDest: ByDest, e: Event)
    requires WellKeyed(myId, byId)
    ensures WellKeyed(myId, Happened(myId, byId, byDest, e).0)
  {
    hide Protected, KeepsExisting, Legacy, Refreshed, NewState, Place, Marked;
    if e.Hear? && e.node.id != ZERO_ID && e.node.id != myId {
      var node := e.node;
      PlaceWellKeyed(myId, byId, byDest, node, e.now, false);
      if node.id in byId {
        var known := byId[node.id];
        var dests := if known.dest != node.dest then byDest - {known.dest} else byDest;
        PlaceWellKeyed(myId, byId, dests, node, e.now, Legacy(known));
      }
    } else if e.Learn? && e.dest in byDest && byDest[e.dest] in byId {
      MarkKeepsId(byId[byDest[e.dest]], e.mark, e.now);
    }
  }

  lemma MarkKeepsId(st: NodeState, mark: Mark, now: nat)
    ensures Marked(st, mark, now).node.id == st.node.id
  {
  }

  lemma PlaceWellKeyed(myId: KadId, byId: ById, byDest: ByDest, node: Node, now: nat, timersOnly: bool)
    requires WellKeyed(myId, byId) && node.id != myId && node.id != ZERO_ID
    ensures WellKeyed(myId, Place(byId, byDest, node, now, timersOnly).byId)
  {
    hide KeepsExisting;
  }

  lemma {:induction false} RunWellKeyed(myId: KadId, events: seq<Event>)
    ensures WellKeyed(myId, Run(myId, events).0)
  {
    hide WellKeyed, Happened;
    if events == [] {
      NothingKeyed(myId);
    } else {
      var (byId, byDest) := Run(myId, events[..|events| - 1]);
      RunWellKeyed(myId, events[..|events| - 1]);
      StepWellKeyed(myId, byId, byDest, events[|events| - 1]);
    }
  }

  lemma NothingKeyed(myId: KadId)
    ensures WellKeyed(myId, map[])
  {
  }

  ghost predicate VerifiedAt(byId: ById, id: KadId, dest: string) {
    id in byId && byId[id].node.verified && byId[id].dest == dest
  }

  /** In every run, a node once verified stays, verified and at its destination, until it is
      dropped for failing or for room. */
  lemma {:induction false} VerifiedUntilDropped(myId: KadId, events: seq<Event>, from: nat, id: KadId, dest: string)
    requires from <= |events| && VerifiedAt(Run(myId, events[..from]).0, id, dest)
    requires forall k :: from <= k < |events| && events[k].Drop? ==> id !in events[k].ids
    ensures VerifiedAt(Run(myId, events).0, id, dest)
  {
    if from == |events| {
      assert events[..from] == events;
    } else {
      var n := |events| - 1;
      hide VerifiedAt, Happened, Run;
      assert events[..n][..from] == events[..from];
      VerifiedUntilDropped(myId, events[..n], from, id, dest);
      RunNext(myId, events, n);
      assert events[..n + 1] == events;
      var (byId, byDest) := Run(myId, events[..n]);
      StepVerified(myId, byId, byDest, events[n], id, dest);
    }
  }

  lemma StepVerified(myId: KadId, byId: ById, byDest: ByDest, e: Event, id: KadId, dest: string)
    requires VerifiedAt(byId, id, dest) && (e.Drop? ==> id !in e.ids)
    ensures VerifiedAt(Happened(myId, byId, byDest, e).0, id, dest)
  {
    hide Upserted, DestsOf;
    if e.Hear? {
      VerifiedStays(myId, byId, byDest, e.node, e.now, id);
    }
  }
}
