/** Which nodes are given as the closest ones, and which nodes go first when the table is full,
    in the fields of their entries. */
module Ranks {
  import opened Wrappers
  import opened WireReader
  import opened Distances
  import opened Sorting
  import opened Routing
  import opened Closest

  /** The nodes that may be given, and are closer to the target. */
  ghost function Closer(byId: ById, minVersion: nat, hash: DestHash, excluded: nat, target: KadId, d: nat): set<KadId> {
    set id | id in byId && byId[id].node.version >= minVersion && hash(byId[id].node.dest) != excluded && Distance(id, target) < d
  }

  /** A node is given exactly when its version is high enough, its destination is not the excluded
      one, and fewer than the maximum of such nodes are closer; with liveness as a tie-breaker
      or without. */
  lemma GivenExactlyWhen(values: seq<NodeState>, byId: ById, target: KadId, max: nat, hash: DestHash, excluded: nat,
                         now: nat, window: nat, minVersion: nat, id: KadId)
    requires Lists(values, byId) && id in byId
    ensures
        var node := byId[id].node;
        node in ClosestPreferLive(values, target, max, hash, excluded, now, window, minVersion) <==>
          && node.version >= minVersion && hash(node.dest) != excluded
          && |Closer(byId, minVersion, hash, excluded, target, Distance(id, target))| < max
  {
    hide SortBy, Filtered, Lists;
    var eligible := Filtered(values, minVersion, hash, excluded);
    var sorted := SortBy(eligible, ByDistance(target));
    SortsByDistance(values, byId, target, hash, excluded, now, window, minVersion);
    Given(sorted, byId, target, max, hash, excluded, minVersion, id);
    ListsById(values, byId);
  }

  lemma ListsById(values: seq<NodeState>, byId: ById)
    requires Lists(values, byId)
    ensures forall id :: id in byId ==> byId[id] in values && byId[id].node.id == id
    ensures forall st :: st in values ==> st.node.id in byId && byId[st.node.id] == st
  {
    forall id | id in byId
      ensures byId[id] in values && byId[id].node.id == id
    {
      var i :| 0 <= i < |values| && values[i].node.id == id;
      assert byId[id] == values[i];
    }
  }

  /** The sorted states: all that may be given, in strictly increasing distance. */
  ghost predicate Outward(sorted: seq<NodeState>, byId: ById, target: KadId, hash: DestHash, excluded: nat, minVersion: nat) {
    && (forall i :: 0 <= i < |sorted| ==> sorted[i].node.id in byId && byId[sorted[i].node.id] == sorted[i])
    && (forall id :: id in byId ==>
          (byId[id] in sorted <==> byId[id].node.version >= minVersion && hash(byId[id].node.dest) != excluded))
    && (forall i, j :: 0 <= i < j < |sorted| ==> Far(sorted[i], target) < Far(sorted[j], target))
    && (forall id :: id in byId ==> byId[id].node.id == id)
  }

  lemma SortsByDistance(values: seq<NodeState>, byId: ById, target: KadId, hash: DestHash, excluded: nat,
                        now: nat, window: nat, minVersion: nat)
    requires Lists(values, byId)
    ensures
        var eligible := Filtered(values, minVersion, hash, excluded);
        && SortBy(eligible, ByDistanceThenLive(target, now, window)) == SortBy(eligible, ByDistance(target))
        && Outward(SortBy(eligible, ByDistance(target)), byId, target, hash, excluded, minVersion)
  {
    hide Filtered, SortBy, Outward, Far, Eligible, Ascending;
    var eligible := Filtered(values, minVersion, hash, excluded);
    FilteredDistinct(values, minVersion, hash, excluded);
    SortsOutward(values, byId, target, hash, excluded, minVersion);
    LiveDecidesNothing(eligible, target, now, window);
  }

  /** Liveness never decides between nodes with different identifiers. */
  lemma LiveDecidesNothing(eligible: seq<NodeState>, target: KadId, now: nat, window: nat)
    requires DistinctIds(eligible)
    ensures SortBy(eligible, ByDistanceThenLive(target, now, window)) == SortBy(eligible, ByDistance(target))
  {
    hide SortBy, DistinctIds;
    ByDistanceIsPreorder(target);
    forall a, b | a in eligible && b in eligible && a != b
      ensures ByDistance(target)(a, b) == ByDistanceThenLive(target, now, window)(a, b)
    {
      if Far(a, target) == Far(b, target) {
        DistanceInjective(a.node.id, b.node.id, target);
        SameIdSameState(eligible, a, b);
      }
    }
    SortAgrees(eligible, ByDistance(target), ByDistanceThenLive(target, now, window));
  }

  lemma SortsOutward(values: seq<NodeState>, byId: ById, target: KadId, hash: DestHash, excluded: nat, minVersion: nat)
    requires Lists(values, byId)
    ensures Outward(SortBy(Filtered(values, minVersion, hash, excluded), ByDistance(target)), byId, target, hash, excluded, minVersion)
  {
    ListsById(values, byId);
    hide Filtered, SortBy, Far, Eligible, Lists, Preorder, Ascending;
    var eligible := Filtered(values, minVersion, hash, excluded);
    var sorted := SortBy(eligible, ByDistance(target));
    ListedDistinct(values, byId);
    FilteredDistinct(values, minVersion, hash, excluded);
    ByDistanceIsPreorder(target);
    SortCorrect(eligible, ByDistance(target));
    StillDistinct(eligible, sorted);
    StrictlyFarther(sorted, target);
    hide DistinctIds, ByDistance;
    forall st: NodeState
      ensures st in sorted <==> st in values && Eligible(st.node, minVersion, hash, excluded)
    {
      FilteredIs(values, minVersion, hash, excluded, st);
      assert st in sorted <==> st in multiset(sorted);
      assert st in eligible <==> st in multiset(eligible);
    }
    OutwardIs(values, sorted, byId, target, hash, excluded, minVersion);
  }

  lemma ListedDistinct(values: seq<NodeState>, byId: ById)
    requires Lists(values, byId)
    ensures DistinctIds(values)
  {
  }

  lemma OutwardIs(values: seq<NodeState>, sorted: seq<NodeState>, byId: ById, target: KadId, hash: DestHash, excluded: nat, minVersion: nat)
    requires forall id :: id in byId ==> byId[id] in values && byId[id].node.id == id
    requires forall st :: st in values ==> st.node.id in byId && byId[st.node.id] == st
    requires forall st :: st in sorted <==> st in values && Eligible(st.node, minVersion, hash, excluded)
    requires forall i, j :: 0 <= i < j < |sorted| ==> Far(sorted[i], target) < Far(sorted[j], target)
    ensures Outward(sorted, byId, target, hash, excluded, minVersion)
  {
    hide Far;
    assert forall i :: 0 <= i < |sorted| ==> sorted[i] in sorted;
  }

  /** The identifiers of the first k states. */
  ghost function FirstIds(sorted: seq<NodeState>, k: nat): set<KadId>
    requires k <= |sorted|
  {
    if k == 0 then {} else FirstIds(sorted, k - 1) + {sorted[k - 1].node.id}
  }

  lemma {:induction false} FirstIdsHas(sorted: seq<NodeState>, k: nat, id: KadId)
    requires k <= |sorted|
    ensures id in FirstIds(sorted, k) <==> exists i :: 0 <= i < k && sorted[i].node.id == id
  {
    if k > 0 {
      FirstIdsHas(sorted, k - 1, id);
      assert id in FirstIds(sorted, k) <==> id in FirstIds(sorted, k - 1) || id == sorted[k - 1].node.id;
    }
  }

  lemma {:induction false} FirstIdsSize(sorted: seq<NodeState>, k: nat)
    requires k <= |sorted| && DistinctIds(sorted)
    ensures |FirstIds(sorted, k)| == k
  {
    if k > 0 {
      FirstIdsSize(sorted, k - 1);
      FirstIdsHas(sorted, k - 1, sorted[k - 1].node.id);
    }
  }

  lemma OutwardDistinct(sorted: seq<NodeState>, target: KadId)
    requires forall i, j :: 0 <= i < j < |sorted| ==> Far(sorted[i], target) < Far(sorted[j], target)
    ensures DistinctIds(sorted)
  {
    hide Distance;
    forall i, j | 0 <= i < j < |sorted|
      ensures sorted[i].node.id != sorted[j].node.id
    {
      assert Far(sorted[i], target) < Far(sorted[j], target);
    }
  }

  lemma Given(sorted: seq<NodeState>, byId: ById, target: KadId, max: nat, hash: DestHash, excluded: nat, minVersion: nat, id: KadId)
    requires Outward(sorted, byId, target, hash, excluded, minVersion) && id in byId
    ensures
        var node := byId[id].node;
        node in Nodes(Take(sorted, max)) <==>
          && node.version >= minVersion && hash(node.dest) != excluded
          && |Closer(byId, minVersion, hash, excluded, target, Distance(id, target))| < max
  {
    hide Far, Closer, Distance;
    OutwardDistinct(sorted, target);
    assert forall k :: 0 <= k < |sorted| ==> sorted[k].node.id in byId && byId[sorted[k].node.id] == sorted[k] && sorted[k] in sorted;
    TakenExactlyWhen(sorted, max, byId[id]);
    if byId[id] in sorted {
      var k :| 0 <= k < |sorted| && sorted[k] == byId[id];
      TakenBefore(sorted, max, k);
      CloserAre(sorted, byId, target, hash, excluded, minVersion, k);
      FirstIdsSize(sorted, k);
    }
  }

  /** The first ones are taken. */
  lemma TakenBefore(sorted: seq<NodeState>, max: nat, k: nat)
    requires DistinctIds(sorted) && k < |sorted|
    ensures sorted[k] in Take(sorted, max) <==> k < max
  {
    var out := Take(sorted, max);
    if k < max {
      assert out[k] == sorted[k];
    } else {
      forall i | 0 <= i < |out|
        ensures out[i] != sorted[k]
      {
        assert sorted[i].node.id != sorted[k].node.id;
      }
    }
  }

  lemma TakenExactlyWhen(sorted: seq<NodeState>, max: nat, st: NodeState)
    requires forall i :: 0 <= i < |sorted| && sorted[i].node == st.node ==> sorted[i] == st
    ensures st.node in Nodes(Take(sorted, max)) <==> st in Take(sorted, max)
    ensures st in Take(sorted, max) ==> st in sorted
  {
    var out := Take(sorted, max);
    NodesHas(out, st.node);
    assert forall i :: 0 <= i < |out| ==> out[i] == sorted[i];
  }

  lemma NodesHas(out: seq<NodeState>, node: Node)
    ensures node in Nodes(out) <==> exists i :: 0 <= i < |out| && out[i].node == node
  {
    var nodes := Nodes(out);
    if node in nodes {
      var i :| 0 <= i < |nodes| && nodes[i] == node;
      assert out[i].node == node;
    } else if exists i :: 0 <= i < |out| && out[i].node == node {
      var i :| 0 <= i < |out| && out[i].node == node;
      assert nodes[i] == node;
    }
  }

  lemma CloserAre(sorted: seq<NodeState>, byId: ById, target: KadId, hash: DestHash, excluded: nat, minVersion: nat, k: nat)
    requires Outward(sorted, byId, target, hash, excluded, minVersion) && k < |sorted|
    ensures Closer(byId, minVersion, hash, excluded, target, Distance(sorted[k].node.id, target)) == FirstIds(sorted, k)
  {
    hide Distance;
    var closer := Closer(byId, minVersion, hash, excluded, target, Distance(sorted[k].node.id, target));
    forall id | id in closer
      ensures id in FirstIds(sorted, k)
    {
      assert byId[id] in sorted;
      var i :| 0 <= i < |sorted| && sorted[i] == byId[id];
      assert !(k < i) && i != k;
      assert id == sorted[i].node.id;
      FirstIdsHas(sorted, k, id);
    }
    forall id | id in FirstIds(sorted, k)
      ensures id in closer
    {
      FirstIdsHas(sorted, k, id);
      var i :| 0 <= i < k && sorted[i].node.id == id;
      assert sorted[i] in sorted && Far(sorted[i], target) < Far(sorted[k], target);
    }
  }

  /** Which of two nodes goes first when the table is full. Three failures are worst; then being
      unverified; then not having been heard in the last ten minutes, or having failed since;
      then more failures, never having been heard, no datagram key, and being seen longer ago. */
  lemma RankInFields(a: NodeState, b: NodeState, now: nat)
    ensures
        var first := RankLe(a, b, now) && !RankLe(b, a, now);
        var lively := (st: NodeState) => st.node.verified && st.failures == 0 && st.lastInbound.Some? && now <= st.lastInbound.value + 600_000_000_000;
        && (a.failures >= 3 && b.failures < 3 ==> first)
        && (a.failures < 3 && b.failures < 3 && !a.node.verified && b.node.verified ==> first)
        && (a.failures < 3 && b.failures < 3 && !lively(a) && lively(b) ==> first)
        && ((a.failures >= 3 && b.failures >= 3)
             || (a.failures < 3 && b.failures < 3 && a.node.verified == b.node.verified && lively(a) == lively(b)) ==>
             && (a.failures > b.failures ==> first)
             && (a.failures == b.failures && a.lastInbound.None? && b.lastInbound.Some? ==> first)
             && (a.failures == b.failures && a.lastInbound.Some? == b.lastInbound.Some? ==>
                   && (!a.node.verified && b.node.verified ==> first)
                   && (a.node.verified == b.node.verified && a.node.udpKey == 0 && b.node.udpKey != 0 ==> first)
                   && (a.node.verified == b.node.verified && (a.node.udpKey == 0) == (b.node.udpKey == 0) ==>
                         && (a.lastSeen < b.lastSeen ==> first)
                         && (a.lastSeen == b.lastSeen ==> RankLe(a, b, now) && RankLe(b, a, now)))))
  {
  }

  /** Which nodes are evicted: those that failed often enough and were not seen for long enough. */
  lemma StaleInFields(st: NodeState, now: nat, maxFailures: nat, maxAge: nat)
    ensures Stale(st, now, maxFailures, maxAge) <==>
      st.failures >= maxFailures && (st.lastSeen + maxAge <= now || (maxAge == 0 && now < st.lastSeen))
  {
  }
}
