/** The nodes closest to a target: `closest_to` and its variant of `src/kad/routing.rs`. */
module Closest {
  import opened Wrappers
  import opened WireReader
  import opened Distances
  import opened Sorting
  import opened Routing

  /** The hash of a destination, as the caller excludes nodes by. */
  type DestHash = string -> nat

  /** The states of the table, in the order of the table. */
  ghost predicate Lists(values: seq<NodeState>, byId: ById) {
    && (forall i :: 0 <= i < |values| ==> values[i].node.id in byId && byId[values[i].node.id] == values[i])
    && (forall i, j :: 0 <= i < j < |values| ==> values[i].node.id != values[j].node.id)
    && (forall id :: id in byId ==> exists i :: 0 <= i < |values| && values[i].node.id == id)
  }

  predicate Eligible(n: Node, minVersion: nat, hash: DestHash, excluded: nat) {
    n.version >= minVersion && hash(n.dest) != excluded
  }

  function Filtered(values: seq<NodeState>, minVersion: nat, hash: DestHash, excluded: nat): seq<NodeState> {
    if values == [] then []
    else
      var st := values[|values| - 1];
      Filtered(values[..|values| - 1], minVersion, hash, excluded)
      + if Eligible(st.node, minVersion, hash, excluded) then [st] else []
  }

  function Far(st: NodeState, target: KadId): nat {
    Distance(st.node.id, target)
  }

  function ByDistance(target: KadId): (NodeState, NodeState) -> bool {
    (a, b) => Far(a, target) <= Far(b, target)
  }

  predicate RecentInbound(st: NodeState, now: nat, window: nat) {
    st.lastInbound.Some? && (if now < st.lastInbound.value then 0 else now - st.lastInbound.value) <= window
  }

  /** `None` comes before every time. */
  predicate TimeLess(a: Option<nat>, b: Option<nat>) {
    (a.None? && b.Some?) || (a.Some? && b.Some? && a.value < b.value)
  }

  /** Distance first; then the recently live, the least recently queried, the last seen. */
  predicate LiveLe(a: NodeState, b: NodeState, target: KadId, now: nat, window: nat) {
    if Far(a, target) != Far(b, target) then Far(a, target) < Far(b, target)
    else if RecentInbound(a, now, window) != RecentInbound(b, now, window) then RecentInbound(a, now, window)
    else if a.lastQueried != b.lastQueried then TimeLess(a.lastQueried, b.lastQueried)
    else a.lastSeen >= b.lastSeen
  }

  function ByDistanceThenLive(target: KadId, now: nat, window: nat): (NodeState, NodeState) -> bool {
    (a, b) => LiveLe(a, b, target, now, window)
  }

  function Nodes(values: seq<NodeState>): (r: seq<Node>)
    ensures |r| == |values| && forall i :: 0 <= i < |values| ==> r[i] == values[i].node
  {
    seq(|values|, i requires 0 <= i < |values| => values[i].node)
  }

  function Take<T>(s: seq<T>, max: nat): seq<T> {
    if max < |s| then s[..max] else s
  }

  function ClosestStates(values: seq<NodeState>, target: KadId, max: nat, hash: DestHash, excluded: nat): seq<NodeState> {
    Take(SortBy(Filtered(values, 1, hash, excluded), ByDistance(target)), max)
  }

  function ClosestTo(values: seq<NodeState>, target: KadId, max: nat, hash: DestHash, excluded: nat): seq<Node> {
    Nodes(ClosestStates(values, target, max, hash, excluded))
  }

  function ClosestPreferLive(values: seq<NodeState>, target: KadId, max: nat, hash: DestHash, excluded: nat,
                             now: nat, window: nat, minVersion: nat): seq<Node> {
    Nodes(Take(SortBy(Filtered(values, minVersion, hash, excluded), ByDistanceThenLive(target, now, window)), max))
  }

  lemma {:induction false} FilteredIs(values: seq<NodeState>, minVersion: nat, hash: DestHash, excluded: nat, st: NodeState)
    ensures st in Filtered(values, minVersion, hash, excluded) <==> st in values && Eligible(st.node, minVersion, hash, excluded)
  {
    hide Eligible;
    if values != [] {
      var n := |values| - 1;
      FilteredIs(values[..n], minVersion, hash, excluded, st);
      assert st in values <==> st in values[..n] || st == values[n];
    }
  }

  ghost predicate DistinctIds(values: seq<NodeState>) {
    forall i, j :: 0 <= i < j < |values| ==> values[i].node.id != values[j].node.id
  }

  lemma {:induction false} FilteredDistinct(values: seq<NodeState>, minVersion: nat, hash: DestHash, excluded: nat)
    requires DistinctIds(values)
    ensures DistinctIds(Filtered(values, minVersion, hash, excluded))
  {
    hide Eligible;
    if values != [] {
      var n := |values| - 1;
      var front := Filtered(values[..n], minVersion, hash, excluded);
      FilteredDistinct(values[..n], minVersion, hash, excluded);
      forall i | 0 <= i < |front|
        ensures front[i].node.id != values[n].node.id
      {
        FilteredIs(values[..n], minVersion, hash, excluded, front[i]);
      }
    }
  }

  lemma ByDistanceIsPreorder(target: KadId)
    ensures Preorder(ByDistance(target))
  {
    hide Far;
  }

  /** A rearrangement of states with distinct identifiers has distinct identifiers. */
  lemma StillDistinct(s: seq<NodeState>, t: seq<NodeState>)
    requires DistinctIds(s) && multiset(s) == multiset(t)
    ensures DistinctIds(t)
  {
    Rearranged(s, t);
    forall i, j | 0 <= i < j < |t|
      ensures t[i].node.id != t[j].node.id
    {
      assert t[i] in s && t[j] in s && t[i] != t[j];
    }
  }

  /** The result of `closest_to`: as many eligible nodes as there are up to the maximum, in
      strictly increasing distance, and every eligible node left out is farther away. */
  lemma ClosestIsNearest(values: seq<NodeState>, byId: ById, target: KadId, max: nat, hash: DestHash, excluded: nat)
    requires Lists(values, byId)
    ensures
        var out := ClosestStates(values, target, max, hash, excluded);
        var eligible := Filtered(values, 1, hash, excluded);
        && |out| == (if max < |eligible| then max else |eligible|)
        && OutwardEligible(out, byId, target, hash, excluded)
        && (forall id, i :: id in byId && Eligible(byId[id].node, 1, hash, excluded) && byId[id] !in out && 0 <= i < |out| ==>
              Far(out[i], target) < Far(byId[id], target))
  {
    hide Eligible, Far, Filtered, Lists, SortBy, ByDistance;
    var sorted := SortBy(Filtered(values, 1, hash, excluded), ByDistance(target));
    SortedEligible(values, byId, target, hash, excluded);
    var out := ClosestStates(values, target, max, hash, excluded);
    TakeOutward(sorted, byId, target, hash, excluded, max);
    forall id, i | id in byId && Eligible(byId[id].node, 1, hash, excluded) && byId[id] !in out && 0 <= i < |out|
      ensures Far(out[i], target) < Far(byId[id], target)
    {
      EligibleIsSorted(values, byId, target, hash, excluded, id);
      var k :| 0 <= k < |sorted| && sorted[k] == byId[id];
    }
  }

  /** Eligible nodes of the table by strictly increasing distance. */
  ghost predicate OutwardEligible(s: seq<NodeState>, byId: ById, target: KadId, hash: DestHash, excluded: nat) {
    && (forall i :: 0 <= i < |s| ==> s[i].node.id in byId && Eligible(s[i].node, 1, hash, excluded))
    && (forall i, j :: 0 <= i < j < |s| ==> Far(s[i], target) < Far(s[j], target))
  }

  lemma SortedEligible(values: seq<NodeState>, byId: ById, target: KadId, hash: DestHash, excluded: nat)
    requires Lists(values, byId)
    ensures OutwardEligible(SortBy(Filtered(values, 1, hash, excluded), ByDistance(target)), byId, target, hash, excluded)
  {
    hide Eligible, Far, Filtered, ByDistance, SortBy;
    var eligible := Filtered(values, 1, hash, excluded);
    var sorted := SortBy(eligible, ByDistance(target));
    FilteredDistinct(values, 1, hash, excluded);
    ByDistanceIsPreorder(target);
    SortCorrect(eligible, ByDistance(target));
    StillDistinct(eligible, sorted);
    StrictlyFarther(sorted, target);
    forall i | 0 <= i < |sorted|
      ensures sorted[i].node.id in byId && Eligible(sorted[i].node, 1, hash, excluded)
    {
      assert sorted[i] in multiset(eligible);
      FilteredIs(values, 1, hash, excluded, sorted[i]);
    }
  }

  lemma TakeOutward(s: seq<NodeState>, byId: ById, target: KadId, hash: DestHash, excluded: nat, max: nat)
    requires OutwardEligible(s, byId, target, hash, excluded)
    ensures OutwardEligible(Take(s, max), byId, target, hash, excluded)
  {
    hide Eligible, Far;
  }

  lemma EligibleIsSorted(values: seq<NodeState>, byId: ById, target: KadId, hash: DestHash, excluded: nat, id: KadId)
    requires Lists(values, byId) && id in byId && Eligible(byId[id].node, 1, hash, excluded)
    ensures byId[id] in SortBy(Filtered(values, 1, hash, excluded), ByDistance(target))
  {
    hide Eligible, Filtered, ByDistance, SortBy;
    var eligible := Filtered(values, 1, hash, excluded);
    ByDistanceIsPreorder(target);
    SortCorrect(eligible, ByDistance(target));
    ListedIsIn(values, byId, id);
    FilteredIs(values, 1, hash, excluded, byId[id]);
    assert byId[id] in multiset(SortBy(eligible, ByDistance(target)));
  }

  lemma ListedIsIn(values: seq<NodeState>, byId: ById, id: KadId)
    requires Lists(values, byId) && id in byId
    ensures byId[id] in values
  {
    var i :| 0 <= i < |values| && values[i].node.id == id;
    assert values[i] == byId[id];
  }

  lemma StrictlyFarther(sorted: seq<NodeState>, target: KadId)
    requires DistinctIds(sorted) && Ascending(sorted, ByDistance(target))
    ensures forall i, j :: 0 <= i < j < |sorted| ==> Far(sorted[i], target) < Far(sorted[j], target)
  {
    forall i, j | 0 <= i < j < |sorted|
      ensures Far(sorted[i], target) < Far(sorted[j], target)
    {
      assert ByDistance(target)(sorted[i], sorted[j]);
      if Far(sorted[i], target) == Far(sorted[j], target) {
        DistanceInjective(sorted[i].node.id, sorted[j].node.id, target);
      }
    }
  }

  /** Liveness never decides: with minimum version 1, the variant that prefers live nodes at
      equal distance returns the same list, because no two nodes are at equal distance. */
  lemma PreferLiveIsClosest(values: seq<NodeState>, byId: ById, target: KadId, max: nat, hash: DestHash, excluded: nat,
                            now: nat, window: nat)
    requires Lists(values, byId)
    ensures ClosestPreferLive(values, target, max, hash, excluded, now, window, 1)
         == ClosestTo(values, target, max, hash, excluded)
  {
    hide Eligible, Filtered;
    var eligible := Filtered(values, 1, hash, excluded);
    FilteredDistinct(values, 1, hash, excluded);
    ByDistanceIsPreorder(target);
    forall a, b | a in eligible && b in eligible && a != b
      ensures ByDistance(target)(a, b) == ByDistanceThenLive(target, now, window)(a, b)
    {
      if Far(a, target) == Far(b, target) {
        DistanceInjective(a.node.id, b.node.id, target);
        SameIdSameState(eligible, a, b);
      }
    }
    SortAgrees(eligible, ByDistance(target), ByDistanceThenLive(target, now, window));
  }

  lemma SameIdSameState(s: seq<NodeState>, a: NodeState, b: NodeState)
    requires DistinctIds(s) && a in s && b in s && a.node.id == b.node.id
    ensures a == b
  {
  }
}
