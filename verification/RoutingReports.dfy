/** What a report does to the routing table, said in the fields of the entries before and after:
    above all that nobody replaces the datagram key of a node by reporting another one. */
module RoutingReports {
  import opened Wrappers
  import opened WireReader
  import opened Distances
  import opened Routing

  /** Reports never replace a datagram key: whatever is reported, a known node that stays keeps
      its key and the owner of it, and a report of itself with another key changes nothing. */
  lemma KeyIsKept(myId: KadId, byId: ById, byDest: ByDest, node: Node, now: nat, id: KadId)
    requires id in byId && byId[id].node.udpKey != 0
    ensures
        var after := Upserted(myId, byId, byDest, node, now).byId;
        id in after ==> after[id].node.udpKey == byId[id].node.udpKey && after[id].node.keyOwner == byId[id].node.keyOwner
    ensures node.id == id && node.udpKey != 0 && node.udpKey != byId[id].node.udpKey ==>
      Upserted(myId, byId, byDest, node, now).byId == byId && Upserted(myId, byId, byDest, node, now).byDest == byDest
  {
    hide KeepsExisting;
  }

  /** Reports of a known node that change nothing at all: from another destination, of a verified
      node or of a newer version; with another key; or, of a node before version 6 that sent a
      HELLO, with another destination or version. */
  predicate Suspect(known: NodeState, node: Node) {
    var moved := known.dest != node.dest;
    || (moved && (known.node.verified || node.version < known.node.version))
    || (known.node.udpKey != 0 && node.udpKey != 0 && known.node.udpKey != node.udpKey)
    || (1 <= known.node.version <= 5 && known.receivedHello && (moved || known.node.version != node.version))
  }

  /** The node at the destination of a report, another one, stands its ground. */
  predicate Defended(byId: ById, byDest: ByDest, node: Node) {
    && node.dest in byDest && byDest[node.dest] != node.id && byDest[node.dest] in byId
    && var other := byId[byDest[node.dest]].node;
       other.verified || (!node.verified && other.version >= node.version)
  }

  /** What a report makes of a known node. */
  lemma KnownAfterReport(myId: KadId, byId: ById, byDest: ByDest, node: Node, now: nat)
    requires node.id in byId && node.id != ZERO_ID && node.id != myId
    ensures
        var t := Upserted(myId, byId, byDest, node, now);
        var was := byId[node.id];
        && t.outcome == Updated && node.id in t.byId
        && (if Suspect(was, node) || Defended(byId, byDest, node) then t.byId[node.id] == was
            else
              var st := t.byId[node.id];
              && st == was.(node := st.node, lastSeen := now, failures := 0)
              && st.node.id == was.node.id && st.node.dest == was.node.dest
              && (if 1 <= was.node.version <= 5 && was.receivedHello then st.node == was.node
                  else
                    && st.node.version >= was.node.version && st.node.version >= node.version
                    && (st.node.version == was.node.version || st.node.version == node.version)
                    && (st.node.verified <==> was.node.verified || node.verified)
                    && (st.node.udpKey, st.node.keyOwner)
                         == if was.node.udpKey == 0 && node.udpKey != 0 then (node.udpKey, node.keyOwner)
                            else (was.node.udpKey, was.node.keyOwner))
              && node.dest in t.byDest && t.byDest[node.dest] == node.id)
  {
  }

  /** A report that is suspect changes nothing at all. */
  lemma SuspectChangesNothing(myId: KadId, byId: ById, byDest: ByDest, node: Node, now: nat)
    requires node.id in byId && node.id != ZERO_ID && node.id != myId && Suspect(byId[node.id], node)
    ensures Upserted(myId, byId, byDest, node, now) == Table(Updated, byId, byDest)
  {
  }

  /** What a report makes of a node not known before: it is taken in as reported, unless the
      node at its destination stands its ground. */
  lemma NewAfterReport(myId: KadId, byId: ById, byDest: ByDest, node: Node, now: nat)
    requires node.id !in byId && node.id != ZERO_ID && node.id != myId
    ensures
        var t := Upserted(myId, byId, byDest, node, now);
        if Defended(byId, byDest, node) then t == Table(Updated, byId, byDest)
        else
          && t.outcome == Inserted && node.id in t.byId && node.dest in t.byDest && t.byDest[node.dest] == node.id
          && t.byId[node.id] == NodeState(node, node.dest, now, None, None, false, 0)
  {
  }

  /** What a report makes of the others: they stay as they are, except the one at its destination
      when it does not stand its ground. */
  lemma OthersAfterReport(myId: KadId, byId: ById, byDest: ByDest, node: Node, now: nat, id: KadId)
    requires id != node.id
    ensures
        var t := Upserted(myId, byId, byDest, node, now);
        && (id in t.byId ==> id in byId && t.byId[id] == byId[id])
        && (id in byId && id !in t.byId <==>
              && id in byId && node.dest in byDest && byDest[node.dest] == id && !Defended(byId, byDest, node)
              && node.id != ZERO_ID && node.id != myId && !(node.id in byId && Suspect(byId[node.id], node)))
    ensures node.id == ZERO_ID || node.id == myId ==>
      Upserted(myId, byId, byDest, node, now) == Table(if node.id == ZERO_ID then IgnoredZeroId else IgnoredSelf, byId, byDest)
  {
  }

  ghost predicate KeyAt(byId: ById, id: KadId, key: nat, owner: nat) {
    id in byId && byId[id].node.udpKey == key && byId[id].node.keyOwner == owner
  }

  /** The event tells the keys of the node: its sender showed another key. */
  ghost predicate Rekeys(byDest: ByDest, e: Event, id: KadId, key: nat) {
    && e.Learn? && e.mark.SenderKeys? && e.dest in byDest && byDest[e.dest] == id
    && e.mark.key != 0 && e.mark.key != key
  }

  /** What one event does to a key. */
  lemma StepKey(myId: KadId, byId: ById, byDest: ByDest, e: Event, id: KadId, key: nat, owner: nat)
    requires KeyAt(byId, id, key, owner) && key != 0
    ensures
        var after := Happened(myId, byId, byDest, e).0;
        id in after ==>
          if Rekeys(byDest, e, id, key) then KeyAt(after, id, e.mark.key, e.mark.owner) else KeyAt(after, id, key, owner)
  {
    hide Upserted, DestsOf;
    if e.Hear? {
      KeyIsKept(myId, byId, byDest, e.node, e.now, id);
    }
  }

  /** Over whole runs: as long as a node stays in the table, its datagram key and the owner of
      it change only when its sender shows another key. */
  lemma {:induction false} KeyUntilShown(myId: KadId, events: seq<Event>, from: nat, id: KadId, key: nat, owner: nat)
    requires from <= |events| && key != 0 && KeyAt(Run(myId, events[..from]).0, id, key, owner)
    requires forall k :: from <= k <= |events| ==> id in Run(myId, events[..k]).0
    requires forall k :: from <= k < |events| ==> !Rekeys(Run(myId, events[..k]).1, events[k], id, key)
    ensures KeyAt(Run(myId, events).0, id, key, owner)
    decreases |events|
  {
    if from == |events| {
      assert events[..from] == events;
    } else {
      var n := |events| - 1;
      hide KeyAt, Happened, Run, Rekeys;
      assert forall k :: from <= k <= n ==> events[..n][..k] == events[..k];
      KeyUntilShown(myId, events[..n], from, id, key, owner);
      RunNext(myId, events, n);
      assert events[..n + 1] == events;
      var (byId, byDest) := Run(myId, events[..n]);
      StepKey(myId, byId, byDest, events[n], id, key, owner);
    }
  }

  /** What is learned about a node: hearing from it, a HELLO and its keys refresh its times and
      forget its failures; a query only notes its time, a failure only counts. */
  lemma MarksInFields(st: NodeState, now: nat, key: nat, owner: nat, verified: bool)
    ensures Marked(st, Heard, now) == st.(lastSeen := now, lastInbound := Some(now), failures := 0)
    ensures Marked(st, ReceivedHello, now) == st.(lastSeen := now, lastInbound := Some(now), failures := 0, receivedHello := true)
    ensures Marked(st, Queried, now) == st.(lastQueried := Some(now))
    ensures Marked(st, Failed, now) == st.(failures := if st.failures < 0xFFFF_FFFF then st.failures + 1 else st.failures)
    ensures
        var after := Marked(st, SenderKeys(key, owner, verified), now);
        && after == st.(node := after.node, lastSeen := now, lastInbound := Some(now), failures := 0)
        && after.node == st.node.(udpKey := after.node.udpKey, keyOwner := after.node.keyOwner, verified := st.node.verified || verified)
        && (after.node.udpKey, after.node.keyOwner)
             == if key == 0 || key == st.node.udpKey then (st.node.udpKey, st.node.keyOwner) else (key, owner)
  {
  }
}
