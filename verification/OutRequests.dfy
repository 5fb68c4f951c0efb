/** Matching responses to the requests sent out: `track_outgoing_request` and
    `consume_tracked_out_request` of `src/kad/service.rs`. Times are nanoseconds. */
module OutRequests {
  import opened Wrappers

  const TTL: nat := 180_000_000_000
  const U64_MAX: nat := 0xFFFF_FFFF_FFFF_FFFF

  const BOOTSTRAP_REQ: nat := 0x0D
  const BOOTSTRAP_RES: nat := 0x0E
  const HELLO_REQ: nat := 0x0F
  const HELLO_RES: nat := 0x10
  const REQ: nat := 0x11
  const HELLO_RES_ACK: nat := 0x12
  const RES: nat := 0x13
  const SEARCH_KEY_REQ: nat := 0x14
  const SEARCH_SOURCE_REQ: nat := 0x15
  const SEARCH_RES: nat := 0x17
  const PUBLISH_KEY_REQ: nat := 0x18
  const PUBLISH_SOURCE_REQ: nat := 0x19
  const PUBLISH_RES: nat := 0x1B
  const PING: nat := 0x1E
  const PONG: nat := 0x1F
  const HELLO_REQ_DEPRECATED: nat := 0x03
  const REQ_DEPRECATED: nat := 0x05
  const RES_DEPRECATED: nat := 0x06

  /** `canonical_request_opcode`. */
  function Canonical(opcode: nat): Option<nat> {
    if opcode == HELLO_REQ_DEPRECATED then Some(HELLO_REQ)
    else if opcode == REQ_DEPRECATED then Some(REQ)
    else if opcode in {BOOTSTRAP_REQ, HELLO_REQ, HELLO_RES, REQ, SEARCH_KEY_REQ, SEARCH_SOURCE_REQ,
                       PUBLISH_KEY_REQ, PUBLISH_SOURCE_REQ, PING} then Some(opcode)
    else None
  }

  /** `response_expected_request_opcodes`: a publish answer of 17 bytes is for a keyword. */
  function Expected(response: nat, payloadLen: nat): Option<set<nat>> {
    if response == BOOTSTRAP_RES then Some({BOOTSTRAP_REQ})
    else if response == HELLO_RES then Some({HELLO_REQ})
    else if response == HELLO_RES_ACK then Some({HELLO_RES})
    else if response == RES || response == RES_DEPRECATED then Some({REQ})
    else if response == SEARCH_RES then Some({SEARCH_KEY_REQ, SEARCH_SOURCE_REQ})
    else if response == PONG then Some({PING})
    else if response == PUBLISH_RES then
      if payloadLen == 17 then Some({PUBLISH_KEY_REQ}) else Some({PUBLISH_SOURCE_REQ, PUBLISH_KEY_REQ})
    else None
  }

  datatype Request = Request(dest: string, opcode: nat, at: nat)

  /** A response that was taken as the answer to the index-th request ever tracked. */
  datatype Match = Match(index: nat, dest: string, response: nat, payloadLen: nat, at: nat)

  ghost predicate Answers(m: Match, all: seq<Request>) {
    && m.index < |all|
    && all[m.index].dest == m.dest
    && Expected(m.response, m.payloadLen).Some? && all[m.index].opcode in Expected(m.response, m.payloadLen).value
    && all[m.index].at <= m.at <= all[m.index].at + TTL
  }

  /** The live requests are the tracked ones at these increasing positions. */
  ghost predicate Positions(requests: seq<Request>, index: seq<nat>, all: seq<Request>) {
    && |index| == |requests|
    && (forall k :: 0 <= k < |index| ==> index[k] < |all| && requests[k] == all[index[k]])
    && (forall j, k :: 0 <= j < k < |index| ==> index[j] < index[k])
  }

  /** Each answer has its own request, and no answered request is live. */
  ghost predicate OneToOne(matches: seq<Match>, index: seq<nat>, all: seq<Request>) {
    && (forall i :: 0 <= i < |matches| ==> Answers(matches[i], all))
    && (forall i, j :: 0 <= i < j < |matches| ==> matches[i].index != matches[j].index)
    && (forall i, k :: 0 <= i < |matches| && 0 <= k < |index| ==> matches[i].index != index[k])
  }

  ghost predicate AllBefore(all: seq<Request>, clock: nat) {
    forall i :: 0 <= i < |all| ==> all[i].at <= clock
  }

  predicate Records(m: Match, dest: string, response: nat, payloadLen: nat, now: nat) {
    m.dest == dest && m.response == response && m.payloadLen == payloadLen && m.at == now
  }

  predicate Fits(r: Request, dest: string, expected: set<nat>) {
    r.dest == dest && r.opcode in expected
  }

  class OutTracker {
    var requests: seq<Request>
    var nextId: nat
    var expired: nat
    var matched: nat
    var unmatched: nat

    /** Every request ever tracked, which of them are live, and every answer taken. */
    ghost var all: seq<Request>
    ghost var index: seq<nat>
    ghost var matches: seq<Match>
    ghost var clock: nat

    ghost predicate Valid()
      reads this
    {
      && Positions(requests, index, all) && OneToOne(matches, index, all)
      && AllBefore(all, clock)
      && matched == |matches|
      && |all| == |requests| + matched + expired
    }

    constructor (now: nat)
      ensures Valid() && all == [] && matches == [] && clock == now
    {
      requests, nextId, expired, matched, unmatched := [], 1, 0, 0, 0;
      all, index, matches, clock := [], [], [], now;
    }

    /** `cleanup_tracked_out_requests`. */
    method Cleanup(now: nat)
      requires Valid() && clock <= now
      modifies this`requests, this`expired, this`index, this`clock
      ensures Valid() && clock == now
      ensures requests == Fresh(old(requests), now)
      ensures forall k :: 0 <= k < |requests| ==> now <= requests[k].at + TTL
    {
      hide Positions, OneToOne, Fresh, FreshIndex;
      FreshKeeps(requests, index, all, matches, now);
      var kept := Fresh(requests, now);
      expired := expired + (|requests| - |kept|);
      index := FreshIndex(requests, index, now);
      requests, clock := kept, now;
    }

    /** `track_outgoing_request`. */
    method Track(dest: string, opcode: nat, now: nat) returns (id: Option<nat>)
      requires Valid() && clock <= now
      modifies this
      ensures Valid() && matches == old(matches)
      ensures Canonical(opcode).None? ==> id.None? && all == old(all) && requests == old(requests)
      ensures Canonical(opcode).Some? ==>
        && id == Some(old(nextId)) && clock == now
        && all == old(all) + [Request(dest, Canonical(opcode).value, now)]
        && requests == Fresh(old(requests), now) + [Request(dest, Canonical(opcode).value, now)]
    {
      hide Positions, OneToOne, Fresh, Canonical, AllBefore;
      var canonical := Canonical(opcode);
      if canonical.None? {
        return None;
      }
      Cleanup(now);
      TrackKeeps(requests, index, all, matches, Request(dest, canonical.value, now));
      id := Some(nextId);
      nextId := if nextId < U64_MAX then nextId + 1 else nextId;
      requests := requests + [Request(dest, canonical.value, now)];
      index := index + [|all|];
      all := all + [Request(dest, canonical.value, now)];
    }

    /** `consume_tracked_out_request`: the first live request that the response answers is
        taken off; a message that is no response passes. */
    method Consume(dest: string, response: nat, payloadLen: nat, now: nat) returns (ok: bool)
      requires Valid() && clock <= now
      modifies this
      ensures Valid() && clock == now && all == old(all)
      ensures Expected(response, payloadLen).None? ==> ok && matches == old(matches) && requests == Fresh(old(requests), now)
      ensures Expected(response, payloadLen).Some? ==>
        var expected, live := Expected(response, payloadLen).value, Fresh(old(requests), now);
        && (ok <==> exists k :: 0 <= k < |live| && Fits(live[k], dest, expected))
        && (!ok ==> matches == old(matches) && requests == live)
        && (ok ==>
              && |matches| == |old(matches)| + 1 && matches[..|old(matches)|] == old(matches)
              && Records(matches[|old(matches)|], dest, response, payloadLen, now)
              && (exists k :: 0 <= k < |live| && requests == live[..k] + live[k + 1..]
                    && Fits(live[k], dest, expected) && forall j :: 0 <= j < k ==> !Fits(live[j], dest, expected)))
    {
      hide Expected;
      Cleanup(now);
      var expected := Expected(response, payloadLen);
      if expected.None? {
        return true;
      }
      for k := 0 to |requests|
        invariant forall j :: 0 <= j < k ==> !Fits(requests[j], dest, expected.value)
      {
        if Fits(requests[k], dest, expected.value) {
          ghost var m := Match(index[k], dest, response, payloadLen, now);
          TakeOff(requests, index, all, matches, m, k);
          matches := matches + [m];
          requests := requests[..k] + requests[k + 1..];
          index := index[..k] + index[k + 1..];
          matched := matched + 1;
          return true;
        }
      }
      unmatched := unmatched + 1;
      return false;
    }
  }

  /** The requests not yet too old. */
  function Fresh(requests: seq<Request>, now: nat): seq<Request> {
    if requests == [] then []
    else
      var last := requests[|requests| - 1];
      Fresh(requests[..|requests| - 1], now) + if now <= last.at + TTL then [last] else []
  }

  /** Their positions among all requests. */
  ghost function FreshIndex(requests: seq<Request>, index: seq<nat>, now: nat): (r: seq<nat>)
    requires |index| == |requests|
    decreases |requests|
  {
    if requests == [] then []
    else
      var n := |requests| - 1;
      FreshIndex(requests[..n], index[..n], now) + if now <= requests[n].at + TTL then [index[n]] else []
  }

  /** Dropping what is too old leaves a subsequence. */
  lemma {:induction false} FreshIsPart(requests: seq<Request>, index: seq<nat>, all: seq<Request>, now: nat)
    requires Positions(requests, index, all) && |index| == |requests|
    ensures |Fresh(requests, now)| <= |requests|
    ensures Positions(Fresh(requests, now), FreshIndex(requests, index, now), all)
    ensures forall k :: 0 <= k < |Fresh(requests, now)| ==> now <= Fresh(requests, now)[k].at + TTL
    ensures forall p :: p in FreshIndex(requests, index, now) ==> p in index
    decreases |requests|
  {
    hide Positions;
    NoPositions(all);
    if requests != [] {
      var n := |requests| - 1;
      PositionsPrefix(requests, index, all);
      FreshIsPart(requests[..n], index[..n], all, now);
      var kept, keptIndex := Fresh(requests[..n], now), FreshIndex(requests[..n], index[..n], now);
      if now <= requests[n].at + TTL {
        PositionsAppend(kept, keptIndex, index[..n], all, requests[n], index[n]);
      } else {
        assert kept + [] == kept && keptIndex + [] == keptIndex;
      }
    }
  }

  lemma NoPositions(all: seq<Request>)
    ensures Positions([], [], all)
  {
  }

  lemma PositionsPrefix(requests: seq<Request>, index: seq<nat>, all: seq<Request>)
    requires Positions(requests, index, all) && requests != []
    ensures
        var n := |requests| - 1;
        && |index| == n + 1 && Positions(requests[..n], index[..n], all)
        && index[n] < |all| && requests[n] == all[index[n]]
        && forall p :: p in index[..n] ==> p < index[n]
  {
  }

  lemma PositionsAppend(requests: seq<Request>, index: seq<nat>, within: seq<nat>, all: seq<Request>, r: Request, p: nat)
    requires Positions(requests, index, all) && p < |all| && all[p] == r
    requires (forall q :: q in index ==> q in within) && forall q :: q in within ==> q < p
    ensures Positions(requests + [r], index + [p], all)
  {
    forall k | 0 <= k < |index|
      ensures index[k] < p
    {
      assert index[k] in within;
    }
  }

  lemma FreshKeeps(requests: seq<Request>, index: seq<nat>, all: seq<Request>, matches: seq<Match>, now: nat)
    requires Positions(requests, index, all) && OneToOne(matches, index, all)
    ensures |index| == |requests| && |Fresh(requests, now)| <= |requests|
    ensures Positions(Fresh(requests, now), FreshIndex(requests, index, now), all)
    ensures OneToOne(matches, FreshIndex(requests, index, now), all)
    ensures forall k :: 0 <= k < |Fresh(requests, now)| ==> now <= Fresh(requests, now)[k].at + TTL
  {
    hide Answers, Fresh, FreshIndex;
    FreshIsPart(requests, index, all, now);
    var kept := FreshIndex(requests, index, now);
    forall i, k | 0 <= i < |matches| && 0 <= k < |kept|
      ensures matches[i].index != kept[k]
    {
      assert kept[k] in index;
    }
  }

  /** A new request is live and stands behind all others. */
  lemma TrackKeeps(requests: seq<Request>, index: seq<nat>, all: seq<Request>, matches: seq<Match>, r: Request)
    requires Positions(requests, index, all) && OneToOne(matches, index, all) && AllBefore(all, r.at)
    ensures Positions(requests + [r], index + [|all|], all + [r])
    ensures OneToOne(matches, index + [|all|], all + [r]) && AllBefore(all + [r], r.at)
  {
  }

  lemma TakeOff(requests: seq<Request>, index: seq<nat>, all: seq<Request>, matches: seq<Match>, m: Match, k: nat)
    requires Positions(requests, index, all) && OneToOne(matches, index, all)
    requires k < |requests| && m.index == index[k] && Answers(m, all)
    ensures Positions(requests[..k] + requests[k + 1..], index[..k] + index[k + 1..], all)
    ensures OneToOne(matches + [m], index[..k] + index[k + 1..], all)
  {
    hide Answers;
    var rest := index[..k] + index[k + 1..];
    var others := requests[..k] + requests[k + 1..];
    forall i | 0 <= i < |rest|
      ensures rest[i] == index[if i < k then i else i + 1] && others[i] == requests[if i < k then i else i + 1]
    {
    }
  }
}
