/** Requests, their answers and their limits by the opcodes on the wire. */
module RequestNumbers {
  import opened Wrappers
  import opened Windows
  import opened OutRequests
  import opened InRequests

  /** Every answer that was ever taken is one to a request to the same destination, at most three
      minutes older, whose opcode goes with it. */
  lemma AnswersInNumbers(tracker: OutTracker, i: nat)
    requires tracker.Valid() && i < |tracker.matches|
    ensures tracker.matches[i].index < |tracker.all|
    ensures
        var m := tracker.matches[i];
        var r := tracker.all[m.index];
        && r.dest == m.dest && r.at <= m.at <= r.at + 180_000_000_000
        && m.response in {0x0E, 0x10, 0x12, 0x13, 0x06, 0x17, 0x1F, 0x1B}
        && (m.response == 0x0E ==> r.opcode == 0x0D)
        && (m.response == 0x10 ==> r.opcode == 0x0F)
        && (m.response == 0x12 ==> r.opcode == 0x10)
        && (m.response == 0x13 || m.response == 0x06 ==> r.opcode == 0x11)
        && (m.response == 0x17 ==> r.opcode == 0x14 || r.opcode == 0x15)
        && (m.response == 0x1F ==> r.opcode == 0x1E)
        && (m.response == 0x1B && m.payloadLen == 17 ==> r.opcode == 0x18)
        && (m.response == 0x1B && m.payloadLen != 17 ==> r.opcode == 0x18 || r.opcode == 0x19)
  {
    assert Answers(tracker.matches[i], tracker.all);
  }

  /** A message is taken for an answer exactly when its opcode is one of eight, and these are the
      requests it may answer. */
  lemma AnsweredInNumbers(response: nat, payloadLen: nat)
    ensures Expected(response, payloadLen).Some? <==> response in {0x0E, 0x10, 0x12, 0x13, 0x06, 0x17, 0x1F, 0x1B}
    ensures Expected(response, payloadLen) ==
      if response == 0x0E then Some({0x0D})
      else if response == 0x10 then Some({0x0F})
      else if response == 0x12 then Some({0x10})
      else if response == 0x13 || response == 0x06 then Some({0x11})
      else if response == 0x17 then Some({0x14, 0x15})
      else if response == 0x1F then Some({0x1E})
      else if response == 0x1B then Some(if payloadLen == 17 then {0x18} else {0x18, 0x19})
      else None
  {
    assert {PUBLISH_SOURCE_REQ, PUBLISH_KEY_REQ} == {0x18, 0x19};
  }

  /** Which opcodes are requests, and that the two old ones count as their successors. */
  lemma RequestsInNumbers(opcode: nat)
    ensures opcode in {0x0D, 0x0F, 0x10, 0x11, 0x14, 0x15, 0x18, 0x19, 0x1E} ==> Canonical(opcode) == Some(opcode)
    ensures Canonical(0x03) == Some(0x0F) && Canonical(0x05) == Some(0x11)
    ensures opcode !in {0x0D, 0x0F, 0x10, 0x11, 0x14, 0x15, 0x18, 0x19, 0x1E, 0x03, 0x05} ==> Canonical(opcode) == None
  {
  }

  /** Which opcodes are limited, and to how many requests a minute. */
  lemma LimitsInNumbers(opcode: nat)
    ensures Limited(opcode).Some? <==> opcode in {0x0D, 0x1E, 0x0F, 0x03, 0x11, 0x05, 0x14, 0x15, 0x18, 0x19}
    ensures opcode in {0x0D, 0x1E} ==> LimitOf(Limited(opcode).value) == 2
    ensures opcode in {0x0F, 0x03} ==> LimitOf(Limited(opcode).value) == 3
    ensures opcode in {0x11, 0x05, 0x14, 0x15, 0x18, 0x19} ==> LimitOf(Limited(opcode).value) == 30
  {
  }

  /** The requests of one source that passed in the minute from t. */
  function PassedInMinute(h: map<Slot, History>, source: string, opcode: nat, t: nat): nat {
    InSpanCount(PassedOf(h, (source, opcode)), t, 60_000_000_000)
  }

  /** The flood bound in numbers: what passes of one source in any minute, while it is not thrown
      out for room. */
  lemma FloodInNumbers(tracker: InTracker, source: string, t: nat)
    requires tracker.Valid()
    ensures
        var h := tracker.history;
        && PassedInMinute(h, source, 0x0D, t) <= 4 && PassedInMinute(h, source, 0x1E, t) <= 4
        && PassedInMinute(h, source, 0x0F, t) <= 6
        && PassedInMinute(h, source, 0x11, t) <= 60 && PassedInMinute(h, source, 0x14, t) <= 60
        && PassedInMinute(h, source, 0x15, t) <= 60 && PassedInMinute(h, source, 0x18, t) <= 60
        && PassedInMinute(h, source, 0x19, t) <= 60
    ensures |tracker.sources| <= 4096 && forall s :: s in tracker.sources ==> |tracker.sources[s]| <= 8
  {
    hide InSpanCount, PassedOf;
    tracker.FloodBound((source, 0x0D), t);
    tracker.FloodBound((source, 0x1E), t);
    tracker.FloodBound((source, 0x0F), t);
    tracker.FloodBound((source, 0x11), t);
    tracker.FloodBound((source, 0x14), t);
    tracker.FloodBound((source, 0x15), t);
    tracker.FloodBound((source, 0x18), t);
    tracker.FloodBound((source, 0x19), t);
  }

  /** A request is waited for three minutes, to the nanosecond. */
  lemma {:induction false} WaitedForInNumbers(requests: seq<Request>, now: nat, r: Request)
    ensures r in Fresh(requests, now) <==> r in requests && now <= r.at + 180_000_000_000
  {
    if requests != [] {
      WaitedForInNumbers(requests[..|requests| - 1], now, r);
    }
  }

  /** A counter is kept for fifteen minutes, to the nanosecond. */
  lemma KeptInNumbers(sources: map<string, Counters>, now: nat, source: string, opcode: nat)
    ensures CounterOf(Retained(sources, now), (source, opcode)) ==
      if CounterOf(sources, (source, opcode)).Some? && now <= CounterOf(sources, (source, opcode)).value.firstAdded + 900_000_000_000
      then CounterOf(sources, (source, opcode)) else None
  {
    if source in sources {
      var young := Young(sources[source], now);
      assert opcode in young ==> young != map[];
    }
  }
}
