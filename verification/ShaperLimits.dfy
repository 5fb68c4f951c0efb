/** The outbound shaper in numbers: what it lets through in any second, how far apart sends
    are, and exactly when a packet goes out, in fields of the configuration. */
module ShaperLimits {
  import opened Wrappers
  import opened Integers
  import opened Windows
  import opened SendLog
  import opened Shapers

  /** The sends of a class in the second from t, and those to one destination. */
  ghost function InSecond(log: seq<Sent>, kind: Class, t: nat): set<nat> {
    set i: nat | i < |log| && log[i].kind == kind && t <= log[i].at < t + 1_000_000_000
  }

  ghost function InSecondTo(log: seq<Sent>, kind: Class, dest: string, t: nat): set<nat> {
    set i: nat | i < |log| && log[i].kind == kind && log[i].dest == dest && t <= log[i].at < t + 1_000_000_000
  }

  lemma OneMoreInSecond(log: seq<Sent>, e: Sent, kind: Class, dest: string, t: nat)
    ensures
        var here := if t <= e.at < t + 1_000_000_000 then {|log|} else {};
        && InSecond(log + [e], kind, t) == InSecond(log, kind, t) + (if e.kind == kind then here else {})
        && InSecondTo(log + [e], kind, dest, t) == InSecondTo(log, kind, dest, t) + (if e.kind == kind && e.dest == dest then here else {})
        && |log| !in InSecond(log, kind, t) && |log| !in InSecondTo(log, kind, dest, t)
  {
    var more := log + [e];
    assert more[|log|] == e && forall i :: 0 <= i < |log| ==> more[i] == log[i];
  }

  lemma {:induction false} SpanCounts(log: seq<Sent>, kind: Class, dest: string, t: nat)
    ensures CountSpan(log, OfClass(kind), t) == |InSecond(log, kind, t)|
    ensures CountSpan(log, OfPeer(kind, dest), t) == |InSecondTo(log, kind, dest, t)|
  {
    if log == [] {
      assert InSecond(log, kind, t) == {} && InSecondTo(log, kind, dest, t) == {};
    } else {
      hide InSecond, InSecondTo, CountSpan;
      var front, e := log[..|log| - 1], log[|log| - 1];
      SpanCounts(front, kind, dest, t);
      assert log == front + [e];
      CountSpanAppend(front, e, OfClass(kind), t);
      CountSpanAppend(front, e, OfPeer(kind, dest), t);
      OneMoreInSecond(front, e, kind, dest, t);
    }
  }

  function Larger(a: nat, b: nat): nat {
    if a < b then b else a
  }

  /** How many packets go out in any second, of a class and to one destination. */
  lemma RatesInNumbers(shaper: Shaper, dest: string, t: nat)
    requires shaper.Valid()
    ensures
        var log, most := shaper.log, shaper.cfg.globalMax;
        most > 0 ==>
          && |InSecond(log, Query, t)| <= 2 * most
          && |InSecond(log, Hello, t)| <= 2 * Larger(2 * most, 32) && |InSecond(log, Hello, t)| <= 2 * 0xFFFF_FFFF
          && |InSecond(log, Bootstrap, t)| <= 2 * Larger(2 * most, 32) && |InSecond(log, Bootstrap, t)| <= 2 * 0xFFFF_FFFF
          && |InSecond(log, Response, t)| <= 2 * Larger(4 * most, 128) && |InSecond(log, Response, t)| <= 2 * 0xFFFF_FFFF
    ensures
        var log, most := shaper.log, shaper.cfg.peerMax;
        most > 0 ==>
          && |InSecondTo(log, Query, dest, t)| <= 2 * most
          && |InSecondTo(log, Hello, dest, t)| <= 2 * Larger(2 * most, 8) && |InSecondTo(log, Hello, dest, t)| <= 2 * 0xFFFF_FFFF
          && |InSecondTo(log, Bootstrap, dest, t)| <= 2 * Larger(2 * most, 8) && |InSecondTo(log, Bootstrap, dest, t)| <= 2 * 0xFFFF_FFFF
          && |InSecondTo(log, Response, dest, t)| <= 2 * Larger(4 * most, 24) && |InSecondTo(log, Response, dest, t)| <= 2 * 0xFFFF_FFFF
  {
    hide CountSpan, InSecond, InSecondTo, Fine;
    RateOf(shaper, Query, dest, t);
    RateOf(shaper, Hello, dest, t);
    RateOf(shaper, Bootstrap, dest, t);
    RateOf(shaper, Response, dest, t);
  }

  lemma RateOf(shaper: Shaper, kind: Class, dest: string, t: nat)
    requires shaper.Valid()
    ensures shaper.cfg.globalMax <= U32_MAX && shaper.cfg.peerMax <= U32_MAX
    ensures Cap(shaper.cfg, OfClass(kind)) > 0 ==> |InSecond(shaper.log, kind, t)| <= 2 * Cap(shaper.cfg, OfClass(kind))
    ensures Cap(shaper.cfg, OfPeer(kind, dest)) > 0 ==>
      |InSecondTo(shaper.log, kind, dest, t)| <= 2 * Cap(shaper.cfg, OfPeer(kind, dest))
  {
    hide Cap, CountSpan, InSecond, InSecondTo;
    SpanCounts(shaper.log, kind, dest, t);
    shaper.History(OfClass(kind), t);
    shaper.History(OfPeer(kind, dest), t);
  }

  /** How far apart two sends of a class are. */
  lemma ClassesApart(shaper: Shaper, i: nat, j: nat)
    requires shaper.Valid() && i < j < |shaper.log| && shaper.log[i].kind == shaper.log[j].kind
    ensures
        var earlier, later, ms := shaper.log[i].at, shaper.log[j].at, shaper.cfg.globalMinMs;
        && earlier <= later
        && (shaper.log[i].kind == Query || shaper.log[i].kind == Hello ==> earlier + ms * 1_000_000 <= later)
        && (shaper.log[i].kind == Bootstrap ==> earlier + ms / 2 * 1_000_000 <= later)
  {
    var key := OfClass(shaper.log[i].kind);
    hide Fine, KeepsDistance;
    shaper.History(key, 0);
    AllApart(shaper.log, key, Gap(shaper.cfg, key), i, j);
  }

  lemma {:induction false} AllApart(log: seq<Sent>, key: Key, gap: nat, i: nat, j: nat)
    requires i < j < |log| && key.OfClass? && log[i].kind == key.kind && log[j].kind == key.kind
    requires forall k :: 0 <= k < |log| ==> KeepsDistance(log, k, key, gap)
    ensures log[i].at + gap <= log[j].at
    decreases j
  {
    var m := LastIndex(log[..j], key, i);
    assert KeepsDistance(log, j, key, gap);
    if i < m {
      AllApart(log, key, gap, i, m);
    }
  }

  /** The last send of this kind, which is at i or behind. */
  lemma {:induction false} LastIndex(log: seq<Sent>, key: Key, i: nat) returns (m: nat)
    requires i < |log| && Matches(log[i], key)
    ensures i <= m < |log| && Matches(log[m], key) && LastTime(log, key) == Some(log[m].at)
    ensures forall k :: m < k < |log| ==> !Matches(log[k], key)
  {
    hide Matches;
    var n := |log| - 1;
    if Matches(log[n], key) {
      m := n;
    } else {
      m := LastIndex(log[..n], key, i);
    }
  }

  /** How far a send is from the one before it to the same destination, when the shaper still
      remembered that one. */
  lemma PeersApart(shaper: Shaper, i: nat, j: nat)
    requires shaper.Valid() && i < j < |shaper.log| && shaper.log[j].remembered
    requires shaper.log[i].kind == shaper.log[j].kind && shaper.log[i].dest == shaper.log[j].dest
    requires forall k :: i < k < j ==> !(shaper.log[k].kind == shaper.log[i].kind && shaper.log[k].dest == shaper.log[i].dest)
    ensures
        var earlier, later, ms := shaper.log[i].at, shaper.log[j].at, shaper.cfg.peerMinMs;
        && (shaper.log[i].kind == Query ==> earlier + ms * 1_000_000 <= later)
        && (shaper.log[i].kind == Hello || shaper.log[i].kind == Bootstrap ==> earlier + ms / 2 * 1_000_000 <= later)
  {
    var log := shaper.log;
    var key := OfPeer(log[i].kind, log[i].dest);
    hide Fine;
    shaper.History(key, 0);
    assert KeepsDistance(log, j, key, Gap(shaper.cfg, key));
    var m := LastIndex(log[..j], key, i);
    assert m == i;
  }

  /** The sends of a class since a time, and those to one destination. */
  ghost function Since(log: seq<Sent>, kind: Class, from: nat): set<nat> {
    set i: nat | i < |log| && log[i].kind == kind && from <= log[i].at
  }

  ghost function SinceTo(log: seq<Sent>, kind: Class, dest: string, from: nat): set<nat> {
    set i: nat | i < |log| && log[i].kind == kind && log[i].dest == dest && from <= log[i].at
  }

  lemma OneMoreSince(log: seq<Sent>, e: Sent, kind: Class, dest: string, from: nat)
    ensures
        var here := if from <= e.at then {|log|} else {};
        && Since(log + [e], kind, from) == Since(log, kind, from) + (if e.kind == kind then here else {})
        && SinceTo(log + [e], kind, dest, from) == SinceTo(log, kind, dest, from) + (if e.kind == kind && e.dest == dest then here else {})
        && |log| !in Since(log, kind, from) && |log| !in SinceTo(log, kind, dest, from)
  {
    var more := log + [e];
    assert more[|log|] == e && forall i :: 0 <= i < |log| ==> more[i] == log[i];
  }

  /** The current window counts the sends since its start. */
  lemma {:induction false} WindowCounts(log: seq<Sent>, starts: seq<nat>, kind: Class, dest: string)
    requires WindowsSpaced(starts) && AllInWindows(log, starts)
    ensures CountWindow(log, OfClass(kind), |starts| - 1) == |Since(log, kind, starts[|starts| - 1])|
    ensures CountWindow(log, OfPeer(kind, dest), |starts| - 1) == |SinceTo(log, kind, dest, starts[|starts| - 1])|
  {
    var w := |starts| - 1;
    if log == [] {
      assert Since(log, kind, starts[w]) == {} && SinceTo(log, kind, dest, starts[w]) == {};
    } else {
      hide Since, SinceTo, CountWindow;
      var front, e := log[..|log| - 1], log[|log| - 1];
      LastIsPlaced(log, starts);
      WindowCounts(front, starts, kind, dest);
      assert log == front + [e];
      CountWindowAppend(front, e, OfClass(kind), w);
      CountWindowAppend(front, e, OfPeer(kind, dest), w);
      OneMoreSince(front, e, kind, dest, starts[w]);
    }
  }

  lemma LastIsPlaced(log: seq<Sent>, starts: seq<nat>)
    requires log != [] && WindowsSpaced(starts) && AllInWindows(log, starts)
    ensures AllInWindows(log[..|log| - 1], starts)
    ensures log[|log| - 1].window == |starts| - 1 <==> starts[|starts| - 1] <= log[|log| - 1].at
  {
    hide Placed;
    var front, e := log[..|log| - 1], log[|log| - 1];
    forall key: Key
      ensures AllPlaced(EventsOf(front, key), starts, SECOND)
    {
      var all := EventsOf(log, key);
      assert AllPlaced(all, starts, SECOND);
      assert forall i :: 0 <= i < |EventsOf(front, key)| ==> EventsOf(front, key)[i] == all[i];
    }
    var own := EventsOf(log, OfClass(e.kind));
    assert AllPlaced(own, starts, SECOND) && own[|own| - 1] == Event(e.at, e.window);
    assert Placed(own[|own| - 1], starts, SECOND);
    PlacedLast(Event(e.at, e.window), starts);
  }

  lemma PlacedLast(e: Event, starts: seq<nat>)
    requires starts != [] && StartsSpaced(starts, SECOND) && Placed(e, starts, SECOND)
    ensures e.window == |starts| - 1 <==> starts[|starts| - 1] <= e.at
  {
    if e.window < |starts| - 1 {
      StartsApart(starts, SECOND, e.window, |starts| - 1);
    }
  }

  /** Fewer than a cap that is scaled, but has a least value and fits into 32 bits; no cap at
      all when the configured one is zero. */
  predicate Below(n: nat, base: nat, factor: nat, least: nat) {
    base > 0 ==> (n < factor * base || n < least) && n < 0xFFFF_FFFF
  }

  /** What goes out, in numbers: exactly the packets for which there is room in the current
      window, and that are far enough from the last ones; responses need only the room. */
  method SendInNumbers(shaper: Shaper, kind: Class, dest: string, now: nat, accepted: bool, sentAt: nat)
    returns (sent: bool, ghost kept: map<Peer, nat>)
    requires shaper.Valid() && shaper.clock <= now <= sentAt
    modifies shaper
    ensures shaper.Valid()
    ensures forall p :: p in kept ==> p in old(shaper.lastPeer) && kept[p] == old(shaper.lastPeer)[p]
    ensures forall p :: p in old(shaper.lastPeer) && p !in kept ==>
      || now > old(shaper.lastPeer)[p] + 3_600_000_000_000
      || (|old(shaper.lastPeer)| > 8192 && |kept| == 8192 && forall q :: q in kept ==> old(shaper.lastPeer)[p] <= kept[q])
    ensures now < old(shaper.windowStarted) + 1_000_000_000 ==> kept == old(shaper.lastPeer)
    ensures
        var cfg, log := shaper.cfg, old(shaper.log);
        var started := if now >= old(shaper.windowStarted) + 1_000_000_000 then now else old(shaper.windowStarted);
        var n, m := |Since(log, kind, started)|, |SinceTo(log, kind, dest, started)|;
        var last := if kind in old(shaper.lastGlobal) then Some(old(shaper.lastGlobal)[kind]) else None;
        var lastTo := if (kind, dest) in kept then Some(kept[(kind, dest)]) else None;
        && (kind == Query ==>
              (sent <==> accepted && Below(n, cfg.globalMax, 1, 0) && Below(m, cfg.peerMax, 1, 0)
                         && (last.Some? ==> last.value + cfg.globalMinMs * 1_000_000 <= now)
                         && (lastTo.Some? ==> lastTo.value + cfg.peerMinMs * 1_000_000 <= now)))
        && (kind == Hello ==>
              (sent <==> accepted && Below(n, cfg.globalMax, 2, 32) && Below(m, cfg.peerMax, 2, 8)
                         && (last.Some? ==> last.value + cfg.globalMinMs * 1_000_000 <= now)
                         && (lastTo.Some? ==> lastTo.value + cfg.peerMinMs / 2 * 1_000_000 <= now)))
        && (kind == Bootstrap ==>
              (sent <==> accepted && Below(n, cfg.globalMax, 2, 32) && Below(m, cfg.peerMax, 2, 8)
                         && (last.Some? ==> last.value + cfg.globalMinMs / 2 * 1_000_000 <= now)
                         && (lastTo.Some? ==> lastTo.value + cfg.peerMinMs / 2 * 1_000_000 <= now)))
        && (kind == Response ==> (sent <==> accepted && Below(n, cfg.globalMax, 4, 128) && Below(m, cfg.peerMax, 4, 24)))
  {
    hide Since, SinceTo, Fine, BelowCaps, Current;
    RoomIs(shaper, kind, dest, now);
    ghost var later;
    sent, kept, later := shaper.Send(kind, dest, now, 0, accepted, sentAt);
  }

  /** Room in the current window, in numbers of earlier sends. */
  lemma RoomIs(shaper: Shaper, kind: Class, dest: string, now: nat)
    requires shaper.Valid() && shaper.clock <= now
    ensures
        var cfg, log := shaper.cfg, shaper.log;
        var started := if now >= shaper.windowStarted + SECOND then now else shaper.windowStarted;
        var n, m := |Since(log, kind, started)|, |SinceTo(log, kind, dest, started)|;
        var room := BelowCaps(Current(shaper.globalSent, shaper.windowStarted, now), Current(shaper.peerSent, shaper.windowStarted, now),
                              cfg, kind, dest);
        && (kind == Query ==> (room <==> Below(n, cfg.globalMax, 1, 0) && Below(m, cfg.peerMax, 1, 0)))
        && (kind == Hello || kind == Bootstrap ==> (room <==> Below(n, cfg.globalMax, 2, 32) && Below(m, cfg.peerMax, 2, 8)))
        && (kind == Response ==> (room <==> Below(n, cfg.globalMax, 4, 128) && Below(m, cfg.peerMax, 4, 24)))
  {
    var log, starts := shaper.log, shaper.starts;
    var started := if now >= shaper.windowStarted + SECOND then now else shaper.windowStarted;
    CountersAre(shaper, kind, dest, now);
    hide Fine, Since, SinceTo, Current, Get;
    CapInNumbers(shaper.cfg, OfClass(kind), |Since(log, kind, started)|);
    CapInNumbers(shaper.cfg, OfPeer(kind, dest), |SinceTo(log, kind, dest, started)|);
  }

  lemma CapInNumbers(cfg: Config, key: Key, n: nat)
    requires cfg.globalMax <= U32_MAX && cfg.peerMax <= U32_MAX
    ensures
        var below := Cap(cfg, key) > 0 ==> Sat(n) < Cap(cfg, key);
        var base := if key.OfClass? then cfg.globalMax else cfg.peerMax;
        && (key.kind == Query ==> (below <==> Below(n, base, 1, 0)))
        && (key.kind == Hello || key.kind == Bootstrap ==> (below <==> Below(n, base, 2, if key.OfClass? then 32 else 8)))
        && (key.kind == Response ==> (below <==> Below(n, base, 4, if key.OfClass? then 128 else 24)))
  {
  }

  /** The counters that apply now are the sends since the window started, saturated. */
  lemma CountersAre(shaper: Shaper, kind: Class, dest: string, now: nat)
    requires shaper.Valid() && shaper.clock <= now
    ensures shaper.cfg.globalMax <= U32_MAX && shaper.cfg.peerMax <= U32_MAX
    ensures
        var log := shaper.log;
        var started := if now >= shaper.windowStarted + SECOND then now else shaper.windowStarted;
        && Get(Current(shaper.globalSent, shaper.windowStarted, now), kind) == Sat(|Since(log, kind, started)|)
        && Get(Current(shaper.peerSent, shaper.windowStarted, now), (kind, dest)) == Sat(|SinceTo(log, kind, dest, started)|)
  {
    var log, starts := shaper.log, shaper.starts;
    hide AllInWindows, WithinCaps, Spaced, WindowsSpaced, CountWindow, Remembered, Since, SinceTo;
    WindowCounts(log, starts, kind, dest);
    assert KeyOfPeer((kind, dest)) == OfPeer(kind, dest);
    if now >= shaper.windowStarted + SECOND {
      NothingSince(log, starts, kind, dest, now);
    }
  }

  /** A second after the last window started, nothing was sent yet. */
  lemma NothingSince(log: seq<Sent>, starts: seq<nat>, kind: Class, dest: string, now: nat)
    requires WindowsSpaced(starts) && AllInWindows(log, starts) && starts[|starts| - 1] + SECOND <= now
    ensures Since(log, kind, now) == {} && SinceTo(log, kind, dest, now) == {}
  {
    forall i | 0 <= i < |log|
      ensures log[i].at < now
    {
      AtIsBefore(log, starts, i, now);
    }
  }

  lemma {:induction false} AtIsBefore(log: seq<Sent>, starts: seq<nat>, i: nat, now: nat)
    requires i < |log| && WindowsSpaced(starts) && AllInWindows(log, starts) && starts[|starts| - 1] + SECOND <= now
    ensures log[i].at < now
  {
    hide Placed, StartsSpaced;
    LastIsPlaced(log, starts);
    var front, e := log[..|log| - 1], log[|log| - 1];
    if i < |front| {
      AtIsBefore(front, starts, i, now);
    } else {
      var own := EventsOf(log, OfClass(e.kind));
      assert AllPlaced(own, starts, SECOND) && own[|own| - 1] == Event(e.at, e.window);
      assert Placed(own[|own| - 1], starts, SECOND);
      PlacedBefore(Event(e.at, e.window), starts, now);
    }
  }

  lemma PlacedBefore(e: Event, starts: seq<nat>, now: nat)
    requires starts != [] && StartsSpaced(starts, SECOND) && Placed(e, starts, SECOND) && starts[|starts| - 1] + SECOND <= now
    ensures e.at < now
  {
    if e.window < |starts| - 1 {
      StartsApart(starts, SECOND, e.window, |starts| - 1);
    }
  }
}
