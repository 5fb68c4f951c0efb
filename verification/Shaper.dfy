/** The outbound shaper of `src/kad/service.rs`, with the history of its sends. */
module Shapers {
  import opened Wrappers
  import opened Integers
  import opened Collections
  import opened SendLog
  import opened Windows

  const PEER_STATE_TTL: nat := 3600 * SECOND
  const PEER_STATE_MAX: nat := 8192

  type Peer = (Class, string)

  function KeyOfPeer(p: Peer): Key {
    OfPeer(p.0, p.1)
  }

  /** A `u32` counter that saturates. */
  function Sat(n: nat): nat {
    if n < U32_MAX then n else U32_MAX
  }

  /** An entry of a map of counters, or zero. */
  function Get<K>(m: map<K, nat>, k: K): nat {
    if k in m then m[k] else 0
  }

  /** The counters are those of the current window. */
  ghost predicate Counted(globalSent: map<Class, nat>, peerSent: map<Peer, nat>, log: seq<Sent>, window: nat) {
    && (forall c: Class :: Get(globalSent, c) == Sat(CountWindow(log, OfClass(c), window)))
    && (forall p: Peer :: Get(peerSent, p) == Sat(CountWindow(log, KeyOfPeer(p), window)))
  }

  /** The last send of every class is remembered; of a peer, it is the true one if at all. */
  ghost predicate Remembered(lastGlobal: map<Class, nat>, lastPeer: map<Peer, nat>, log: seq<Sent>) {
    && (forall c: Class :: LastTime(log, OfClass(c)) == if c in lastGlobal then Some(lastGlobal[c]) else None)
    && (forall p: Peer :: p in lastPeer ==> LastTime(log, KeyOfPeer(p)) == Some(lastPeer[p]))
  }

  lemma CountedAppend(globalSent: map<Class, nat>, peerSent: map<Peer, nat>, log: seq<Sent>, e: Sent)
    requires Counted(globalSent, peerSent, log, e.window)
    ensures
        var p := (e.kind, e.dest);
        Counted(Counting(globalSent, e.kind), Counting(peerSent, p), log + [e], e.window)
  {
    hide CountWindow;
    forall key: Key
      ensures CountWindow(log + [e], key, e.window) == CountWindow(log, key, e.window) + if Matches(e, key) then 1 else 0
    {
      CountWindowAppend(log, e, key, e.window);
    }
  }

  lemma RememberedAppend(lastGlobal: map<Class, nat>, lastPeer: map<Peer, nat>, log: seq<Sent>, e: Sent)
    requires Remembered(lastGlobal, lastPeer, log)
    ensures Remembered(lastGlobal[e.kind := e.at], lastPeer[(e.kind, e.dest) := e.at], log + [e])
  {
    assert (log + [e])[..|log|] == log;
  }

  lemma NothingCounted(log: seq<Sent>, window: nat)
    requires forall key: Key :: CountWindow(log, key, window) == 0
    ensures Counted(map[], map[], log, window)
  {
  }

  lemma RemembersLess(lastGlobal: map<Class, nat>, lastPeer: map<Peer, nat>, fewer: map<Peer, nat>, log: seq<Sent>)
    requires Remembered(lastGlobal, lastPeer, log)
    requires fewer.Keys <= lastPeer.Keys && forall p :: p in fewer ==> fewer[p] == lastPeer[p]
    ensures Remembered(lastGlobal, fewer, log)
  {
  }

  /** A peer is forgotten when its entry is too old, or when there were too many entries and
      as many as are kept are at least as recent. */
  ghost predicate DroppedFairly(was: map<Peer, nat>, kept: map<Peer, nat>, now: nat) {
    forall p :: p in was && p !in kept ==>
      || now > was[p] + PEER_STATE_TTL
      || (|was| > PEER_STATE_MAX && |kept| == PEER_STATE_MAX && forall q :: q in kept ==> was[p] <= kept[q])
  }

  /** The counters that apply at a time: those of the current window, or none yet. */
  function Current<K>(counters: map<K, nat>, windowStarted: nat, now: nat): map<K, nat> {
    if now >= windowStarted + SECOND then map[] else counters
  }

  function WindowStart(windowStarted: nat, now: nat): nat {
    if now >= windowStarted + SECOND then now else windowStarted
  }

  function Counting<K>(counters: map<K, nat>, k: K): map<K, nat> {
    counters[k := SaturatingIncU32(Get(counters, k))]
  }

  /** Entries that are still the same, fairly dropped ones left out. */
  ghost predicate KeptOf(was: map<Peer, nat>, kept: map<Peer, nat>, now: nat) {
    kept.Keys <= was.Keys && (forall p :: p in kept ==> kept[p] == was[p]) && DroppedFairly(was, kept, now)
  }

  /** A time not before now with the delay of the class, nor too close to the last sends. */
  predicate Permitted(cfg: Config, lastGlobal: map<Class, nat>, lastPeer: map<Peer, nat>, kind: Class, dest: string,
                      earliest: nat, t: nat)
  {
    && earliest <= t
    && (kind in lastGlobal ==> lastGlobal[kind] + Gap(cfg, OfClass(kind)) <= t)
    && ((kind, dest) in lastPeer ==> lastPeer[(kind, dest)] + Gap(cfg, OfPeer(kind, dest)) <= t)
  }

  /** Only classes that are not dropped for being early are delayed. */
  function Earliest(cfg: Config, kind: Class, now: nat, jitterMs: nat): nat {
    var policy := PolicyOf(cfg, kind);
    if policy.dropWhenDelayed then now else now + policy.baseDelayMs * MS + jitterMs * MS
  }

  /** The history allows one more send of this kind now. */
  ghost predicate FarEnough(log: seq<Sent>, cfg: Config, kind: Class, dest: string, at: nat, remembered: bool) {
    && (LastTime(log, OfClass(kind)).Some? ==> LastTime(log, OfClass(kind)).value + Gap(cfg, OfClass(kind)) <= at)
    && (remembered && LastTime(log, OfPeer(kind, dest)).Some? ==>
          LastTime(log, OfPeer(kind, dest)).value + Gap(cfg, OfPeer(kind, dest)) <= at)
  }

  predicate BelowCaps(globalSent: map<Class, nat>, peerSent: map<Peer, nat>, cfg: Config, kind: Class, dest: string) {
    && (Cap(cfg, OfClass(kind)) > 0 ==> Get(globalSent, kind) < Cap(cfg, OfClass(kind)))
    && (Cap(cfg, OfPeer(kind, dest)) > 0 ==> Get(peerSent, (kind, dest)) < Cap(cfg, OfPeer(kind, dest)))
  }

  lemma CapsAreU32(cfg: Config, key: Key)
    requires cfg.globalMax <= U32_MAX && cfg.peerMax <= U32_MAX
    ensures Cap(cfg, key) <= U32_MAX
  {
  }

  lemma MayAppend(log: seq<Sent>, starts: seq<nat>, cfg: Config, globalSent: map<Class, nat>, peerSent: map<Peer, nat>, e: Sent)
    requires AllInWindows(log, starts) && WithinCaps(log, cfg) && Spaced(log, cfg) && Placed(Event(e.at, e.window), starts, SECOND)
    requires cfg.globalMax <= U32_MAX && cfg.peerMax <= U32_MAX
    requires Counted(globalSent, peerSent, log, e.window)
    requires BelowCaps(globalSent, peerSent, cfg, e.kind, e.dest)
    requires FarEnough(log, cfg, e.kind, e.dest, e.at, e.remembered)
    ensures AllInWindows(log + [e], starts) && WithinCaps(log + [e], cfg) && Spaced(log + [e], cfg)
  {
    hide AllInWindows, WithinCaps, Spaced, Placed, CountWindow, LastTime, Cap, Gap;
    CapsAreU32(cfg, OfClass(e.kind));
    CapsAreU32(cfg, OfPeer(e.kind, e.dest));
    assert KeyOfPeer((e.kind, e.dest)) == OfPeer(e.kind, e.dest);
    forall key: Key | Matches(e, key)
      ensures key == OfClass(e.kind) || key == OfPeer(e.kind, e.dest)
    {
    }
    SendKeeps(log, starts, cfg, e);
  }

  /** The state of a shaper agrees with its history, and the history obeys the rules. */
  ghost predicate Fine(cfg: Config, windowStarted: nat, globalSent: map<Class, nat>, peerSent: map<Peer, nat>,
                       lastGlobal: map<Class, nat>, lastPeer: map<Peer, nat>, log: seq<Sent>, starts: seq<nat>, clock: nat)
  {
    && starts != [] && WindowsSpaced(starts) && starts[|starts| - 1] == windowStarted <= clock
    && AllInWindows(log, starts) && WithinCaps(log, cfg) && Spaced(log, cfg)
    && (forall i :: 0 <= i < |log| ==> log[i].at <= clock)
    && Counted(globalSent, peerSent, log, |starts| - 1) && Remembered(lastGlobal, lastPeer, log)
    && cfg.globalMax <= U32_MAX && cfg.peerMax <= U32_MAX
  }

  /** A send in the current window that the caps and distances allow. */
  lemma SentKeeps(cfg: Config, windowStarted: nat, globalSent: map<Class, nat>, peerSent: map<Peer, nat>,
                  lastGlobal: map<Class, nat>, lastPeer: map<Peer, nat>, log: seq<Sent>, starts: seq<nat>, e: Sent)
    requires Fine(cfg, windowStarted, globalSent, peerSent, lastGlobal, lastPeer, log, starts, e.at)
    requires e.at < windowStarted + SECOND && e.window == |starts| - 1
    requires BelowCaps(globalSent, peerSent, cfg, e.kind, e.dest)
    requires FarEnough(log, cfg, e.kind, e.dest, e.at, e.remembered)
    ensures
        var p := (e.kind, e.dest);
        Fine(cfg, windowStarted, Counting(globalSent, e.kind), Counting(peerSent, p), lastGlobal[e.kind := e.at],
             lastPeer[p := e.at], log + [e], starts, e.at)
  {
    hide AllInWindows, WithinCaps, Spaced, WindowsSpaced, CountWindow, LastTime, Counted, Remembered, FarEnough, BelowCaps;
    MayAppend(log, starts, cfg, globalSent, peerSent, e);
    CountedAppend(globalSent, peerSent, log, e);
    RememberedAppend(lastGlobal, lastPeer, log, e);
  }

  class Shaper {
    const cfg: Config
    var windowStarted: nat
    var globalSent: map<Class, nat>
    var peerSent: map<Peer, nat>
    var lastGlobal: map<Class, nat>
    var lastPeer: map<Peer, nat>

    /** Everything sent, the starts of all windows, and the latest time seen. */
    ghost var log: seq<Sent>
    ghost var starts: seq<nat>
    ghost var clock: nat

    ghost predicate Valid()
      reads this
    {
      Fine(cfg, windowStarted, globalSent, peerSent, lastGlobal, lastPeer, log, starts, clock)
    }

    constructor (cfg: Config, now: nat)
      requires cfg.globalMax <= U32_MAX && cfg.peerMax <= U32_MAX
      ensures Valid() && log == [] && clock == now && this.cfg == cfg && windowStarted == now
      ensures globalSent == map[] && peerSent == map[] && lastGlobal == map[] && lastPeer == map[]
    {
      this.cfg := cfg;
      windowStarted := now;
      globalSent, peerSent, lastGlobal, lastPeer := map[], map[], map[], map[];
      log, starts, clock := [], [now], now;
    }

    /** `shaper_cleanup_stale_peers`: an entry is dropped when it is too old, or when enough
        peers were sent to at least as recently. */
    method CleanupStalePeers(now: nat)
      modifies this`lastPeer
      ensures lastPeer.Keys <= old(lastPeer).Keys && forall p :: p in lastPeer ==> lastPeer[p] == old(lastPeer)[p]
      ensures |lastPeer| <= PEER_STATE_MAX
      ensures DroppedFairly(old(lastPeer), lastPeer, now)
    {
      lastPeer := map p | p in lastPeer && now <= lastPeer[p] + PEER_STATE_TTL :: lastPeer[p];
      while |lastPeer| > PEER_STATE_MAX
        invariant lastPeer.Keys <= old(lastPeer).Keys && forall p :: p in lastPeer ==> lastPeer[p] == old(lastPeer)[p]
        invariant forall p :: p in old(lastPeer) && p !in lastPeer ==>
          || now > old(lastPeer)[p] + PEER_STATE_TTL
          || (|lastPeer| >= PEER_STATE_MAX && |old(lastPeer)| > PEER_STATE_MAX && forall q :: q in lastPeer ==> old(lastPeer)[p] <= lastPeer[q])
        decreases |lastPeer|
      {
        var oldest := Oldest(lastPeer);
        RemoveKey(lastPeer, oldest);
        SubsetSize(lastPeer.Keys, old(lastPeer).Keys);
        lastPeer := lastPeer - {oldest};
      }
    }

    /** `shaper_roll_window`. */
    method RollWindow(now: nat)
      requires Valid() && clock <= now
      modifies this`windowStarted, this`globalSent, this`peerSent, this`lastPeer, this`starts, this`clock
      ensures Valid() && clock == now && now < windowStarted + SECOND
      ensures KeptOf(old(lastPeer), lastPeer, now)
      ensures now < old(windowStarted) + SECOND ==> lastPeer == old(lastPeer) && starts == old(starts)
      ensures now >= old(windowStarted) + SECOND ==> starts == old(starts) + [now]
      ensures starts != []
      ensures windowStarted == WindowStart(old(windowStarted), now)
      ensures globalSent == Current(old(globalSent), old(windowStarted), now)
      ensures peerSent == Current(old(peerSent), old(windowStarted), now)
    {
      hide AllInWindows, WithinCaps, Spaced, WindowsSpaced, CountWindow, Counted, Remembered;
      if now >= windowStarted + SECOND {
        NewWindow(log, starts, now);
        NothingCounted(log, |starts|);
        ghost var remembered := lastPeer;
        starts := starts + [now];
        windowStarted := now;
        globalSent, peerSent := map[], map[];
        CleanupStalePeers(now);
        RemembersLess(lastGlobal, remembered, lastPeer, log);
      }
      clock := now;
    }

    /** The earliest time that is permitted for a packet. */
    method EarliestPermitted(kind: Class, dest: string, now: nat, jitterMs: nat) returns (target: nat)
      ensures Permitted(cfg, lastGlobal, lastPeer, kind, dest, Earliest(cfg, kind, now, jitterMs), target)
      ensures forall t ::
        Permitted(cfg, lastGlobal, lastPeer, kind, dest, Earliest(cfg, kind, now, jitterMs), t) ==> target <= t
    {
      hide PolicyOf;
      var policy := PolicyOf(cfg, kind);
      target := if policy.dropWhenDelayed then now else now + policy.baseDelayMs * MS + jitterMs * MS;
      if kind in lastGlobal && target < lastGlobal[kind] + policy.globalMinMs * MS {
        target := lastGlobal[kind] + policy.globalMinMs * MS;
      }
      if (kind, dest) in lastPeer && target < lastPeer[(kind, dest)] + policy.peerMinMs * MS {
        target := lastPeer[(kind, dest)] + policy.peerMinMs * MS;
      }
    }

    /** `shaper_schedule_send`: nothing exactly when a cap is reached, otherwise the earliest
        time that is permitted. */
    method ScheduleSend(kind: Class, dest: string, now: nat, jitterMs: nat) returns (r: Option<nat>)
      requires Valid() && clock <= now && jitterMs <= PolicyOf(cfg, kind).jitterMs
      modifies this`windowStarted, this`globalSent, this`peerSent, this`lastPeer, this`starts, this`clock
      ensures Valid() && clock == now && now < windowStarted + SECOND
      ensures KeptOf(old(lastPeer), lastPeer, now)
      ensures now < old(windowStarted) + SECOND ==> lastPeer == old(lastPeer)
      ensures windowStarted == WindowStart(old(windowStarted), now)
      ensures globalSent == Current(old(globalSent), old(windowStarted), now)
      ensures peerSent == Current(old(peerSent), old(windowStarted), now)
      ensures r.Some? <==> BelowCaps(globalSent, peerSent, cfg, kind, dest)
      ensures r.Some? ==> Permitted(cfg, lastGlobal, lastPeer, kind, dest, Earliest(cfg, kind, now, jitterMs), r.value)
      ensures r.Some? ==> forall t ::
        Permitted(cfg, lastGlobal, lastPeer, kind, dest, Earliest(cfg, kind, now, jitterMs), t) ==> r.value <= t
    {
      hide Fine, KeptOf, Current, WindowStart, Permitted, Earliest;
      RollWindow(now);
      var policy := PolicyOf(cfg, kind);
      if policy.globalMax > 0 && Get(globalSent, kind) >= policy.globalMax {
        return None;
      }
      if policy.peerMax > 0 && Get(peerSent, (kind, dest)) >= policy.peerMax {
        return None;
      }
      var target := EarliestPermitted(kind, dest, now, jitterMs);
      return Some(target);
    }

    /** `shaper_mark_sent`, at the later time at which the socket had taken the packet. */
    method MarkSent(kind: Class, dest: string, at: nat, ghost remembered: bool) returns (ghost kept: map<Peer, nat>)
      requires Valid() && clock <= at && BelowCaps(globalSent, peerSent, cfg, kind, dest)
      requires FarEnough(log, cfg, kind, dest, at, remembered)
      modifies this
      ensures Valid() && clock == at
      ensures |log| == |old(log)| + 1 && log[..|old(log)|] == old(log)
      ensures var e := log[|old(log)|]; e.kind == kind && e.dest == dest && e.at == at && e.remembered == remembered
      ensures windowStarted == WindowStart(old(windowStarted), at)
      ensures globalSent == Counting(Current(old(globalSent), old(windowStarted), at), kind)
      ensures peerSent == Counting(Current(old(peerSent), old(windowStarted), at), (kind, dest))
      ensures lastGlobal == old(lastGlobal)[kind := at]
      ensures KeptOf(old(lastPeer), kept, at) && lastPeer == kept[(kind, dest) := at]
    {
      hide Fine, FarEnough, Cap, KeptOf;
      RollWindow(at);
      ghost var e := Sent(kind, dest, at, |starts| - 1, remembered);
      kept := lastPeer;
      SentKeeps(cfg, windowStarted, globalSent, peerSent, lastGlobal, lastPeer, log, starts, e);
      globalSent := globalSent[kind := SaturatingIncU32(Get(globalSent, kind))];
      peerSent := peerSent[(kind, dest) := SaturatingIncU32(Get(peerSent, (kind, dest)))];
      lastGlobal := lastGlobal[kind := at];
      lastPeer := lastPeer[(kind, dest) := at];
      log := log + [e];
    }

    /** `shaper_send`: the packet goes out, is dropped by a cap or for being early, or the
        socket refuses it. `kept` are the peers remembered when it was scheduled, `later` those
        remembered when it had gone out. */
    method Send(kind: Class, dest: string, now: nat, jitterMs: nat, accepted: bool, sentAt: nat)
      returns (sent: bool, ghost kept: map<Peer, nat>, ghost later: map<Peer, nat>)
      requires Valid() && clock <= now <= sentAt && jitterMs <= PolicyOf(cfg, kind).jitterMs
      modifies this
      ensures Valid() && clock == if sent then sentAt else now
      ensures !sent ==> log == old(log)
      ensures sent ==> |log| == |old(log)| + 1 && log[..|old(log)|] == old(log)
      ensures sent ==>
        var e := log[|old(log)|];
        e.kind == kind && e.dest == dest && e.at == sentAt && (e.remembered <==> (kind, dest) in kept)
      ensures sent <==>
        && accepted
        && BelowCaps(Current(old(globalSent), old(windowStarted), now), Current(old(peerSent), old(windowStarted), now), cfg, kind, dest)
        && (PolicyOf(cfg, kind).dropWhenDelayed ==> Permitted(cfg, old(lastGlobal), kept, kind, dest, now, now))
      ensures KeptOf(old(lastPeer), kept, now) && (now < old(windowStarted) + SECOND ==> kept == old(lastPeer))
      ensures !sent ==>
        && lastPeer == kept && lastGlobal == old(lastGlobal) && windowStarted == WindowStart(old(windowStarted), now)
        && globalSent == Current(old(globalSent), old(windowStarted), now)
        && peerSent == Current(old(peerSent), old(windowStarted), now)
      ensures sent ==> KeptOf(kept, later, sentAt) && lastPeer == later[(kind, dest) := sentAt] && lastGlobal == old(lastGlobal)[kind := sentAt]
      ensures sent ==>
        var started := WindowStart(old(windowStarted), now);
        && windowStarted == WindowStart(started, sentAt)
        && globalSent == Counting(Current(Current(old(globalSent), old(windowStarted), now), started, sentAt), kind)
        && peerSent == Counting(Current(Current(old(peerSent), old(windowStarted), now), started, sentAt), (kind, dest))
      ensures sent && (kind, dest) in old(lastPeer) && !log[|old(log)|].remembered ==>
        now > old(lastPeer)[(kind, dest)] + PEER_STATE_TTL || |old(lastPeer)| > PEER_STATE_MAX
    {
      hide AllInWindows, WithinCaps, Spaced, WindowsSpaced, CountWindow, Counted, BelowCaps;
      var sendAt := ScheduleSend(kind, dest, now, jitterMs);
      kept, later := lastPeer, lastPeer;
      if sendAt.None? {
        return false, kept, later;
      }
      if sendAt.value > now && PolicyOf(cfg, kind).dropWhenDelayed {
        return false, kept, later;
      }
      if !accepted {
        return false, kept, later;
      }
      ghost var remembered := (kind, dest) in lastPeer;
      assert FarEnough(log, cfg, kind, dest, sentAt, remembered) by {
        assert KeyOfPeer((kind, dest)) == OfPeer(kind, dest);
        LastIsPast(log, OfClass(kind), clock);
        LastIsPast(log, OfPeer(kind, dest), clock);
      }
      later := MarkSent(kind, dest, sentAt, remembered);
      return true, kept, later;
    }

    /** What the invariant of the shaper means for its history. */
    lemma History(key: Key, t: nat)
      requires Valid()
      ensures Cap(cfg, key) > 0 ==> CountSpan(log, key, t) <= 2 * Cap(cfg, key)
      ensures forall j :: 0 <= j < |log| ==> KeepsDistance(log, j, key, Gap(cfg, key))
    {
      hide CountSpan, Cap, WithinCaps, AllInWindows, WindowsSpaced, KeepsDistance;
      if Cap(cfg, key) > 0 {
        RateBound(log, starts, cfg, key, t);
      }
    }
  }

  lemma {:induction false} LastIsPast(log: seq<Sent>, key: Key, clock: nat)
    requires forall i :: 0 <= i < |log| ==> log[i].at <= clock
    ensures LastTime(log, key).Some? ==> LastTime(log, key).value <= clock
  {
    if log != [] {
      LastIsPast(log[..|log| - 1], key, clock);
    }
  }

  lemma CountSpanAppend(log: seq<Sent>, e: Sent, key: Key, t: nat)
    ensures CountSpan(log + [e], key, t) == CountSpan(log, key, t) + if Matches(e, key) && t <= e.at < t + SECOND then 1 else 0
  {
    hide Matches, InSpanCount, EventsOf;
    EventsAppend(log, e, key);
    SpanAppend(EventsOf(log, key), Event(e.at, e.window), t, SECOND);
    assert EventsOf(log, key) + [] == EventsOf(log, key);
  }

  /** As many responses at one time as a new window allows. */
  method SendBurst(shaper: Shaper, dest: string, at: nat, ghost t: nat)
    requires shaper.Valid() && shaper.clock <= at && t <= at < t + SECOND
    requires shaper.cfg.globalMax > 0 && shaper.cfg.peerMax == 0
    requires Get(Current(shaper.globalSent, shaper.windowStarted, at), Response) == 0
    modifies shaper
    ensures shaper.Valid() && shaper.clock <= at && shaper.windowStarted == WindowStart(old(shaper.windowStarted), at)
    ensures CountSpan(shaper.log, OfClass(Response), t)
         == old(CountSpan(shaper.log, OfClass(Response), t)) + Cap(shaper.cfg, OfClass(Response))
  {
    hide Fine, CountSpan, KeptOf, Scaled, Permitted;
    var cap := PolicyOf(shaper.cfg, Response).globalMax;
    ValidCaps(shaper, OfClass(Response));
    for k := 0 to cap
      invariant shaper.Valid() && shaper.clock <= at
      invariant WindowStart(shaper.windowStarted, at) == WindowStart(old(shaper.windowStarted), at)
      invariant k > 0 ==> shaper.windowStarted == WindowStart(old(shaper.windowStarted), at)
      invariant Get(Current(shaper.globalSent, shaper.windowStarted, at), Response) == k
      invariant CountSpan(shaper.log, OfClass(Response), t) == old(CountSpan(shaper.log, OfClass(Response), t)) + k
    {
      ghost var before := shaper.log;
      var sent, _, _ := shaper.Send(Response, dest, at, 0, true, at);
      assert shaper.log == before + [shaper.log[|before|]];
      CountSpanAppend(before, shaper.log[|before|], OfClass(Response), t);
    }
  }

  lemma ValidCaps(shaper: Shaper, key: Key)
    requires shaper.Valid()
    ensures Cap(shaper.cfg, key) <= U32_MAX
    ensures key == OfClass(Response) && shaper.cfg.globalMax > 0 ==> Cap(shaper.cfg, key) > 0
  {
    CapsAreU32(shaper.cfg, key);
  }

  /** The rate bound is the best possible: without a cap for single peers, the shaper lets
      twice the cap of the responses through within a second, at the end of one window and
      at the start of the next. */
  method TwiceTheCapIsReached(cfg: Config, dest: string) returns (shaper: Shaper)
    requires 0 < cfg.globalMax <= U32_MAX && cfg.peerMax == 0
    ensures fresh(shaper) && shaper.Valid() && shaper.cfg == cfg
    ensures CountSpan(shaper.log, OfClass(Response), SECOND - 1) == 2 * Cap(cfg, OfClass(Response))
  {
    hide Fine, Cap;
    shaper := new Shaper(cfg, 0);
    SendBurst(shaper, dest, SECOND - 1, SECOND - 1);
    SendBurst(shaper, dest, SECOND, SECOND - 1);
  }

  method Oldest(m: map<Peer, nat>) returns (oldest: Peer)
    requires |m| > 0
    ensures oldest in m && forall p :: p in m ==> m[oldest] <= m[p]
  {
    var rest := m.Keys;
    oldest :| oldest in rest;
    rest := rest - {oldest};
    while rest != {}
      invariant rest <= m.Keys && oldest in m
      invariant forall p :: p in m && p !in rest ==> m[oldest] <= m[p]
      decreases |rest|
    {
      var p :| p in rest;
      if m[p] < m[oldest] {
        oldest := p;
      }
      rest := rest - {p};
    }
  }
}
