/** The outbound shaper's rules, and what they amount to over any history of sends. Times are
    nanoseconds on a clock that does not go back. */
module SendLog {
  import opened Wrappers
  import opened Integers
  import opened Windows

  const SECOND: nat := 1_000_000_000
  const MS: nat := 1_000_000

  datatype Class = Query | Hello | Bootstrap | Response

  datatype Config = Config(
    baseDelayMs: nat, jitterMs: nat, globalMinMs: nat, peerMinMs: nat, globalMax: nat, peerMax: nat)

  datatype Policy = Policy(
    baseDelayMs: nat, jitterMs: nat, globalMinMs: nat, peerMinMs: nat, globalMax: nat, peerMax: nat,
    dropWhenDelayed: bool)

  /** A scaled cap stays disabled when it is zero. */
  function Scaled(base: nat, factor: nat, least: nat): (cap: nat)
    ensures cap == 0 <==> base == 0 || (factor == 0 && least == 0)
  {
    if base == 0 then 0
    else
      var product := if base * factor <= U32_MAX then base * factor else U32_MAX;
      if product < least then least else product
  }

  /** `shaper_policy`. */
  function PolicyOf(cfg: Config, kind: Class): Policy {
    match kind
    case Query =>
      Policy(cfg.baseDelayMs, cfg.jitterMs, cfg.globalMinMs, cfg.peerMinMs, cfg.globalMax, cfg.peerMax, true)
    case Hello =>
      Policy(cfg.baseDelayMs / 2, cfg.jitterMs / 2, cfg.globalMinMs, cfg.peerMinMs / 2,
             Scaled(cfg.globalMax, 2, 32), Scaled(cfg.peerMax, 2, 8), true)
    case Bootstrap =>
      Policy(cfg.baseDelayMs / 2, cfg.jitterMs / 2, cfg.globalMinMs / 2, cfg.peerMinMs / 2,
             Scaled(cfg.globalMax, 2, 32), Scaled(cfg.peerMax, 2, 8), true)
    case Response =>
      Policy(0, 0, 0, 0, Scaled(cfg.globalMax, 4, 128), Scaled(cfg.peerMax, 4, 24), false)
  }

  /** A packet that went out: when, in which counting window, and whether the shaper still
      remembered the previous send to that peer. */
  datatype Sent = Sent(kind: Class, dest: string, at: nat, window: nat, remembered: bool)

  /** What is counted and spaced: a class, or a class towards one peer. */
  datatype Key = OfClass(kind: Class) | OfPeer(kind: Class, dest: string)

  predicate Matches(e: Sent, key: Key) {
    e.kind == key.kind && (key.OfPeer? ==> e.dest == key.dest)
  }

  function Cap(cfg: Config, key: Key): nat {
    var p := PolicyOf(cfg, key.kind);
    if key.OfClass? then p.globalMax else p.peerMax
  }

  function Gap(cfg: Config, key: Key): nat {
    var p := PolicyOf(cfg, key.kind);
    (if key.OfClass? then p.globalMinMs else p.peerMinMs) * MS
  }

  /** The sends of one kind. */
  function EventsOf(log: seq<Sent>, key: Key): seq<Event> {
    if log == [] then []
    else
      var e := log[|log| - 1];
      EventsOf(log[..|log| - 1], key) + if Matches(e, key) then [Event(e.at, e.window)] else []
  }

  function CountWindow(log: seq<Sent>, key: Key, window: nat): nat {
    InWindowCount(EventsOf(log, key), window)
  }

  /** Sends in the half-open second from t. */
  function CountSpan(log: seq<Sent>, key: Key, t: nat): nat {
    InSpanCount(EventsOf(log, key), t, SECOND)
  }

  /** The time of the last send of this kind. */
  function LastTime(log: seq<Sent>, key: Key): Option<nat> {
    if log == [] then None
    else if Matches(log[|log| - 1], key) then Some(log[|log| - 1].at)
    else LastTime(log[..|log| - 1], key)
  }

  /** Counting windows start at least a second apart. */
  ghost predicate WindowsSpaced(starts: seq<nat>) {
    starts != [] && StartsSpaced(starts, SECOND)
  }

  /** Every send lies in the first second of its window. */
  ghost predicate AllInWindows(log: seq<Sent>, starts: seq<nat>) {
    forall key: Key :: AllPlaced(EventsOf(log, key), starts, SECOND)
  }

  ghost predicate WithinCaps(log: seq<Sent>, cfg: Config) {
    forall key: Key, w: nat :: Cap(cfg, key) > 0 ==> CountWindow(log, key, w) <= Cap(cfg, key)
  }

  /** The j-th send keeps its distance from the one before it. */
  ghost predicate KeepsDistance(log: seq<Sent>, j: nat, key: Key, gap: nat)
    requires j < |log|
  {
    Matches(log[j], key) && LastTime(log[..j], key).Some? && (key.OfPeer? ==> log[j].remembered) ==>
      LastTime(log[..j], key).value + gap <= log[j].at
  }

  ghost predicate Spaced(log: seq<Sent>, cfg: Config) {
    forall j: nat, key: Key :: j < |log| ==> KeepsDistance(log, j, key, Gap(cfg, key))
  }

  /** The rate bound: in any second, at most twice the cap of a class, or of a class towards
      one peer, wherever that cap is enabled. */
  lemma RateBound(log: seq<Sent>, starts: seq<nat>, cfg: Config, key: Key, t: nat)
    requires WindowsSpaced(starts) && AllInWindows(log, starts) && WithinCaps(log, cfg)
    requires Cap(cfg, key) > 0
    ensures CountSpan(log, key, t) <= 2 * Cap(cfg, key)
  {
    hide Cap, StartsSpaced, AllPlaced, EventsOf;
    forall w: nat
      ensures InWindowCount(EventsOf(log, key), w) <= Cap(cfg, key)
    {
      assert CountWindow(log, key, w) <= Cap(cfg, key);
    }
    TwiceTheCap(EventsOf(log, key), starts, SECOND, Cap(cfg, key), t);
  }

  lemma EventsAppend(log: seq<Sent>, e: Sent, key: Key)
    ensures EventsOf(log + [e], key) == EventsOf(log, key) + if Matches(e, key) then [Event(e.at, e.window)] else []
  {
    assert (log + [e])[..|log|] == log;
  }

  lemma CountWindowAppend(log: seq<Sent>, e: Sent, key: Key, w: nat)
    ensures CountWindow(log + [e], key, w) == CountWindow(log, key, w) + if Matches(e, key) && e.window == w then 1 else 0
  {
    hide Matches;
    EventsAppend(log, e, key);
    CountAppend(EventsOf(log, key), Event(e.at, e.window), w);
    assert EventsOf(log, key) + [] == EventsOf(log, key);
  }

  /** One more send, in the last window, within its caps and distances, keeps everything. */
  lemma SendKeeps(log: seq<Sent>, starts: seq<nat>, cfg: Config, e: Sent)
    requires AllInWindows(log, starts) && WithinCaps(log, cfg) && Spaced(log, cfg)
    requires Placed(Event(e.at, e.window), starts, SECOND)
    requires forall key: Key :: Matches(e, key) && Cap(cfg, key) > 0 ==> CountWindow(log, key, e.window) < Cap(cfg, key)
    requires forall key: Key :: Matches(e, key) && LastTime(log, key).Some? && (key.OfPeer? ==> e.remembered) ==>
        LastTime(log, key).value + Gap(cfg, key) <= e.at
    ensures AllInWindows(log + [e], starts) && WithinCaps(log + [e], cfg) && Spaced(log + [e], cfg)
  {
    hide Placed, Matches, Cap, Gap, CountWindow, EventsOf;
    var more := log + [e];
    forall key: Key
      ensures AllPlaced(EventsOf(more, key), starts, SECOND)
    {
      EventsAppend(log, e, key);
      assert AllPlaced(EventsOf(log, key), starts, SECOND);
    }
    forall key: Key, w: nat | Cap(cfg, key) > 0
      ensures CountWindow(more, key, w) <= Cap(cfg, key)
    {
      CountWindowAppend(log, e, key, w);
      assert CountWindow(log, key, w) <= Cap(cfg, key);
    }
    forall j: nat, key: Key | j < |more|
      ensures KeepsDistance(more, j, key, Gap(cfg, key))
    {
      assert more[..j] == log[..j];
      if j < |log| {
        assert KeepsDistance(log, j, key, Gap(cfg, key));
      } else {
        assert log[..j] == log;
      }
    }
  }

  /** A new window does not disturb the sends already placed, and starts empty. */
  lemma NewWindow(log: seq<Sent>, starts: seq<nat>, start: nat)
    requires WindowsSpaced(starts) && AllInWindows(log, starts) && starts[|starts| - 1] + SECOND <= start
    ensures WindowsSpaced(starts + [start]) && AllInWindows(log, starts + [start])
    ensures forall key: Key :: CountWindow(log, key, |starts|) == 0
  {
    hide StartsSpaced, AllPlaced, EventsOf, InWindowCount;
    WindowKeeps([], starts, SECOND, start) by { NothingPlaced(starts); }
    forall key: Key
      ensures AllPlaced(EventsOf(log, key), starts + [start], SECOND)
      ensures InWindowCount(EventsOf(log, key), |starts|) == 0
    {
      WindowKeeps(EventsOf(log, key), starts, SECOND, start);
    }
  }

  lemma NothingPlaced(starts: seq<nat>)
    ensures AllPlaced([], starts, SECOND)
  {
  }
}
