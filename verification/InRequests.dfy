/** The inbound flood counters of `src/kad/service.rs`. Times are nanoseconds. */
module InRequests {
  import opened Wrappers
  import opened Integers
  import opened Collections
  import opened Windows
  import opened OutRequests

  const MINUTE: nat := 60_000_000_000
  const CLEANUP_EVERY: nat := 12 * MINUTE
  const ENTRY_TTL: nat := 15 * MINUTE
  const MAX_SOURCES: nat := 4096
  const MAX_OPCODES: nat := 8

  /** The request opcodes that are limited, by their canonical form. */
  const LIMITED: set<nat> := {BOOTSTRAP_REQ, HELLO_REQ, REQ, SEARCH_KEY_REQ, SEARCH_SOURCE_REQ,
                              PUBLISH_KEY_REQ, PUBLISH_SOURCE_REQ, PING}

  function LimitOf(canonical: nat): (limit: nat)
    ensures 0 < limit <= 30
  {
    if canonical == BOOTSTRAP_REQ || canonical == PING then 2
    else if canonical == HELLO_REQ then 3
    else 30
  }

  /** `inbound_request_limit_per_minute`. */
  function Limited(opcode: nat): Option<nat> {
    match Canonical(opcode)
    case Some(c) => if c in LIMITED then Some(c) else None
    case None => None
  }

  lemma LimitedOpcodes()
    ensures |LIMITED| == MAX_OPCODES
  {
  }

  datatype Counter = Counter(firstAdded: nat, count: nat)

  type Counters = map<nat, Counter>

  /** One counter: a source and a canonical opcode. */
  type Slot = (string, nat)

  /** What a slot let through since its source was last thrown out to make room: the starts
      of its counting windows and the requests that passed. */
  datatype History = History(starts: seq<nat>, passed: seq<Event>)

  const NO_HISTORY := History([], [])

  function HistoryOf(h: map<Slot, History>, slot: Slot): History {
    if slot in h then h[slot] else NO_HISTORY
  }

  ghost predicate Regular(h: History, limit: nat) {
    && StartsSpaced(h.starts, MINUTE) && AllPlaced(h.passed, h.starts, MINUTE)
    && AtMostPerWindow(h.passed, limit)
  }

  /** The counter stands for the last window of its history. */
  ghost predicate Stands(c: Counter, h: History, limit: nat) {
    && h.starts != [] && h.starts[|h.starts| - 1] == c.firstAdded
    && InWindowCount(h.passed, |h.starts| - 1) == (if c.count < limit then c.count else limit)
  }

  /** Without a counter, the next window may start any time from now on. */
  ghost predicate Over(h: History, now: nat) {
    h.starts != [] ==> h.starts[|h.starts| - 1] + MINUTE <= now
  }

  ghost predicate Begun(h: History, now: nat) {
    h.starts != [] ==> h.starts[|h.starts| - 1] <= now
  }

  /** The counter after one more request. */
  function NextCounter(c: Option<Counter>, now: nat): Counter {
    if c.None? || now >= c.value.firstAdded + MINUTE then Counter(now, 1)
    else c.value.(count := SaturatingIncU32(c.value.count))
  }

  /** The history after it: a new window where the counter starts anew, and the request among
      those that passed if it is within the limit. */
  ghost function NextHistory(h: History, c: Option<Counter>, now: nat, limit: nat): History {
    var starts := if c.None? || now >= c.value.firstAdded + MINUTE then h.starts + [now] else h.starts;
    History(starts,
            if NextCounter(c, now).count <= limit && starts != [] then h.passed + [Event(now, |starts| - 1)] else h.passed)
  }

  lemma NextFine(h: History, c: Option<Counter>, clock: nat, now: nat, limit: nat)
    requires Regular(h, limit) && Begun(h, clock) && clock <= now && 0 < limit < U32_MAX
    requires c.Some? ==> Stands(c.value, h, limit)
    requires c.None? ==> Over(h, clock)
    ensures
        var next := NextHistory(h, c, now, limit);
        Regular(next, limit) && Begun(next, now) && Stands(NextCounter(c, now), next, limit)
  {
    hide StartsSpaced, AllPlaced, AtMostPerWindow, InWindowCount;
    var next := NextHistory(h, c, now, limit);
    var window := |next.starts| - 1;
    if c.None? || now >= c.value.firstAdded + MINUTE {
      WindowKeeps(h.passed, h.starts, MINUTE, now);
    }
    if NextCounter(c, now).count <= limit {
      var e := Event(now, window);
      AppendKeeps(h.passed, next.starts, MINUTE, limit, e);
      CountAppend(h.passed, e, window);
    }
  }

  /** The history lets one more request through: its last minute is over, or fewer requests than
      the limit have passed in it. */
  ghost predicate Admits(h: History, now: nat, limit: nat) {
    || h.starts == []
    || h.starts[|h.starts| - 1] + 60_000_000_000 <= now
    || InWindowCount(h.passed, |h.starts| - 1) < limit
  }

  /** The counter decides as the history says. */
  lemma AdmitsExactlyWhen(sources: map<string, Counters>, h: map<Slot, History>, slot: Slot, now: nat)
    requires AllFine(sources, h, now)
    ensures NextCounter(CounterOf(sources, slot), now).count <= LimitOf(slot.1) <==> Admits(HistoryOf(h, slot), now, LimitOf(slot.1))
  {
    hide Regular, InWindowCount, CounterOf, HistoryOf, LimitOf;
    assert SlotFine(sources, h, slot, now);
  }

  ghost predicate SlotFine(sources: map<string, Counters>, h: map<Slot, History>, slot: Slot, now: nat) {
    && Regular(HistoryOf(h, slot), LimitOf(slot.1)) && Begun(HistoryOf(h, slot), now)
    && if CounterOf(sources, slot).Some? then Stands(CounterOf(sources, slot).value, HistoryOf(h, slot), LimitOf(slot.1))
       else Over(HistoryOf(h, slot), now)
  }

  ghost predicate AllFine(sources: map<string, Counters>, h: map<Slot, History>, now: nat) {
    forall slot: Slot :: SlotFine(sources, h, slot, now)
  }

  ghost predicate Shaped(sources: map<string, Counters>) {
    && |sources| <= MAX_SOURCES
    && forall s :: s in sources ==> sources[s] != map[] && sources[s].Keys <= LIMITED
  }

  /** The counters young enough to keep. */
  function Young(m: Counters, now: nat): Counters {
    map op | op in m && now <= m[op].firstAdded + ENTRY_TTL :: m[op]
  }

  /** `retain` over all sources. */
  function Retained(sources: map<string, Counters>, now: nat): map<string, Counters> {
    map s | s in sources && Young(sources[s], now) != map[] :: Young(sources[s], now)
  }

  /** `enforce_tracked_in_opcode_cap`: keeps the eight most recent counters of a source. */
  method TrimOpcodes(m: Counters) returns (r: Counters)
    ensures |m| <= MAX_OPCODES ==> r == m
    ensures r.Keys <= m.Keys && forall op :: op in r ==> r[op] == m[op]
    ensures |r| == if |m| < MAX_OPCODES then |m| else MAX_OPCODES
    ensures forall a, b :: a in m && a !in r && b in r ==> m[a].firstAdded <= m[b].firstAdded
  {
    r := m;
    while |r| > MAX_OPCODES
      invariant |m| <= MAX_OPCODES ==> r == m
      invariant r.Keys <= m.Keys && forall op :: op in r ==> r[op] == m[op]
      invariant |r| <= |m| && |r| >= if |m| < MAX_OPCODES then |m| else MAX_OPCODES
      invariant forall a, b :: a in m && a !in r && b in r ==> m[a].firstAdded <= m[b].firstAdded
      decreases |r|
    {
      var oldest := OldestCounter(r);
      RemoveKey(r, oldest);
      r := r - {oldest};
    }
  }

  method OldestCounter(m: Counters) returns (oldest: nat)
    requires m != map[]
    ensures oldest in m && forall op :: op in m ==> m[oldest].firstAdded <= m[op].firstAdded
  {
    var rest := m.Keys;
    oldest :| oldest in rest;
    rest := rest - {oldest};
    while rest != {}
      invariant rest <= m.Keys && oldest in m
      invariant forall op :: op in m && op !in rest ==> m[oldest].firstAdded <= m[op].firstAdded
      decreases |rest|
    {
      var op :| op in rest;
      if m[op].firstAdded < m[oldest].firstAdded {
        oldest := op;
      }
      rest := rest - {op};
    }
  }

  class InTracker {
    var sources: map<string, Counters>
    var lastCleanup: nat

    /** The history of every slot since its source was last evicted. */
    ghost var history: map<Slot, History>
    ghost var clock: nat

    ghost predicate Valid()
      reads this
    {
      Shaped(sources) && AllFine(sources, history, clock) && lastCleanup <= clock
    }

    constructor (now: nat)
      ensures Valid() && sources == map[] && history == map[] && clock == now
    {
      sources, lastCleanup := map[], now;
      history, clock := map[], now;
    }

    /** `cleanup_tracked_in_requests`: the opcode trim and the source eviction in it never
        have anything to do. */
    method Cleanup(now: nat)
      requires Valid() && clock <= now
      modifies this
      ensures Valid() && clock == now && history == old(history)
      ensures sources == Retained(old(sources), now) && lastCleanup == now
    {
      RetainedFine(sources, history, clock, now);
      RetainedShaped(sources, now);
      sources := Retained(sources, now);
      lastCleanup, clock := now, now;
    }

    /** `evict_oldest_tracked_in_source`. */
    method EvictOldest() returns (ghost evicted: string)
      requires Valid() && sources != map[]
      modifies this`sources, this`history
      ensures Valid()
      ensures HoldsOldest(old(sources), evicted) && sources == old(sources) - {evicted}
      ensures forall slot: Slot :: HistoryOf(history, slot) == if slot.0 == evicted then NO_HISTORY else HistoryOf(old(history), slot)
    {
      hide SlotFine, HistoryOf, Regular, Stands, Over;
      var oldest := OldestSource(sources);
      evicted := oldest;
      EvictFine(sources, history, clock, oldest);
      sources := sources - {oldest};
      history := Without(history, oldest);
    }

    /** The first half of `inbound_request_allowed`: clean up when it is time or the table is
        full, and throw out the oldest source if a new one still has no room. */
    method MakeRoom(dest: string, now: nat)
      requires Valid() && clock <= now
      modifies this
      ensures Valid() && clock == now && (dest in sources || |sources| < MAX_SOURCES)
      ensures forall op :: HistoryOf(history, (dest, op)) == HistoryOf(old(history), (dest, op))
    {
      hide AllFine, HistoryOf, HoldsOldest, Retained;
      var forceCleanup := |sources| >= MAX_SOURCES;
      if forceCleanup || now >= lastCleanup + CLEANUP_EVERY {
        Cleanup(now);
      } else {
        LaterFine(sources, history, clock, now);
        clock := now;
      }
      if dest !in sources && |sources| >= MAX_SOURCES {
        ghost var full := sources;
        ghost var evicted := EvictOldest();
        HoldsIsKnown(full, evicted);
        RemoveKey(full, evicted);
      }
    }

    /** The second half: count the request, in a new minute if the last one is over. */
    method CountRequest(dest: string, canonical: nat, now: nat) returns (ok: bool)
      requires Valid() && clock == now && canonical in LIMITED && (dest in sources || |sources| < MAX_SOURCES)
      modifies this
      ensures Valid() && clock == now
      ensures
        var slot := (dest, canonical);
        var c := CounterOf(old(sources), slot);
        && history == old(history)[slot := NextHistory(HistoryOf(old(history), slot), c, now, LimitOf(canonical))]
        && (ok <==> NextCounter(c, now).count <= LimitOf(canonical))
    {
      hide AllFine, HistoryOf, NextHistory, NextCounter, Shaped, LimitOf, CounterOf, CounterIn;
      ghost var slot := (dest, canonical);
      ghost var c := CounterOf(sources, slot);
      CountFine(sources, history, now, slot);
      FewOpcodes(sources);
      var perDest := if dest in sources then sources[dest] else map[];
      CounterIsIn(sources, slot);
      ghost var counted := sources[dest := perDest[canonical := NextCounter(c, now)]];
      FewOpcodes(counted);
      assert |counted[dest]| <= MAX_OPCODES;
      perDest, ok := CountIn(perDest, canonical, now);
      sources := sources[dest := perDest];
      history := history[slot := NextHistory(HistoryOf(history, slot), c, now, LimitOf(canonical))];
    }

    /** `inbound_request_allowed`: a request passes unless its counter is already at the limit
        for the minute; requests that are not limited always pass. */
    method Allowed(dest: string, opcode: nat, now: nat) returns (ok: bool)
      requires Valid() && clock <= now
      modifies this
      ensures Valid()
      ensures Limited(opcode).None? ==> ok && sources == old(sources) && history == old(history)
      ensures Limited(opcode).Some? ==>
        var slot := (dest, Limited(opcode).value);
        && clock == now && Advanced(PassedOf(old(history), slot), PassedOf(history, slot), ok, now)
        && (ok <==> Admits(HistoryOf(old(history), slot), now, LimitOf(slot.1)))
    {
      hide AllFine, HistoryOf, NextHistory, NextCounter, SlotFine, Shaped, Limited, Advanced, Admits;
      var limited := Limited(opcode);
      if limited.None? {
        return true;
      }
      LimitedIsCanonical(opcode);
      ghost var slot := (dest, limited.value);
      ghost var h := HistoryOf(history, slot);
      MakeRoom(dest, now);
      assert HistoryOf(history, slot) == h;
      ghost var before := history;
      ghost var c := CounterOf(sources, slot);
      CounterHasWindow(sources, history, slot, now);
      AdmitsExactlyWhen(sources, history, slot, now);
      ok := CountRequest(dest, limited.value, now);
      JustCounted(before, slot, h, NextHistory(h, c, now, LimitOf(slot.1)));
      NextPassed(h, c, now, LimitOf(slot.1));
    }

    /** The flood bound: whatever came in, no slot let more than twice its limit through in
        any minute since its source was last thrown out for room; and the table stays small. */
    lemma FloodBound(slot: Slot, t: nat)
      requires Valid()
      ensures InSpanCount(PassedOf(history, slot), t, MINUTE) <= 2 * LimitOf(slot.1)
      ensures |sources| <= MAX_SOURCES && forall s :: s in sources ==> |sources[s]| <= MAX_OPCODES
    {
      hide InSpanCount, StartsSpaced, AllPlaced, AtMostPerWindow;
      SlotIsFine(sources, history, slot, clock);
      var h := HistoryOf(history, slot);
      TwiceTheCap(h.passed, h.starts, MINUTE, LimitOf(slot.1), t);
      FewOpcodes(sources);
    }
  }

  function PassedOf(h: map<Slot, History>, slot: Slot): seq<Event> {
    HistoryOf(h, slot).passed
  }

  lemma JustCounted(h: map<Slot, History>, slot: Slot, was: History, next: History)
    requires HistoryOf(h, slot) == was
    ensures PassedOf(h, slot) == was.passed && PassedOf(h[slot := next], slot) == next.passed
  {
  }

  /** Counting in one source's counters; the opcode trims around it never trim. */
  method CountIn(perDest: Counters, canonical: nat, now: nat) returns (counters: Counters, ok: bool)
    requires |perDest| <= MAX_OPCODES
    requires |perDest[canonical := NextCounter(CounterIn(perDest, canonical), now)]| <= MAX_OPCODES
    ensures counters == perDest[canonical := NextCounter(CounterIn(perDest, canonical), now)]
    ensures ok <==> NextCounter(CounterIn(perDest, canonical), now).count <= LimitOf(canonical)
  {
    counters := TrimOpcodes(perDest);
    var counter := if canonical in counters then counters[canonical] else Counter(now, 0);
    if now >= counter.firstAdded + MINUTE {
      counter := Counter(now, 0);
    }
    counter := counter.(count := SaturatingIncU32(counter.count));
    counters := counters[canonical := counter];
    ok := counter.count <= LimitOf(canonical);
    if ok {
      counters := TrimOpcodes(counters);
    }
  }

  function CounterIn(m: Counters, canonical: nat): Option<Counter> {
    if canonical in m then Some(m[canonical]) else None
  }

  lemma CounterIsIn(sources: map<string, Counters>, slot: Slot)
    ensures CounterOf(sources, slot) == CounterIn(if slot.0 in sources then sources[slot.0] else map[], slot.1)
  {
  }

  /** One more request among those that passed, at this time, or none. */
  ghost predicate Advanced(was: seq<Event>, after: seq<Event>, ok: bool, now: nat) {
    && (ok ==> |after| == |was| + 1 && after[..|was|] == was && after[|was|].at == now)
    && (!ok ==> after == was)
  }

  lemma NextPassed(h: History, c: Option<Counter>, now: nat, limit: nat)
    requires c.Some? ==> h.starts != []
    ensures Advanced(h.passed, NextHistory(h, c, now, limit).passed, NextCounter(c, now).count <= limit, now)
  {
  }

  lemma CounterHasWindow(sources: map<string, Counters>, h: map<Slot, History>, slot: Slot, now: nat)
    requires AllFine(sources, h, now)
    ensures CounterOf(sources, slot).Some? ==> HistoryOf(h, slot).starts != []
  {
    assert SlotFine(sources, h, slot, now);
  }

  lemma LimitedIsCanonical(opcode: nat)
    ensures Limited(opcode).Some? ==> Limited(opcode).value in LIMITED
  {
  }

  lemma SlotIsFine(sources: map<string, Counters>, h: map<Slot, History>, slot: Slot, now: nat)
    requires AllFine(sources, h, now)
    ensures SlotFine(sources, h, slot, now)
  {
  }

  function CounterOf(sources: map<string, Counters>, slot: Slot): Option<Counter> {
    if slot.0 in sources && slot.1 in sources[slot.0] then Some(sources[slot.0][slot.1]) else None
  }

  lemma FewCounters(m: Counters)
    ensures m.Keys <= LIMITED ==> |m| <= MAX_OPCODES
  {
    LimitedOpcodes();
    if m.Keys <= LIMITED {
      SubsetSize(m.Keys, LIMITED);
    }
  }

  lemma FewOpcodes(sources: map<string, Counters>)
    requires Shaped(sources)
    ensures forall s :: s in sources ==> |sources[s]| <= MAX_OPCODES
  {
    forall s | s in sources
      ensures |sources[s]| <= MAX_OPCODES
    {
      FewCounters(sources[s]);
    }
  }

  /** Time passing changes nothing. */
  lemma LaterFine(sources: map<string, Counters>, h: map<Slot, History>, clock: nat, now: nat)
    requires AllFine(sources, h, clock) && clock <= now
    ensures AllFine(sources, h, now)
  {
    hide Regular, HistoryOf, Stands;
    forall slot: Slot
      ensures SlotFine(sources, h, slot, now)
    {
      assert SlotFine(sources, h, slot, clock);
    }
  }

  lemma CountFine(sources: map<string, Counters>, h: map<Slot, History>, now: nat, slot: Slot)
    requires AllFine(sources, h, now) && Shaped(sources) && slot.1 in LIMITED
    requires slot.0 in sources || |sources| < MAX_SOURCES
    ensures
        var c := CounterOf(sources, slot);
        var counters := (if slot.0 in sources then sources[slot.0] else map[])[slot.1 := NextCounter(c, now)];
        var after := sources[slot.0 := counters];
        && Shaped(after)
        && AllFine(after, h[slot := NextHistory(HistoryOf(h, slot), c, now, LimitOf(slot.1))], now)
  {
    hide Regular, Stands, Over, Begun, NextHistory, NextCounter, HistoryOf, CounterOf, Shaped, LimitOf;
    var c := CounterOf(sources, slot);
    var counters := (if slot.0 in sources then sources[slot.0] else map[])[slot.1 := NextCounter(c, now)];
    var after := sources[slot.0 := counters];
    var next := NextHistory(HistoryOf(h, slot), c, now, LimitOf(slot.1));
    assert SlotFine(sources, h, slot, now);
    NextFine(HistoryOf(h, slot), c, now, now, LimitOf(slot.1));
    CountShaped(sources, slot, NextCounter(c, now));
    var later := h[slot := next];
    forall other: Slot
      ensures SlotFine(after, later, other, now)
    {
      assert SlotFine(sources, h, other, now);
      SlotUpdated(sources, h, slot, NextCounter(c, now), next, other);
    }
  }

  lemma CountShaped(sources: map<string, Counters>, slot: Slot, c: Counter)
    requires Shaped(sources) && slot.1 in LIMITED && (slot.0 in sources || |sources| < MAX_SOURCES)
    ensures
        var counters := (if slot.0 in sources then sources[slot.0] else map[])[slot.1 := c];
        Shaped(sources[slot.0 := counters])
  {
    var counters := (if slot.0 in sources then sources[slot.0] else map[])[slot.1 := c];
    assert slot.1 in counters;
    SetKey(sources, slot.0, counters);
  }

  /** Counting in one slot changes this slot only. */
  lemma SlotUpdated(sources: map<string, Counters>, h: map<Slot, History>, slot: Slot, c: Counter, next: History, other: Slot)
    ensures HistoryOf(h[slot := next], other) == if other == slot then next else HistoryOf(h, other)
    ensures
        var counters := (if slot.0 in sources then sources[slot.0] else map[])[slot.1 := c];
        CounterOf(sources[slot.0 := counters], other) == if other == slot then Some(c) else CounterOf(sources, other)
  {
    assert other == (other.0, other.1) && slot == (slot.0, slot.1);
  }

  lemma HoldsIsKnown(sources: map<string, Counters>, source: string)
    ensures HoldsOldest(sources, source) ==> source in sources
  {
  }

  /** The source with the oldest counter. */
  method OldestSource(sources: map<string, Counters>) returns (oldest: string)
    requires sources != map[] && forall s :: s in sources ==> sources[s] != map[]
    ensures HoldsOldest(sources, oldest)
  {
    var rest := sources.Keys;
    oldest :| oldest in rest;
    var op := OldestCounter(sources[oldest]);
    var at := sources[oldest][op].firstAdded;
    rest := rest - {oldest};
    while rest != {}
      invariant rest <= sources.Keys && oldest in sources
      invariant op in sources[oldest] && at == sources[oldest][op].firstAdded
      invariant forall s, o :: s in sources && s !in rest && o in sources[s] ==> at <= sources[s][o].firstAdded
      decreases |rest|
    {
      var s :| s in rest;
      var first := OldestCounter(sources[s]);
      if sources[s][first].firstAdded < at {
        oldest, op, at := s, first, sources[s][first].firstAdded;
      }
      rest := rest - {s};
    }
  }

  ghost predicate NoneOlder(sources: map<string, Counters>, at: nat) {
    forall s, op :: s in sources && op in sources[s] ==> at <= sources[s][op].firstAdded
  }

  /** No counter of any source is older than the oldest one here. */
  ghost predicate HoldsOldest(sources: map<string, Counters>, source: string) {
    source in sources && exists op :: op in sources[source] && NoneOlder(sources, sources[source][op].firstAdded)
  }

  ghost function Without(h: map<Slot, History>, source: string): map<Slot, History> {
    map slot | slot in h && slot.0 != source :: h[slot]
  }

  lemma RetainedShaped(sources: map<string, Counters>, now: nat)
    requires Shaped(sources)
    ensures Shaped(Retained(sources, now))
  {
    SubsetSize(Retained(sources, now).Keys, sources.Keys);
  }

  /** A counter that is dropped for its age has its window behind it. */
  lemma RetainedFine(sources: map<string, Counters>, h: map<Slot, History>, clock: nat, now: nat)
    requires AllFine(sources, h, clock) && clock <= now
    ensures AllFine(Retained(sources, now), h, now)
  {
    hide Regular, HistoryOf;
    var kept := Retained(sources, now);
    forall slot: Slot
      ensures SlotFine(kept, h, slot, now)
    {
      assert SlotFine(sources, h, slot, clock);
      if slot.0 in sources && slot.1 in sources[slot.0] {
        var young := Young(sources[slot.0], now);
        assert slot.1 in young <==> now <= sources[slot.0][slot.1].firstAdded + ENTRY_TTL;
        assert slot.1 in young ==> slot.0 in kept && kept[slot.0] == young;
      }
    }
  }

  lemma EvictFine(sources: map<string, Counters>, h: map<Slot, History>, now: nat, source: string)
    requires AllFine(sources, h, now) && source in sources && Shaped(sources)
    ensures AllFine(sources - {source}, Without(h, source), now) && Shaped(sources - {source})
    ensures forall slot: Slot :: HistoryOf(Without(h, source), slot) == if slot.0 == source then NO_HISTORY else HistoryOf(h, slot)
  {
    SubsetSize((sources - {source}).Keys, sources.Keys);
    forall slot: Slot
      ensures SlotFine(sources - {source}, Without(h, source), slot, now)
    {
      assert SlotFine(sources, h, slot, now);
    }
  }
}
