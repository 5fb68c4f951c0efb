/** Counting in windows that start at least their length apart: no span of that length sees
    more than twice what one window lets through. */
module Windows {

  /** Something that happened, and the counting window it was counted in. */
  datatype Event = Event(at: nat, window: nat)

  function InWindowCount(events: seq<Event>, window: nat): nat {
    if events == [] then 0
    else InWindowCount(events[..|events| - 1], window) + if events[|events| - 1].window == window then 1 else 0
  }

  /** Events in the half-open span of this length from t. */
  function InSpanCount(events: seq<Event>, t: nat, length: nat): nat {
    if events == [] then 0
    else
      var e := events[|events| - 1];
      InSpanCount(events[..|events| - 1], t, length) + if t <= e.at < t + length then 1 else 0
  }

  ghost predicate StartsSpaced(starts: seq<nat>, length: nat) {
    forall i, j :: 0 <= i < j < |starts| ==> starts[i] + length <= starts[j]
  }

  /** The event lies in the first `length` of its window. */
  ghost predicate Placed(e: Event, starts: seq<nat>, length: nat) {
    e.window < |starts| && starts[e.window] <= e.at < starts[e.window] + length
  }

  ghost predicate AllPlaced(events: seq<Event>, starts: seq<nat>, length: nat) {
    forall i :: 0 <= i < |events| ==> Placed(events[i], starts, length)
  }

  ghost predicate AtMostPerWindow(events: seq<Event>, cap: nat) {
    forall w: nat :: InWindowCount(events, w) <= cap
  }

  /** The window a time falls in, or the last one before it. */
  function WindowAt(starts: seq<nat>, t: nat, k: nat): (w: nat)
    requires k < |starts|
    ensures w <= k
    ensures forall i :: w < i <= k ==> starts[i] > t
    ensures starts[w] <= t || w == 0
  {
    if starts[k] <= t || k == 0 then k else WindowAt(starts, t, k - 1)
  }

  lemma StartsApart(starts: seq<nat>, length: nat, i: nat, j: nat)
    requires StartsSpaced(starts, length) && i < j < |starts|
    ensures starts[i] + length <= starts[j]
  {
  }

  /** A half-open span meets at most two windows. */
  lemma SpanMeetsTwoWindows(e: Event, starts: seq<nat>, length: nat, t: nat)
    requires starts != [] && StartsSpaced(starts, length) && Placed(e, starts, length) && t <= e.at < t + length
    ensures var w := WindowAt(starts, t, |starts| - 1); w <= e.window <= w + 1
  {
    hide StartsSpaced;
    var w := WindowAt(starts, t, |starts| - 1);
    if e.window < w {
      StartsApart(starts, length, e.window, w);
    } else if e.window > w + 1 {
      StartsApart(starts, length, w + 1, e.window);
    }
  }

  lemma {:induction false} SpanInWindows(events: seq<Event>, starts: seq<nat>, length: nat, t: nat)
    requires starts != [] && StartsSpaced(starts, length) && AllPlaced(events, starts, length)
    ensures
        var w := WindowAt(starts, t, |starts| - 1);
        InSpanCount(events, t, length) <= InWindowCount(events, w) + InWindowCount(events, w + 1)
  {
    hide WindowAt, StartsSpaced, Placed;
    if events != [] {
      SpanInWindows(events[..|events| - 1], starts, length, t);
      var e := events[|events| - 1];
      assert Placed(e, starts, length);
      if t <= e.at < t + length {
        SpanMeetsTwoWindows(e, starts, length, t);
      }
    }
  }

  /** The rate bound. */
  lemma TwiceTheCap(events: seq<Event>, starts: seq<nat>, length: nat, cap: nat, t: nat)
    requires StartsSpaced(starts, length) && AllPlaced(events, starts, length) && AtMostPerWindow(events, cap)
    ensures InSpanCount(events, t, length) <= 2 * cap
  {
    hide InWindowCount, StartsSpaced, AllPlaced, WindowAt;
    if starts == [] {
      NoEvents(events, length);
    } else {
      SpanInWindows(events, starts, length, t);
      var w := WindowAt(starts, t, |starts| - 1);
      assert InWindowCount(events, w) <= cap && InWindowCount(events, w + 1) <= cap;
    }
  }

  lemma NoEvents(events: seq<Event>, length: nat)
    requires AllPlaced(events, [], length)
    ensures events == []
  {
    assert events != [] ==> Placed(events[0], [], length);
  }

  /** Appending an event to its window, within the cap. */
  lemma AppendKeeps(events: seq<Event>, starts: seq<nat>, length: nat, cap: nat, e: Event)
    requires AllPlaced(events, starts, length) && AtMostPerWindow(events, cap)
    requires Placed(e, starts, length) && InWindowCount(events, e.window) < cap
    ensures AllPlaced(events + [e], starts, length) && AtMostPerWindow(events + [e], cap)
  {
    hide Placed;
    assert (events + [e])[..|events|] == events;
    forall w: nat
      ensures InWindowCount(events + [e], w) <= cap
    {
      assert InWindowCount(events, w) <= cap;
    }
  }

  lemma CountAppend(events: seq<Event>, e: Event, w: nat)
    ensures InWindowCount(events + [e], w) == InWindowCount(events, w) + if e.window == w then 1 else 0
  {
    assert (events + [e])[..|events|] == events;
  }

  lemma SpanAppend(events: seq<Event>, e: Event, t: nat, length: nat)
    ensures InSpanCount(events + [e], t, length) == InSpanCount(events, t, length) + if t <= e.at < t + length then 1 else 0
  {
    assert (events + [e])[..|events|] == events;
  }

  /** A new window does not disturb the events already placed, and starts empty. */
  lemma WindowKeeps(events: seq<Event>, starts: seq<nat>, length: nat, start: nat)
    requires StartsSpaced(starts, length) && AllPlaced(events, starts, length)
    requires starts != [] ==> starts[|starts| - 1] + length <= start
    ensures StartsSpaced(starts + [start], length) && AllPlaced(events, starts + [start], length)
    ensures InWindowCount(events, |starts|) == 0
  {
    var more := starts + [start];
    forall i, j | 0 <= i < j < |more|
      ensures more[i] + length <= more[j]
    {
      assert i < |starts| - 1 ==> starts[i] + length <= starts[|starts| - 1];
    }
    forall i | 0 <= i < |events|
      ensures Placed(events[i], more, length)
    {
      assert Placed(events[i], starts, length);
    }
    EmptyWindow(events, starts, length);
  }

  lemma {:induction false} EmptyWindow(events: seq<Event>, starts: seq<nat>, length: nat)
    requires AllPlaced(events, starts, length)
    ensures InWindowCount(events, |starts|) == 0
  {
    if events != [] {
      EmptyWindow(events[..|events| - 1], starts, length);
      assert Placed(events[|events| - 1], starts, length);
    }
  }
}
