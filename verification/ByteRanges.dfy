/** Sorted lists of inclusive byte ranges, as kept by `src/download/service.rs`. */
module ByteRanges {
  import opened Collections
  import Sorting

  datatype ByteRange = ByteRange(start: nat, end: nat)

  predicate Within(b: nat, r: ByteRange) {
    r.start <= b <= r.end
  }

  ghost function Span(r: ByteRange): set<nat> {
    set b: nat | r.start <= b <= r.end && Within(b, r)
  }

  /** The set of bytes a list of ranges stands for. */
  ghost function Bytes(rs: seq<ByteRange>): set<nat> {
    if rs == [] then {} else Span(rs[0]) + Bytes(rs[1..])
  }

  ghost predicate AllValid(rs: seq<ByteRange>) {
    forall i :: 0 <= i < |rs| ==> rs[i].start <= rs[i].end
  }

  /** Sorted, with at least one byte between two ranges. */
  ghost predicate Apart(rs: seq<ByteRange>) {
    forall i, j :: 0 <= i < j < |rs| ==> rs[i].end + 1 < rs[j].start
  }

  ghost predicate Canonical(rs: seq<ByteRange>) {
    AllValid(rs) && Apart(rs)
  }

  ghost predicate Disjoint(a: ByteRange, b: ByteRange) {
    a.end < b.start || b.end < a.start
  }

  lemma {:induction false} BytesMember(rs: seq<ByteRange>, b: nat)
    ensures b in Bytes(rs) <==> exists i :: 0 <= i < |rs| && rs[i].start <= b <= rs[i].end
  {
    if rs != [] {
      BytesMember(rs[1..], b);
      if b in Bytes(rs[1..]) {
        var i :| 0 <= i < |rs[1..]| && rs[1..][i].start <= b <= rs[1..][i].end;
        assert rs[i + 1] == rs[1..][i];
      }
      if i :| 0 <= i < |rs| && rs[i].start <= b <= rs[i].end && i > 0 {
        assert rs[1..][i - 1] == rs[i];
      }
    }
  }

  lemma {:induction false} BytesConcat(a: seq<ByteRange>, b: seq<ByteRange>)
    ensures Bytes(a + b) == Bytes(a) + Bytes(b)
  {
    if a == [] {
      assert a + b == b;
    } else {
      assert (a + b)[1..] == a[1..] + b;
      BytesConcat(a[1..], b);
    }
  }

  lemma BytesOfNone()
    ensures Bytes([]) == {}
  {
  }

  lemma BytesOfOne(r: ByteRange)
    ensures Bytes([r]) == Span(r)
  {
    assert [r][1..] == [];
  }

  /** Removing entry k of pairwise disjoint ranges removes exactly its bytes. */
  lemma BytesWithout(rs: seq<ByteRange>, k: nat)
    requires k < |rs| && forall i :: 0 <= i < |rs| && i != k ==> Disjoint(rs[i], rs[k])
    ensures Bytes(rs[..k] + rs[k + 1..]) == Bytes(rs) - Span(rs[k])
  {
    hide Bytes, Span;
    var a, b := rs[..k], rs[k + 1..];
    assert rs == a + ([rs[k]] + b);
    BytesConcat(a, [rs[k]] + b);
    BytesConcat([rs[k]], b);
    BytesConcat(a, b);
    BytesOfOne(rs[k]);
    DisjointBytes(a + b, rs[k]);
  }

  lemma {:induction false} DisjointBytes(rs: seq<ByteRange>, r: ByteRange)
    requires forall i :: 0 <= i < |rs| ==> Disjoint(rs[i], r)
    ensures Bytes(rs) !! Span(r)
  {
    if rs != [] {
      DisjointBytes(rs[1..], r);
    }
  }

  lemma TouchingSpans(a: ByteRange, b: ByteRange)
    requires a.start <= a.end && b.start <= b.end && b.start <= a.end + 1 && a.start <= b.end + 1
    ensures Span(ByteRange(Min(a.start, b.start), Max(a.end, b.end))) == Span(a) + Span(b)
  {
  }

  lemma CanonicalTail(rs: seq<ByteRange>)
    requires Canonical(rs) && rs != []
    ensures Canonical(rs[1..])
    ensures forall b :: b in Bytes(rs[1..]) ==> rs[0].end + 1 < b
    ensures forall b :: b in Bytes(rs) ==> rs[0].start <= b
    ensures rs[0].start in Bytes(rs) && rs[0].end in Bytes(rs) && rs[0].end + 1 !in Bytes(rs)
    ensures Bytes(rs) == Span(rs[0]) + Bytes(rs[1..]) && Span(rs[0]) !! Bytes(rs[1..])
  {
    forall b | b in Bytes(rs[1..])
      ensures rs[0].end + 1 < b
    {
      BytesMember(rs[1..], b);
    }
  }

  /** The canonical form of a set of bytes is unique. */
  lemma {:induction false} CanonicalUnique(a: seq<ByteRange>, b: seq<ByteRange>)
    requires Canonical(a) && Canonical(b) && Bytes(a) == Bytes(b)
    ensures a == b
  {
    if a == [] || b == [] {
      if a != [] { CanonicalTail(a); }
      if b != [] { CanonicalTail(b); }
    } else {
      CanonicalTail(a);
      CanonicalTail(b);
      assert a[0].start == b[0].start;
      assert a[0].end + 1 !in Span(b[0]) && b[0].end + 1 !in Span(a[0]);
      assert a[0].end == b[0].end;
      assert Bytes(a[1..]) == Bytes(a) - Span(a[0]);
      assert Bytes(b[1..]) == Bytes(b) - Span(b[0]);
      CanonicalUnique(a[1..], b[1..]);
    }
  }

  function Length(r: ByteRange): nat {
    if r.start <= r.end then r.end - r.start + 1 else 1
  }

  /** `total_missing`. */
  function TotalMissing(rs: seq<ByteRange>): nat {
    if rs == [] then 0 else Length(rs[0]) + TotalMissing(rs[1..])
  }

  lemma {:induction false} SpanSize(r: ByteRange)
    requires r.start <= r.end
    ensures |Span(r)| == Length(r)
    decreases r.end
  {
    if r.start == r.end {
      assert Span(r) == {r.start};
    } else {
      var shorter := ByteRange(r.start, r.end - 1);
      SpanSize(shorter);
      assert Span(r) == Span(shorter) + {r.end};
    }
  }

  /** The total of a canonical list is the number of bytes it stands for. */
  lemma {:induction false} TotalIsSize(rs: seq<ByteRange>)
    requires Canonical(rs)
    ensures TotalMissing(rs) == |Bytes(rs)|
  {
    if rs != [] {
      CanonicalTail(rs);
      TotalIsSize(rs[1..]);
      SpanSize(rs[0]);
      assert Span(rs[0]) !! Bytes(rs[1..]);
    }
  }

  function Min(a: nat, b: nat): nat { if a <= b then a else b }
  function Max(a: nat, b: nat): nat { if a <= b then b else a }

  /** Adds one range to a canonical list, absorbing every range it touches. */
  function Insert(rs: seq<ByteRange>, r: ByteRange): (out: seq<ByteRange>)
    decreases |rs|
  {
    if rs == [] then [r]
    else if r.end + 1 < rs[0].start then [r] + rs
    else if rs[0].end + 1 < r.start then [rs[0]] + Insert(rs[1..], r)
    else Insert(rs[1..], ByteRange(Min(rs[0].start, r.start), Max(rs[0].end, r.end)))
  }

  lemma {:induction false} InsertCorrect(rs: seq<ByteRange>, r: ByteRange)
    requires Canonical(rs) && r.start <= r.end
    ensures Canonical(Insert(rs, r)) && Bytes(Insert(rs, r)) == Bytes(rs) + Span(r)
    decreases |rs|
  {
    BytesOfNone();
    hide Bytes, Span;
    BytesOfOne(r);
    if rs == [] {
      assert rs == [];
    } else {
      CanonicalTail(rs);
      if r.end + 1 < rs[0].start {
        BytesConcat([r], rs);
      } else if rs[0].end + 1 < r.start {
        InsertCorrect(rs[1..], r);
        AllAbove(rs[1..], r, rs[0].end + 1);
        PrependCanonical(rs[0], Insert(rs[1..], r));
      } else {
        InsertCorrect(rs[1..], ByteRange(Min(rs[0].start, r.start), Max(rs[0].end, r.end)));
        TouchingSpans(rs[0], r);
      }
    }
  }

  lemma AllAbove(rs: seq<ByteRange>, r: ByteRange, bound: nat)
    requires bound < r.start && forall b :: b in Bytes(rs) ==> bound < b
    ensures forall b :: b in Bytes(rs) + Span(r) ==> bound < b
  {
  }

  lemma PrependCanonical(r: ByteRange, rs: seq<ByteRange>)
    requires Canonical(rs) && r.start <= r.end && forall b :: b in Bytes(rs) ==> r.end + 1 < b
    ensures Canonical([r] + rs) && Bytes([r] + rs) == Span(r) + Bytes(rs)
  {
    assert ([r] + rs)[1..] == rs;
    forall i | 0 <= i < |rs|
      ensures r.end + 1 < rs[i].start
    {
      BytesMember(rs, rs[i].start);
    }
  }

  /** The canonical form of any list of ranges, one insertion at a time. */
  function Merged(rs: seq<ByteRange>): seq<ByteRange> {
    if rs == [] then [] else Insert(Merged(rs[..|rs| - 1]), rs[|rs| - 1])
  }

  lemma {:induction false} MergedCorrect(rs: seq<ByteRange>)
    requires AllValid(rs)
    ensures Canonical(Merged(rs)) && Bytes(Merged(rs)) == Bytes(rs)
  {
    if rs != [] {
      var front, last := rs[..|rs| - 1], rs[|rs| - 1];
      MergedCorrect(front);
      InsertCorrect(Merged(front), last);
      assert rs == front + [last];
      BytesConcat(front, [last]);
      BytesOfOne(last);
    }
  }

  predicate KeyAtMost(a: ByteRange, b: ByteRange) {
    a.start < b.start || (a.start == b.start && a.end <= b.end)
  }

  lemma KeysArePreordered()
    ensures Sorting.Preorder(KeyAtMost)
  {
  }

  lemma SameElementsSameBytes(a: seq<ByteRange>, b: seq<ByteRange>)
    requires multiset(a) == multiset(b)
    ensures Bytes(a) == Bytes(b) && (AllValid(a) ==> AllValid(b))
  {
    forall i | 0 <= i < |b|
      ensures b[i] in a
    {
      assert b[i] in multiset(b);
    }
    forall i | 0 <= i < |a|
      ensures a[i] in b
    {
      assert a[i] in multiset(a);
    }
    SubsetBytes(a, b);
    SubsetBytes(b, a);
  }

  lemma SubsetBytes(a: seq<ByteRange>, b: seq<ByteRange>)
    requires forall i :: 0 <= i < |a| ==> a[i] in b
    ensures Bytes(a) <= Bytes(b)
  {
    forall n: nat | n in Bytes(a)
      ensures n in Bytes(b)
    {
      BytesMember(a, n);
      BytesMember(b, n);
    }
  }

  /** One step of the sweep: the next range widens the current one or starts a new one. */
  lemma SweepStep(merged: seq<ByteRange>, cur: ByteRange, r: ByteRange)
    requires Apart(merged + [cur]) && cur.start <= r.start
    ensures
        var wide := ByteRange(cur.start, if cur.end <= r.end then r.end else cur.end);
        r.start <= cur.end + 1 ==>
          Apart(merged + [wide]) && Bytes(merged + [wide]) == Bytes(merged + [cur]) + Span(r)
    ensures
        r.start > cur.end + 1 ==>
          Apart(merged + [cur] + [r]) && Bytes(merged + [cur] + [r]) == Bytes(merged + [cur]) + Span(r)
  {
    hide Bytes, Span, Apart;
    var wide := ByteRange(cur.start, Max(cur.end, r.end));
    BytesConcat(merged, [cur]);
    BytesConcat(merged, [wide]);
    BytesConcat(merged + [cur], [r]);
    BytesOfOne(cur);
    BytesOfOne(r);
    BytesOfOne(wide);
    if r.start <= cur.end + 1 {
      WideSpan(cur, r);
      ApartWiden(merged, cur, wide);
    } else {
      ApartAppend(merged, cur, r);
    }
  }

  lemma WideSpan(a: ByteRange, b: ByteRange)
    requires a.start <= b.start <= a.end + 1
    ensures Span(ByteRange(a.start, Max(a.end, b.end))) == Span(a) + Span(b)
  {
  }

  lemma ApartWiden(merged: seq<ByteRange>, cur: ByteRange, wide: ByteRange)
    requires Apart(merged + [cur]) && wide.start == cur.start
    ensures Apart(merged + [wide])
  {
    var was, now := merged + [cur], merged + [wide];
    forall i, j | 0 <= i < j < |now|
      ensures now[i].end + 1 < now[j].start
    {
      assert was[i].end + 1 < was[j].start;
    }
  }

  lemma ApartAppend(merged: seq<ByteRange>, cur: ByteRange, r: ByteRange)
    requires Apart(merged + [cur]) && cur.end + 1 < r.start && cur.start <= r.start
    ensures Apart(merged + [cur] + [r])
  {
    var was, now := merged + [cur], merged + [cur] + [r];
    forall i, j | 0 <= i < j < |now|
      ensures now[i].end + 1 < now[j].start
    {
      if i < |merged| {
        assert was[i].end + 1 < was[|merged|].start;
      }
      if j < |was| {
        assert was[i].end + 1 < was[j].start;
      }
    }
  }

  /** `merge_ranges`: sorting and one sweep keep the bytes of any list of ranges, and leave
      ranges that stand apart; a list without inverted ranges comes into its canonical form. */
  method MergeRanges(ranges: seq<ByteRange>) returns (merged: seq<ByteRange>)
    ensures Apart(merged) && Bytes(merged) == Bytes(ranges)
    ensures AllValid(ranges) ==> merged == Merged(ranges)
  {
    hide *;
    if |ranges| == 0 {
      NothingToMerge();
      return [];
    }
    var sorted := Sorting.SortBy(ranges, KeyAtMost);
    SortedInput(ranges, sorted);
    merged := [];
    var cur := sorted[0];
    OneIsApart(cur);
    assert [] + [cur] == [cur] == sorted[..1];
    for i := 1 to |sorted|
      invariant Apart(merged + [cur]) && (AllValid(ranges) ==> AllValid(merged + [cur]))
      invariant Bytes(merged + [cur]) == Bytes(sorted[..i])
      invariant cur.start <= sorted[i - 1].start
    {
      var r := sorted[i];
      NextInOrder(sorted, i);
      SweepStep(merged, cur, r);
      StillValid(merged, cur, r);
      if r.start <= cur.end + 1 {
        cur := ByteRange(cur.start, if cur.end <= r.end then r.end else cur.end);
      } else {
        merged := merged + [cur];
        cur := r;
      }
    }
    merged := merged + [cur];
    assert sorted[..|sorted|] == sorted;
    if AllValid(ranges) {
      MergedCorrect(ranges);
      CanonicalIs(merged);
      CanonicalUnique(merged, Merged(ranges));
    }
  }

  lemma NothingToMerge()
    ensures Merged([]) == [] && Apart([])
  {
  }

  lemma OneIsApart(r: ByteRange)
    ensures Apart([r])
  {
  }

  lemma CanonicalIs(rs: seq<ByteRange>)
    ensures Canonical(rs) <==> AllValid(rs) && Apart(rs)
  {
  }

  lemma StillValid(merged: seq<ByteRange>, cur: ByteRange, r: ByteRange)
    ensures AllValid(merged + [cur]) && r.start <= r.end ==> AllValid(merged + [cur] + [r])
    ensures
        var wide := ByteRange(cur.start, if cur.end <= r.end then r.end else cur.end);
        AllValid(merged + [cur]) && r.start <= r.end ==> AllValid(merged + [wide])
  {
    if AllValid(merged + [cur]) && r.start <= r.end {
      assert (merged + [cur])[|merged|] == cur;
      forall i | 0 <= i < |merged|
        ensures merged[i].start <= merged[i].end
      {
        assert (merged + [cur])[i] == merged[i];
      }
    }
  }

  lemma SortedInput(ranges: seq<ByteRange>, sorted: seq<ByteRange>)
    requires ranges != [] && sorted == Sorting.SortBy(ranges, KeyAtMost)
    ensures |sorted| == |ranges| && Bytes(sorted) == Bytes(ranges) && Sorting.Ascending(sorted, KeyAtMost)
    ensures AllValid(ranges) ==> AllValid([sorted[0]]) && AllValid(sorted)
  {
    KeysArePreordered();
    hide KeyAtMost, Sorting.SortBy;
    Sorting.SortCorrect(ranges, KeyAtMost);
    SameElementsSameBytes(ranges, sorted);
  }

  lemma NextInOrder(sorted: seq<ByteRange>, i: nat)
    requires Sorting.Ascending(sorted, KeyAtMost) && 0 < i < |sorted|
    ensures sorted[i - 1].start <= sorted[i].start && (AllValid(sorted) ==> sorted[i].start <= sorted[i].end)
    ensures Bytes(sorted[..i + 1]) == Bytes(sorted[..i]) + Span(sorted[i])
  {
    assert KeyAtMost(sorted[i - 1], sorted[i]);
    assert sorted[..i + 1] == sorted[..i] + [sorted[i]];
    BytesConcat(sorted[..i], [sorted[i]]);
    BytesOfOne(sorted[i]);
  }

  /** What is left of a range after cutting out [start, end]. */
  function Cut(r: ByteRange, start: nat, end: nat): seq<ByteRange> {
    if end < r.start || start > r.end then [r]
    else
      var low := if start > r.start then [ByteRange(r.start, start - 1)] else [];
      var high := if end < r.end then [ByteRange(end + 1, r.end)] else [];
      low + high
  }

  function Subtracted(rs: seq<ByteRange>, start: nat, end: nat): seq<ByteRange> {
    if rs == [] then [] else Cut(rs[0], start, end) + Subtracted(rs[1..], start, end)
  }

  lemma CutBytes(r: ByteRange, start: nat, end: nat)
    requires r.start <= r.end && start <= end
    ensures Bytes(Cut(r, start, end)) == Span(r) - Span(ByteRange(start, end))
    ensures AllValid(Cut(r, start, end)) && Canonical(Cut(r, start, end))
    ensures forall i :: 0 <= i < |Cut(r, start, end)| ==> r.start <= Cut(r, start, end)[i].start && Cut(r, start, end)[i].end <= r.end
  {
    var low := if start > r.start then [ByteRange(r.start, start - 1)] else [];
    var high := if end < r.end then [ByteRange(end + 1, r.end)] else [];
    if start > r.start { BytesOfOne(low[0]); }
    if end < r.end { BytesOfOne(high[0]); }
    BytesOfOne(r);
    BytesConcat(low, high);
  }

  /** `subtract_range` is exact set difference and keeps the canonical form. */
  lemma {:induction false} SubtractedCorrect(rs: seq<ByteRange>, start: nat, end: nat)
    requires Canonical(rs) && start <= end
    ensures Canonical(Subtracted(rs, start, end))
    ensures Bytes(Subtracted(rs, start, end)) == Bytes(rs) - Span(ByteRange(start, end))
  {
    if rs != [] {
      var head, tail := Cut(rs[0], start, end), Subtracted(rs[1..], start, end);
      hide Bytes, Span, Cut, Canonical;
      CanonicalTail(rs);
      SubtractedCorrect(rs[1..], start, end);
      CutBytes(rs[0], start, end);
      BytesConcat(head, tail);
      CutThenRest(head, tail, rs[0].end);
    }
  }

  lemma CutThenRest(head: seq<ByteRange>, tail: seq<ByteRange>, end: nat)
    requires Canonical(head) && Canonical(tail) && forall i :: 0 <= i < |head| ==> head[i].end <= end
    requires forall b :: b in Bytes(tail) ==> end + 1 < b
    ensures Canonical(head + tail)
  {
    hide Bytes;
    forall i | 0 <= i < |tail|
      ensures end + 1 < tail[i].start
    {
      BytesMember(tail, tail[i].start);
    }
  }

  lemma SubtractedStep(rs: seq<ByteRange>, i: nat, start: nat, end: nat)
    requires i < |rs|
    ensures Subtracted(rs[i..], start, end) == Cut(rs[i], start, end) + Subtracted(rs[i + 1..], start, end)
  {
    assert rs[i..][1..] == rs[i + 1..];
  }

  method SubtractRange(ranges: seq<ByteRange>, start: nat, end: nat) returns (out: seq<ByteRange>)
    ensures out == Subtracted(ranges, start, end)
  {
    hide Subtracted;
    out := [];
    assert ranges[0..] == ranges && [] + Subtracted(ranges, start, end) == Subtracted(ranges, start, end);
    for i := 0 to |ranges|
      invariant out + Subtracted(ranges[i..], start, end) == Subtracted(ranges, start, end)
    {
      var r := ranges[i];
      SubtractedStep(ranges, i, start, end);
      Associative(out, Cut(r, start, end), Subtracted(ranges[i + 1..], start, end));
      if end < r.start || start > r.end {
        out := out + [r];
        continue;
      }
      ghost var before := out;
      if start > r.start {
        out := out + [ByteRange(r.start, start - 1)];
      }
      if end < r.end {
        out := out + [ByteRange(end + 1, r.end)];
      }
      assert out == before + Cut(r, start, end);
    }
    NothingSubtracted(start, end);
    assert ranges[|ranges|..] == [];
  }

  lemma NothingSubtracted(start: nat, end: nat)
    ensures Subtracted([], start, end) == []
  {
  }
}
