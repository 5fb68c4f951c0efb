/** What every command keeps about one download: its bytes are missing, in flight or
    received, each exactly once, and the leases are the in-flight ranges. */
module DownloadInvariant {
  import opened Wrappers
  import opened Collections
  import opened ByteRanges
  import opened Downloads

  ghost function FileBytes(size: nat): set<nat> {
    if size == 0 then {} else Span(ByteRange(0, size - 1))
  }

  ghost predicate Fit(rs: seq<ByteRange>, size: nat) {
    forall i :: 0 <= i < |rs| ==> rs[i].start <= rs[i].end < size
  }

  ghost predicate PairwiseDisjoint(rs: seq<ByteRange>) {
    forall i, j :: 0 <= i < j < |rs| ==> Disjoint(rs[i], rs[j])
  }

  ghost predicate OneLeasePerRange(inflight: seq<ByteRange>, leases: seq<Lease>) {
    && |inflight| == |leases|
    && forall i :: 0 <= i < |leases| ==> leases[i].range == inflight[i]
  }

  ghost predicate Consistent(met: PartMet, leases: seq<Lease>) {
    && met.fileSize > 0
    && OneLeasePerRange(met.inflight, leases)
    && Fit(met.missing, met.fileSize) && Fit(met.inflight, met.fileSize)
    && PairwiseDisjoint(met.inflight)
    && Bytes(met.missing) !! Bytes(met.inflight)
  }

  ghost predicate WithinCaps(leases: seq<Lease>) {
    && |leases| <= MAX_LEASES_PER_DOWNLOAD
    && forall peer: string :: PeerLeases(leases, peer) <= MAX_LEASES_PER_PEER
  }

  ghost function Outstanding(met: PartMet): set<nat> {
    Bytes(met.missing) + Bytes(met.inflight)
  }

  /** The bytes of the file that are neither missing nor in flight. */
  ghost function ReceivedBytes(met: PartMet): set<nat> {
    FileBytes(met.fileSize) - Outstanding(met)
  }

  /** A download about to be finalized has every byte and says so. */
  ghost predicate CompleteIfCompleting(met: PartMet) {
    met.state == Completing ==> met.missing == [] && met.inflight == [] && met.downloadedBytes == met.fileSize
  }

  ghost predicate Inv(d: Download) {
    && Consistent(d.met, d.leases)
    && Canonical(d.met.missing)
    && WithinCaps(d.leases)
    && CompleteIfCompleting(d.met)
    && |ReceivedBytes(d.met)| <= d.met.downloadedBytes <= d.met.fileSize
  }

  /** Missing, in-flight and received bytes partition the file. */
  lemma Partition(d: Download)
    requires Inv(d)
    ensures Bytes(d.met.missing) + Bytes(d.met.inflight) + ReceivedBytes(d.met) == FileBytes(d.met.fileSize)
    ensures Bytes(d.met.missing) !! Bytes(d.met.inflight) !! ReceivedBytes(d.met)
    ensures |Bytes(d.met.missing)| + |Bytes(d.met.inflight)| + |ReceivedBytes(d.met)| == d.met.fileSize
  {
    hide Bytes, Span;
    FitsInFile(d.met.missing, d.met.fileSize);
    FitsInFile(d.met.inflight, d.met.fileSize);
    FileSize(d.met.fileSize);
    ThreeParts(FileBytes(d.met.fileSize), Bytes(d.met.missing), Bytes(d.met.inflight));
  }

  lemma FileSize(size: nat)
    ensures |FileBytes(size)| == size
  {
    if size > 0 {
      SpanSize(ByteRange(0, size - 1));
    }
  }

  lemma {:induction false} FitsInFile(rs: seq<ByteRange>, size: nat)
    requires Fit(rs, size)
    ensures Bytes(rs) <= FileBytes(size)
  {
    if rs != [] {
      FitsInFile(rs[1..], size);
    }
  }

  /** A non-empty set of bytes of the file puts the list it came from inside the file. */
  lemma FitFromBytes(rs: seq<ByteRange>, size: nat)
    requires AllValid(rs) && Bytes(rs) <= FileBytes(size)
    ensures Fit(rs, size)
  {
    forall i | 0 <= i < |rs|
      ensures rs[i].end < size
    {
      BytesMember(rs, rs[i].end);
    }
  }

  /** Dropping lease k also drops exactly its in-flight range. */
  lemma {:induction false} RemoveInflightIsRemoveAt(inflight: seq<ByteRange>, k: nat, size: nat)
    requires k < |inflight| && PairwiseDisjoint(inflight) && Fit(inflight, size)
    ensures RemoveInflight(inflight, inflight[k]) == RemoveAt(inflight, k)
  {
    if k > 0 {
      assert Disjoint(inflight[0], inflight[k]);
      RemoveInflightIsRemoveAt(inflight[1..], k - 1, size);
      assert RemoveAt(inflight, k) == [inflight[0]] + RemoveAt(inflight[1..], k - 1);
    }
  }

  lemma DropLease(met: PartMet, leases: seq<Lease>, k: nat)
    requires Consistent(met, leases) && k < |leases|
    ensures
        var rest := met.(inflight := RemoveInflight(met.inflight, leases[k].range));
        && Consistent(rest, RemoveAt(leases, k))
        && Bytes(rest.inflight) == Bytes(met.inflight) - Span(leases[k].range)
        && Span(leases[k].range) <= Bytes(met.inflight)
  {
    hide Bytes, Span, RemoveInflight, RemoveAt, OneLeasePerRange, Fit, PairwiseDisjoint;
    RangeOfLease(met.inflight, leases, k);
    RemoveInflightIsRemoveAt(met.inflight, k, met.fileSize);
    WithoutEntry(met.inflight, leases, k, met.fileSize);
  }

  lemma RangeOfLease(inflight: seq<ByteRange>, leases: seq<Lease>, k: nat)
    requires OneLeasePerRange(inflight, leases) && k < |leases|
    ensures |inflight| == |leases| && inflight[k] == leases[k].range
  {
  }

  /** Taking entry k from both lists. */
  lemma {:induction false} WithoutEntry(inflight: seq<ByteRange>, leases: seq<Lease>, k: nat, size: nat)
    requires OneLeasePerRange(inflight, leases) && Fit(inflight, size) && PairwiseDisjoint(inflight) && k < |inflight|
    ensures |inflight| == |leases|
    ensures
        var rest := RemoveAt(inflight, k);
        && OneLeasePerRange(rest, RemoveAt(leases, k)) && Fit(rest, size) && PairwiseDisjoint(rest)
        && Bytes(rest) == Bytes(inflight) - Span(inflight[k]) && Span(inflight[k]) <= Bytes(inflight)
  {
    hide Bytes, Span, Disjoint;
    DisjointFrom(inflight, k);
    BytesWithout(inflight, k);
    SpanInBytes(inflight, k);
    var rest := RemoveAt(inflight, k);
    assert forall i :: 0 <= i < |rest| ==> rest[i] == inflight[if i < k then i else i + 1];
  }

  lemma DisjointFrom(rs: seq<ByteRange>, k: nat)
    requires PairwiseDisjoint(rs) && k < |rs|
    ensures forall i :: 0 <= i < |rs| && i != k ==> Disjoint(rs[i], rs[k])
  {
  }

  lemma SpanInBytes(rs: seq<ByteRange>, k: nat)
    requires k < |rs|
    ensures Span(rs[k]) <= Bytes(rs)
  {
    forall b | b in Span(rs[k])
      ensures b in Bytes(rs)
    {
      BytesMember(rs, b);
    }
  }

  /** Putting a dropped block back among the missing bytes conserves what is outstanding. */
  lemma PutBack(met: PartMet, leases: seq<Lease>, k: nat)
    requires Consistent(met, leases) && k < |leases|
    ensures
        var range := leases[k].range;
        var rest := met.(inflight := RemoveInflight(met.inflight, range), missing := met.missing + [range]);
        Consistent(rest, RemoveAt(leases, k)) && Outstanding(rest) == Outstanding(met)
  {
    hide Bytes, Span;
    var range := leases[k].range;
    DropLease(met, leases, k);
    BytesConcat(met.missing, [range]);
    BytesOfOne(range);
  }

  lemma {:induction false} PeerLeasesConcat(a: seq<Lease>, b: seq<Lease>, peer: string)
    ensures PeerLeases(a + b, peer) == PeerLeases(a, peer) + PeerLeases(b, peer)
  {
    if b == [] {
      assert a + b == a;
    } else {
      var front := b[..|b| - 1];
      assert (a + b)[..|a + b| - 1] == a + front;
      PeerLeasesConcat(a, front, peer);
    }
  }

  lemma CapsAfterRemove(leases: seq<Lease>, k: nat)
    requires k < |leases| && WithinCaps(leases)
    ensures WithinCaps(RemoveAt(leases, k))
  {
    forall peer: string
      ensures PeerLeases(RemoveAt(leases, k), peer) <= MAX_LEASES_PER_PEER
    {
      assert leases == leases[..k] + ([leases[k]] + leases[k + 1..]);
      PeerLeasesConcat(leases[..k], [leases[k]] + leases[k + 1..], peer);
      PeerLeasesConcat([leases[k]], leases[k + 1..], peer);
      PeerLeasesConcat(leases[..k], leases[k + 1..], peer);
    }
  }

  /** `downloaded_bytes` as recomputed counts the in-flight bytes as downloaded. */
  lemma DownloadedCountsInflight(met: PartMet, leases: seq<Lease>)
    requires Consistent(met, leases) && Canonical(met.missing)
    ensures SizeLessMissing(met.fileSize, met.missing) == |ReceivedBytes(met)| + |Bytes(met.inflight)|
    ensures SizeLessMissing(met.fileSize, met.missing) <= met.fileSize
    ensures met.inflight == [] ==> SizeLessMissing(met.fileSize, met.missing) == |ReceivedBytes(met)|
    ensures met.missing == [] && met.inflight == [] ==> SizeLessMissing(met.fileSize, met.missing) == met.fileSize
  {
    TotalIsSize(met.missing);
    FitsInFile(met.missing, met.fileSize);
    FitsInFile(met.inflight, met.fileSize);
    FileSize(met.fileSize);
    BytesOfNone();
    hide Bytes, Span, TotalMissing, FileBytes, Canonical, Fit, PairwiseDisjoint, OneLeasePerRange;
    ThreeParts(FileBytes(met.fileSize), Bytes(met.missing), Bytes(met.inflight));
  }

  lemma ThreeParts(all: set<nat>, a: set<nat>, b: set<nat>)
    requires a <= all && b <= all && a !! b
    ensures |a| + |b| + |all - (a + b)| == |all|
  {
    var c := all - (a + b);
    assert a + b + c == all;
    assert |a + b| == |a| + |b| && |a + b + c| == |a + b| + |c|;
  }

  /** A received block moves from in flight to received, and nothing else moves. */
  lemma ReceiveKeeps(d: Download, peer: string, block: ByteRange)
    requires Inv(d) && Receive(d, peer, block).Success?
    ensures
        var after := Receive(d, peer, block).value;
        && Inv(after)
        && after.met.missing == d.met.missing
        && ReceivedBytes(after.met) == ReceivedBytes(d.met) + Span(block)
        && Span(block) <= Bytes(d.met.inflight)
        && after.met.downloadedBytes == |ReceivedBytes(after.met)| + |Bytes(after.met.inflight)|
        && (after.met.state == Completing <==> after.met.missing == [] && after.met.inflight == [])
  {
    hide Bytes, Span, FileBytes, Canonical, Fit, PairwiseDisjoint, WithinCaps, TotalMissing, RemoveInflight, FindLease, PeerLeases;
    var k := FindLease(d.leases, peer, block).value;
    var after := Receive(d, peer, block).value;
    DropLease(d.met, d.leases, k);
    CapsAfterRemove(d.leases, k);
    assert after.met.missing == d.met.missing;
    ReceivedGrows(d.met, after.met, block);
    DownloadedCountsInflight(after.met, after.leases);
  }

  lemma ReceivedGrows(before: PartMet, after: PartMet, block: ByteRange)
    requires before.fileSize == after.fileSize && before.missing == after.missing
    requires Bytes(after.inflight) == Bytes(before.inflight) - Span(block) && Span(block) <= Bytes(before.inflight)
    requires Bytes(before.missing) !! Bytes(before.inflight) && Fit(before.inflight, before.fileSize)
    ensures ReceivedBytes(after) == ReceivedBytes(before) + Span(block)
  {
    FitsInFile(before.inflight, before.fileSize);
  }

  /** A failed block moves from in flight back to missing, and nothing else moves. */
  lemma FailKeeps(d: Download, peer: string, block: ByteRange, reason: string, now: nat)
    requires Inv(d) && Fail(d, peer, block, reason, now).Success?
    ensures
        var after := Fail(d, peer, block, reason, now).value;
        && Inv(after)
        && ReceivedBytes(after.met) == ReceivedBytes(d.met)
        && Bytes(after.met.missing) == Bytes(d.met.missing) + Span(block)
        && Bytes(after.met.inflight) == Bytes(d.met.inflight) - Span(block)
        && after.met.downloadedBytes == |ReceivedBytes(after.met)| + |Bytes(after.met.inflight)|
        && after.met.state != Completing && after.met.state != Cancelled
  {
    hide Bytes, Span, FileBytes, Canonical, PairwiseDisjoint, WithinCaps, TotalMissing, RemoveInflight, FindLease, PeerLeases, Merged, SizeLessMissing;
    var k := FindLease(d.leases, peer, block).value;
    var after := Fail(d, peer, block, reason, now).value;
    DropLease(d.met, d.leases, k);
    PutBack(d.met, d.leases, k);
    CapsAfterRemove(d.leases, k);
    BytesConcat(d.met.missing, [block]);
    BytesOfOne(block);
    MergeKeeps(d.met.(inflight := RemoveInflight(d.met.inflight, block), missing := d.met.missing + [block]), after.met, after.leases);
  }

  lemma AllValidFromFit(rs: seq<ByteRange>, size: nat)
    requires Fit(rs, size)
    ensures AllValid(rs)
  {
  }

  /** Bringing the missing ranges into canonical form changes no byte, and the recomputed
      `downloaded_bytes` is consistent again. */
  lemma MergeKeeps(before: PartMet, after: PartMet, leases: seq<Lease>)
    requires Consistent(before, leases)
    requires after.fileSize == before.fileSize && after.inflight == before.inflight
    requires after.missing == Merged(before.missing)
    requires after.downloadedBytes == SizeLessMissing(after.fileSize, after.missing)
    ensures Consistent(after, leases) && Canonical(after.missing)
    ensures ReceivedBytes(after) == ReceivedBytes(before) && Bytes(after.missing) == Bytes(before.missing)
    ensures after.downloadedBytes == |ReceivedBytes(after)| + |Bytes(after.inflight)| <= after.fileSize
  {
    hide Bytes, Span, Merged, PairwiseDisjoint, TotalMissing, SizeLessMissing, FileBytes;
    AllValidFromFit(before.missing, before.fileSize);
    MergedCorrect(before.missing);
    FitsInFile(before.missing, before.fileSize);
    FitFromBytes(after.missing, before.fileSize);
    DownloadedCountsInflight(after, leases);
  }

  function Filtered(leases: seq<Lease>, doom: Doom): seq<Lease> {
    if leases == [] then []
    else (if Doomed(leases[0], doom) then [] else [leases[0]]) + Filtered(leases[1..], doom)
  }

  /** Reclaiming keeps every range accounted for: what is outstanding stays outstanding. */
  lemma {:induction false} ReclaimFromConserves(met: PartMet, leases: seq<Lease>, doom: Doom, i: nat)
    requires Consistent(met, leases) && WithinCaps(leases) && i <= |leases|
    ensures Consistent(ReclaimFrom(met, leases, doom, i).0, ReclaimFrom(met, leases, doom, i).1)
    ensures WithinCaps(ReclaimFrom(met, leases, doom, i).1)
    ensures Outstanding(ReclaimFrom(met, leases, doom, i).0) == Outstanding(met)
    decreases |leases| - i
  {
    hide Consistent, WithinCaps, Outstanding, Bytes, RemoveInflight;
    if i < |leases| {
      var range := leases[i].range;
      if Doomed(leases[i], doom) {
        PutBack(met, leases, i);
        CapsAfterRemove(leases, i);
        ReclaimFromConserves(
          met.(inflight := RemoveInflight(met.inflight, range), missing := met.missing + [range]),
          RemoveAt(leases, i), doom, i);
      } else {
        ReclaimFromConserves(met, leases, doom, i + 1);
      }
    }
  }

  /** Reclaiming removes exactly the doomed leases, and touches nothing but the two range lists. */
  lemma {:induction false} ReclaimFromFilters(met: PartMet, leases: seq<Lease>, doom: Doom, i: nat)
    requires i <= |leases|
    ensures
        var (m, l, n) := ReclaimFrom(met, leases, doom, i);
        && l == leases[..i] + Filtered(leases[i..], doom)
        && m == met.(missing := m.missing, inflight := m.inflight)
        && (n == 0 ==> m == met && l == leases)
    decreases |leases| - i
  {
    hide RemoveInflight, Filtered, RemoveAt;
    FilteredNext(leases, doom, i);
    if i < |leases| {
      if Doomed(leases[i], doom) {
        var range := leases[i].range;
        ReclaimFromFilters(
          met.(inflight := RemoveInflight(met.inflight, range), missing := met.missing + [range]), RemoveAt(leases, i), doom, i);
      } else {
        ReclaimFromFilters(met, leases, doom, i + 1);
      }
    }
  }

  lemma FilteredNext(leases: seq<Lease>, doom: Doom, i: nat)
    requires i <= |leases|
    ensures
        var filtered := leases[..i] + Filtered(leases[i..], doom);
        if i == |leases| then filtered == leases
        else if Doomed(leases[i], doom) then
          var rest := RemoveAt(leases, i);
          i <= |rest| == |leases| - 1 && filtered == rest[..i] + Filtered(rest[i..], doom)
        else filtered == leases[..i + 1] + Filtered(leases[i + 1..], doom)
  {
    if i < |leases| {
      assert leases[i..][1..] == leases[i + 1..];
      assert leases[..i + 1] == leases[..i] + [leases[i]];
      var rest := RemoveAt(leases, i);
      assert rest[..i] == leases[..i] && rest[i..] == leases[i + 1..];
      hide Filtered;
      Associative(leases[..i], [leases[i]], Filtered(leases[i + 1..], doom));
    }
  }

  /** A disconnect or a timer tick returns exactly the doomed blocks to the missing bytes. */
  lemma ReclaimKeeps(d: Download, doom: Doom, error: string, now: nat)
    requires Inv(d)
    ensures
        var (after, n) := Reclaim(d, doom, error, now);
        && Inv(after)
        && ReceivedBytes(after.met) == ReceivedBytes(d.met)
        && after.leases == Filtered(d.leases, doom)
        && (if n == 0 then after == d
            else after.met.downloadedBytes == |ReceivedBytes(after.met)| + |Bytes(after.met.inflight)|)
        && (after.met.state == d.met.state || (d.met.state == Downloading && after.met.state == Queued))
  {
    hide Consistent, WithinCaps, Bytes, RemoveInflight, ReclaimFrom, Merged, SizeLessMissing, Canonical;
    var (met, leases, n) := ReclaimFrom(d.met, d.leases, doom, 0);
    ReclaimFromConserves(d.met, d.leases, doom, 0);
    ReclaimFromFilters(d.met, d.leases, doom, 0);
    assert d.leases[..0] + Filtered(d.leases[0..], doom) == Filtered(d.leases, doom);
    if n > 0 {
      var (after, _) := Reclaim(d, doom, error, now);
      MergeKeeps(met, after.met, leases);
      LeasesMeanNotCompleting(d);
    }
  }

  lemma LeasesMeanNotCompleting(d: Download)
    requires Inv(d) && d.leases != []
    ensures d.met.state != Completing
  {
  }

  /** A state command moves no byte. */
  lemma WithStateKeeps(d: Download, next: PartState, allowed: set<PartState>)
    requires Inv(d) && next != Completing && WithState(d, next, allowed).Success?
    ensures Inv(WithState(d, next, allowed).value)
    ensures ReceivedBytes(WithState(d, next, allowed).value.met) == ReceivedBytes(d.met)
  {
    hide WithinCaps, Bytes, Canonical;
  }

  /** A restart puts the in-flight bytes back among the missing ones and forgets the leases. */
  lemma RecoveredKeeps(d: Download)
    requires Inv(d)
    ensures Inv(Recovered(d.met)) && ReceivedBytes(Recovered(d.met).met) == ReceivedBytes(d.met)
    ensures Recovered(d.met).leases == [] && Recovered(d.met).met.inflight == []
    ensures Recovered(d.met).met.downloadedBytes == d.met.downloadedBytes
  {
    BytesOfNone();
    hide Bytes, Span, Merged, FileBytes;
    if d.met.inflight != [] {
      var all := d.met.(missing := d.met.missing + d.met.inflight, inflight := []);
      BytesConcat(d.met.missing, d.met.inflight);
      AllValidFromFit(all.missing, all.fileSize);
      MergedCorrect(all.missing);
      FitsInFile(all.missing, all.fileSize);
      FitFromBytes(Merged(all.missing), all.fileSize);
    }
  }

  lemma InflightIsSomething(met: PartMet, leases: seq<Lease>)
    requires Consistent(met, leases)
    ensures |Bytes(met.inflight)| == 0 <==> met.inflight == []
  {
    BytesOfNone();
    if met.inflight != [] {
      BytesMember(met.inflight, met.inflight[0].start);
      assert met.inflight[0].start in Bytes(met.inflight);
    }
  }

  /** A restart does not recompute `downloaded_bytes`: when it was up to date, it is the number
      of received bytes afterwards exactly when no block was in flight. */
  lemma RestartIsRightExactlyWhen(d: Download)
    requires Inv(d) && d.met.downloadedBytes == SizeLessMissing(d.met.fileSize, d.met.missing)
    ensures
        var after := Recovered(d.met).met;
        after.downloadedBytes == |ReceivedBytes(after)| <==> d.met.inflight == []
  {
    hide Bytes, Recovered, SizeLessMissing, ReceivedBytes;
    RecoveredKeeps(d);
    DownloadedCountsInflight(d.met, d.leases);
    InflightIsSomething(d.met, d.leases);
  }

  lemma CreatedInv(fileName: string, fileHash: string, fileSize: nat)
    requires fileSize > 0
    ensures Inv(Created(fileName, fileHash, fileSize))
    ensures ReceivedBytes(Created(fileName, fileHash, fileSize).met) == {}
  {
    var d := Created(fileName, fileHash, fileSize);
    BytesOfOne(ByteRange(0, fileSize - 1));
    BytesOfNone();
  }
}
