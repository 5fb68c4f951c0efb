/** When a pass over all downloads gets through, by what can be checked before it. */
module PassGuards {
  import opened Wrappers
  import opened Integers
  import opened Downloads
  import opened Files
  import opened PartStore
  import opened IncomingNames
  import opened Finalization
  import opened FinalizationPass

  /** The files before the pass together with the incoming names that the part files of these
      downloads are given. */
  ghost function Arrivals(files: Files, held: seq<Held>): Files {
    if held == [] then files
    else
      var before, h := Arrivals(files, held[..|held| - 1]), held[|held| - 1];
      if ReadyToFinish(h.d.met) && Part(h.n) in files && SomeFree(before, h.d.met.fileName, h.n) then
        before[Incoming(FreeName(before, h.d.met.fileName, h.n)) := files[Part(h.n)]]
      else before
  }

  /** Download i can be finished when its part file is there, or an incoming file has one of
      its names (before the pass, or because a download before it is given that name), and when
      its entry can be recorded or is known to be. */
  ghost predicate CanFinish(files: Files, held: seq<Held>, keys: set<KnownKey>, i: nat)
    requires i < |held|
  {
    var n, met := held[i].n, held[i].d.met;
    ReadyToFinish(met) ==>
      && (Part(n) in files || IncomingExists(Arrivals(files, held[..i]), met.fileName, n))
      && (KnownReadable(files) || MetKey(met) in keys)
  }

  ghost predicate AllCanFinish(files: Files, held: seq<Held>, keys: set<KnownKey>) {
    forall i :: 0 <= i < |held| ==> CanFinish(files, held, keys, i)
  }

  ghost predicate SameNames(a: Files, b: Files) {
    forall name :: Incoming(name) in a <==> Incoming(name) in b
  }

  lemma {:induction false} SameLowestFree(a: Files, b: Files, name: string, part: nat, from: nat)
    requires SameNames(a, b) && exists j :: from <= j <= U32_MAX + 1 && !Taken(a, name, part, j)
    ensures exists j :: from <= j <= U32_MAX + 1 && !Taken(b, name, part, j)
    ensures LowestFree(a, name, part, from) == LowestFree(b, name, part, from)
    decreases U32_MAX + 1 - from
  {
    hide Candidate;
    var j :| from <= j <= U32_MAX + 1 && !Taken(a, name, part, j);
    assert !Taken(b, name, part, j);
    if Taken(a, name, part, from) {
      SameLowestFree(a, b, name, part, from + 1);
    }
  }

  lemma SameFreeName(a: Files, b: Files, name: string, part: nat)
    requires SameNames(a, b)
    ensures SomeFree(a, name, part) <==> SomeFree(b, name, part)
    ensures SomeFree(a, name, part) ==> FreeName(a, name, part) == FreeName(b, name, part)
    ensures IncomingExists(a, name, part) <==> IncomingExists(b, name, part)
  {
    hide Candidate, LowestFree, IsFallback;
    if SomeFree(a, name, part) {
      SameLowestFree(a, b, name, part, 0);
    }
    if SomeFree(b, name, part) {
      SameLowestFree(b, a, name, part, 0);
    }
    forall p | p in a && p.Incoming?
      ensures p in b
    {
      assert p == Incoming(p.name);
    }
    forall p | p in b && p.Incoming?
      ensures p in a
    {
      assert p == Incoming(p.name);
    }
  }

  /** The files after the visits before i, compared with those before the pass. */
  ghost predicate Underway(files: Files, held: seq<Held>, i: nat, now: Files)
    requires i <= |held|
  {
    && SameNames(now, Arrivals(files, held[..i]))
    && (KnownReadable(now) <==> KnownReadable(files))
    && forall j :: i <= j < |held| ==> (Part(held[j].n) in now <==> Part(held[j].n) in files)
  }

  /** The incoming names after a visit that succeeds. */
  lemma VisitNames(files: Files, n: nat, met: PartMet, keys: set<KnownKey>)
    requires FindsName(files, n, met) && !Stuck(files, n, met, keys)
    ensures
        var after := DoneAll(files, VisitOps(files, n, met, keys));
        if ReadyToFinish(met) && Part(n) in files then
          SameNames(after, files[Incoming(FreeName(files, met.fileName, n)) := files[Part(n)]])
        else SameNames(after, files)
  {
    hide SomeFree, FreeName, IncomingExists, Listed, Lower, KnownOps, SaveOps, DoneAll;
    NoOps(files, files);
    if WrongSize(met) {
      SaveOpsDone(files, n, Visited(met));
    } else if ReadyToFinish(met) {
      RecordedOpsDone(files, n, met);
      KnownOpsDone(DoneAll(files, MoveOps(files, n, met.fileName)), met);
      KnownOpsFromEntries(DoneAll(files, MoveOps(files, n, met.fileName)), files, met) by { MoveKeepsKnown(files, n, met.fileName); }
      if Part(n) in files {
        OneOp(files, Rename(Part(n), Incoming(FreeName(files, met.fileName, n))));
      }
    }
  }

  lemma UnderwayNext(files: Files, held: seq<Held>, keys: set<KnownKey>, i: nat, now: Files)
    requires i < |held| && Numbered(held) && Underway(files, held, i, now)
    requires FindsName(now, held[i].n, held[i].d.met) && !Stuck(now, held[i].n, held[i].d.met, keys)
    ensures Underway(files, held, i + 1, VisitedFiles(now, held[i], keys))
  {
    hide SomeFree, FreeName, Stuck, VisitOps, DoneAll, KnownReadable, Listed;
    var n, met := held[i].n, held[i].d.met;
    var before := Arrivals(files, held[..i]);
    assert held[..i + 1][..i] == held[..i];
    VisitNames(now, n, met, keys);
    SameFreeName(now, before, met.fileName, n);
    forall j | i + 1 <= j < |held|
      ensures Part(held[j].n) in VisitedFiles(now, held[i], keys) <==> Part(held[j].n) in files
    {
      VisitEffect(now, n, met, keys, held[j].n);
    }
    VisitEffect(now, n, met, keys, n);
  }

  lemma StuckExactlyWhen(files: Files, held: seq<Held>, keys: set<KnownKey>, i: nat, now: Files)
    requires i < |held| && Underway(files, held, i, now)
    ensures Stuck(now, held[i].n, held[i].d.met, keys) <==> !CanFinish(files, held, keys, i)
  {
    hide IncomingExists, KnownReadable, Arrivals;
    SameFreeName(now, Arrivals(files, held[..i]), held[i].d.met.fileName, held[i].n);
  }

  lemma {:induction false} SettlesFrom(files: Files, held: seq<Held>, keys: set<KnownKey>, i: nat, now: Files)
    requires i <= |held| && Numbered(held) && Underway(files, held, i, now) && SearchesEnd(now, held[i..], keys)
    ensures
        var k := i + Settles(now, held[i..], keys);
        && i <= k <= |held| && (forall j :: i <= j < k ==> CanFinish(files, held, keys, j))
        && (k < |held| ==> !CanFinish(files, held, keys, k))
    decreases |held| - i
  {
    hide SearchesEnd, Settles, Underway, Stuck, CanFinish, Numbered, FindsName;
    if i == |held| {
      LoopEnd(now, held[i..], keys);
    } else {
      LoopNext(now, held, i, keys);
      StuckExactlyWhen(files, held, keys, i, now);
      if !Stuck(now, held[i].n, held[i].d.met, keys) {
        UnderwayNext(files, held, keys, i, now);
        SettlesFrom(files, held, keys, i + 1, VisitedFiles(now, held[i], keys));
      }
    }
  }

  /** A pass settles exactly the downloads before the first that cannot be finished, and gets
      through exactly when there is none. */
  lemma SettlesExactly(files: Files, held: seq<Held>, keys: set<KnownKey>)
    requires Numbered(held) && SearchesEnd(files, held, keys)
    ensures
        var k := Settles(files, held, keys);
        && (forall j :: 0 <= j < k ==> CanFinish(files, held, keys, j))
        && (k < |held| ==> !CanFinish(files, held, keys, k))
        && (k == |held| <==> AllCanFinish(files, held, keys))
  {
    hide SearchesEnd, Settles, CanFinish, Numbered;
    assert held[0..] == held && held[..0] == [];
    assert Underway(files, held, 0, files) by { NothingArrived(files); }
    SettlesFrom(files, held, keys, 0, files);
  }

  lemma NothingArrived(files: Files)
    ensures Arrivals(files, []) == files
  {
  }

  lemma {:induction false} NamesStay(files: Files, held: seq<Held>, name: string, part: nat)
    requires IncomingExists(files, name, part)
    ensures IncomingExists(Arrivals(files, held), name, part)
  {
    hide SomeFree, FreeName, IsFallback;
    if held != [] {
      NamesStay(files, held[..|held| - 1], name, part);
      MoreFiles(Arrivals(files, held[..|held| - 1]), Arrivals(files, held), name, part);
    }
  }

  lemma MoreFiles(a: Files, b: Files, name: string, part: nat)
    requires a.Keys <= b.Keys && IncomingExists(a, name, part)
    ensures IncomingExists(b, name, part)
  {
    hide IsFallback;
    if Incoming(name) in a {
      assert Incoming(name) in a.Keys && Incoming(name) in b.Keys;
    } else {
      var p :| p in a && p.Incoming? && IsFallback(p.name, name, part);
      assert p in a.Keys && p in b.Keys;
    }
  }

  /** When no complete download has lost its part file, the pass gets through exactly when the
      file of known entries can be read or every complete download is known to be listed. */
  lemma GetsThroughExactlyWhen(files: Files, held: seq<Held>, keys: set<KnownKey>)
    requires Numbered(held) && SearchesEnd(files, held, keys)
    requires forall i :: 0 <= i < |held| && ReadyToFinish(held[i].d.met) ==> !PartLost(files, held[i].n, held[i].d.met.fileName)
    ensures Settles(files, held, keys) == |held| <==>
        || KnownReadable(files)
        || forall i :: 0 <= i < |held| && ReadyToFinish(held[i].d.met) ==> MetKey(held[i].d.met) in keys
  {
    hide SearchesEnd, Settles, Arrivals, IncomingExists, KnownReadable, ReadyToFinish, MetKey;
    SettlesExactly(files, held, keys);
    forall i | 0 <= i < |held| && ReadyToFinish(held[i].d.met)
      ensures CanFinish(files, held, keys, i) <==> KnownReadable(files) || MetKey(held[i].d.met) in keys
    {
      assert !PartLost(files, held[i].n, held[i].d.met.fileName);
      if Part(held[i].n) !in files {
        NamesStay(files, held[..i], held[i].d.met.fileName, held[i].n);
      }
    }
  }

  /**
   * Exactly what a pass settles, by what can be checked before it. A download is moved and
   * recorded when it and all before it can be finished; it is not touched when one before it
   * cannot; and its metadata is removed exactly when every download can be finished and this
   * one is complete. When another one behind cannot be finished, it keeps its metadata, which
   * says Completed.
   */
  lemma PassSettlesExactlyWhen(files: Files, held: seq<Held>, keys: set<KnownKey>, i: nat)
    requires SearchesEnd(files, held, keys) && Numbered(held) && i < |held|
    ensures
        var after := DoneAll(files, PassOps(files, held, keys));
        var n, met := held[i].n, held[i].d.met;
        var reached := forall j :: 0 <= j < i ==> CanFinish(files, held, keys, j);
        var through := AllCanFinish(files, held, keys);
        && (Met(n) in files ==> (Met(n) !in after <==> through && Visited(met).state == Completed))
        && (!reached ==> SamePart(files, after, n))
        && (reached && CanFinish(files, held, keys, i) && ReadyToFinish(met) ==>
              && Part(n) !in after && (KnownReadable(after) ==> Listed(Entries(after), MetKey(met)))
              && (!through ==> Met(n) in after && after[Met(n)] == MetOf(CompletedMet(met))))
  {
    hide DoneAll, PassOps, SearchesEnd, Settles, Listed, Numbered, ReadyToFinish, CanFinish, KnownReadable, SamePart, Visited;
    SettlesExactly(files, held, keys);
    PassSettles(files, held, keys, i);
  }

  /** The timer tick of the service: a pass that fails ends the service itself. */
  method TimerTick(fs: FileSystem, held: seq<Held>, keys: set<KnownKey>)
    returns (goesOn: bool, left: seq<Held>, seen: set<KnownKey>)
    requires KeysListed(keys, fs.files) && SearchesEnd(fs.files, held, keys) && Numbered(held)
    modifies fs
    ensures goesOn <==> AllCanFinish(old(fs.files), held, keys)
    ensures fs.journal == old(fs.journal) + PassOps(old(fs.files), held, keys)
    ensures fs.files == DoneAll(old(fs.files), PassOps(old(fs.files), held, keys))
    ensures goesOn ==> left == Uncompleted(AfterVisits(held))
  {
    hide DoneAll, PassOps, SearchesEnd, Settles, AllCanFinish, AfterVisits, Uncompleted, KeysListed, Numbered;
    SettlesExactly(fs.files, held, keys);
    var r;
    r, left, seen := FinalizeCompletedDownloads(fs, held, keys);
    return r.Success?, left, seen;
  }

  /** A complete download that has lost its part file stops every pass in which nothing before
      it is left to do, and such a pass changes nothing: every start of the service ends with
      its first tick until the file is there again. */
  lemma LostStopsEveryPass(files: Files, held: seq<Held>, keys: set<KnownKey>, k: nat)
    requires k < |held| && ReadyToFinish(held[k].d.met) && PartLost(files, held[k].n, held[k].d.met.fileName)
    requires forall i :: 0 <= i < k ==> !ReadyToFinish(held[i].d.met) && !WrongSize(held[i].d.met)
    ensures SearchesEnd(files, held, keys) && Settles(files, held, keys) == k && PassOps(files, held, keys) == []
  {
    hide PartLost, WrongSize, ReadyToFinish, SearchesEnd, Settles, LoopOps, DropsOps;
    LostStopsLoop(files, held, keys, k);
  }

  lemma {:induction false} LostStopsLoop(files: Files, held: seq<Held>, keys: set<KnownKey>, k: nat)
    requires k < |held| && ReadyToFinish(held[k].d.met) && PartLost(files, held[k].n, held[k].d.met.fileName)
    requires forall i :: 0 <= i < k ==> !ReadyToFinish(held[i].d.met) && !WrongSize(held[i].d.met)
    ensures SearchesEnd(files, held, keys) && Settles(files, held, keys) == k && LoopOps(files, held, keys) == []
    decreases k
  {
    hide IncomingExists, SomeFree, KnownReadable, MetKey;
    NoOps(files, files);
    if k > 0 {
      LostStopsLoop(files, held[1..], keys, k - 1);
      assert VisitOps(files, held[0].n, held[0].d.met, keys) == [];
    }
  }

  function CompleteMet(name: string): PartMet {
    PartMet(name, "h", 1, Completing, 1, [], [], 0, None)
  }

  /** A pass that settles a download and leaves its metadata: the one behind it has lost its
      part file. */
  lemma SettledKeepsMetadata()
    ensures
        var a, b := CompleteMet("a"), CompleteMet("b");
        var files := map[Part(1) := Data([7]), Met(1) := MetOf(a), Met(2) := MetOf(b)];
        var held := [Held(1, Download(a, [], None)), Held(2, Download(b, [], None))];
        && SearchesEnd(files, held, {}) && !AllCanFinish(files, held, {})
        && var after := DoneAll(files, PassOps(files, held, {}));
           && Part(1) !in after && Met(1) in after && after[Met(1)] == MetOf(CompletedMet(a))
           && Met(2) in after
  {
    hide DoneAll, PassOps, SearchesEnd, Arrivals, Listed;
    var a, b := CompleteMet("a"), CompleteMet("b");
    var files: Files := map[Part(1) := Data([7]), Met(1) := MetOf(a), Met(2) := MetOf(b)];
    var held := [Held(1, Download(a, [], None)), Held(2, Download(b, [], None))];
    assert |files| <= 3 by { ThreeFiles(files); }
    FewFilesEndSearches(files, held, {});
    assert held[..0] == [] && held[..1] == [held[0]];
    assert CanFinish(files, held, {}, 0);
    OnlyAArrives(files, held[0]);
    assert !CanFinish(files, held, {}, 1);
    PassSettlesExactlyWhen(files, held, {}, 0);
    PassSettlesExactlyWhen(files, held, {}, 1);
  }

  lemma ThreeFiles(files: Files)
    requires files.Keys == {Part(1), Met(1), Met(2)}
    ensures |files| == 3
  {
    assert |files| == |files.Keys|;
  }

  lemma OnlyAArrives(files: Files, h: Held)
    requires h.n == 1 && h.d.met == CompleteMet("a") && files.Keys == {Part(1), Met(1), Met(2)}
    ensures !IncomingExists(Arrivals(files, [h]), "b", 2)
  {
    hide Padded;
    assert [h][..0] == [] && Arrivals(files, []) == files;
    assert !Taken(files, "a", 1, 0);
    assert FreeName(files, "a", 1) == "a";
    var arrived := Arrivals(files, [h]);
    assert arrived.Keys <= {Part(1), Met(1), Met(2), Incoming("a")};
    forall p | p in arrived && p.Incoming?
      ensures !IsFallback(p.name, "b", 2)
    {
      assert p.name == "a" && |CompletedName("b", 2)| > 1;
    }
  }
}
