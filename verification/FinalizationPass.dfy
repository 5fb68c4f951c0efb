/** One pass over all downloads: `finalize_completed_downloads`. A download that cannot be
    settled ends the pass, and then no metadata is removed, not even of those before it. */
module FinalizationPass {
  import opened Wrappers
  import opened Integers
  import opened Collections
  import opened Downloads
  import opened Files
  import opened PartStore
  import opened IncomingNames
  import opened Finalization
  import opened FinalizationRuns

  /** A download under its part number; a pass goes through them in the order of the numbers. */
  datatype Held = Held(n: nat, d: Download)

  ghost predicate Numbered(held: seq<Held>) {
    forall i, j :: 0 <= i < j < |held| ==> held[i].n < held[j].n
  }

  function AfterVisit(h: Held): Held {
    h.(d := h.d.(met := Visited(h.d.met)))
  }

  function AfterVisits(held: seq<Held>): (r: seq<Held>)
    ensures |r| == |held|
  {
    if held == [] then [] else AfterVisits(held[..|held| - 1]) + [AfterVisit(held[|held| - 1])]
  }

  /** What the visit of a download leaves on disk. */
  ghost function VisitedFiles(files: Files, h: Held, keys: set<KnownKey>): Files
    requires FindsName(files, h.n, h.d.met)
  {
    DoneAll(files, VisitOps(files, h.n, h.d.met, keys))
  }

  /** Every name search of the pass ends. */
  ghost predicate SearchesEnd(files: Files, held: seq<Held>, keys: set<KnownKey>)
    decreases |held|
  {
    held == []
    || (&& FindsName(files, held[0].n, held[0].d.met)
        && (Stuck(files, held[0].n, held[0].d.met, keys) || SearchesEnd(VisitedFiles(files, held[0], keys), held[1..], keys)))
  }

  lemma SetAddsOne(files: Files, path: Path, content: Content)
    ensures |files| <= |files[path := content]| <= |files| + 1
  {
    SetKey(files, path, content);
  }

  lemma DropAddsNone(files: Files, path: Path)
    ensures |files - {path}| <= |files|
  {
    SubsetSize((files - {path}).Keys, files.Keys);
  }

  lemma VisitAddsFew(files: Files, n: nat, met: PartMet, keys: set<KnownKey>)
    requires FindsName(files, n, met)
    ensures |DoneAll(files, VisitOps(files, n, met, keys))| <= |files| + 3
  {
    hide MoveOps, KnownOps, SaveOps, Saved, DoneAll, Listed, SomeFree, IncomingExists, Lower, FreeName;
    NoOps(files, files);
    if WrongSize(met) {
      SaveOpsDone(files, n, Visited(met));
      SaveAddsTwo(files, n, Visited(met));
    } else if ReadyToFinish(met) && !PartLost(files, n, met.fileName) {
      MoveAddsNone(files, n, met.fileName);
      if !Stuck(files, n, met, keys) {
        var moved := DoneAll(files, MoveOps(files, n, met.fileName));
        RecordedOpsDone(files, n, met);
        MoveKeepsKnown(files, n, met.fileName);
        KnownOpsFromEntries(moved, files, met);
        KnownAddsOne(moved, met);
        SaveAddsTwo(DoneAll(moved, KnownOps(files, met)), n, CompletedMet(met));
      }
    }
  }

  lemma SaveAddsTwo(files: Files, n: nat, met: PartMet)
    ensures |Saved(files, n, met)| <= |files| + 2
  {
    var backed := if Met(n) in files then files[MetBackup(n) := files[Met(n)]] else files;
    if Met(n) in files {
      SetAddsOne(files, MetBackup(n), files[Met(n)]);
    }
    SetAddsOne(backed, Met(n), MetOf(met));
    DropAddsNone(backed[Met(n) := MetOf(met)], MetTemp(n));
  }

  lemma KnownAddsOne(files: Files, met: PartMet)
    ensures |DoneAll(files, KnownOps(files, met))| <= |files| + 1
  {
    hide Listed, Lower;
    KnownOpsDone(files, met);
    DropAddsNone(files, KnownTemp);
    if KnownReadable(files) {
      SetAddsOne(files - {KnownTemp}, Known, KnownOf(Entries(files) + [EntryFor(met)]));
    }
  }

  lemma MoveAddsNone(files: Files, n: nat, name: string)
    requires Part(n) in files ==> SomeFree(files, name, n)
    ensures |DoneAll(files, MoveOps(files, n, name))| <= |files|
  {
    hide FreeName, SomeFree;
    NoOps(files, files);
    if Part(n) in files {
      var to := Incoming(FreeName(files, name, n));
      OneOp(files, Rename(Part(n), to));
      RemoveKey(files, Part(n));
      SetAddsOne(files - {Part(n)}, to, files[Part(n)]);
    }
  }

  /** The searches end as long as there are fewer files than names; a pass adds at most three
      files for every download. */
  lemma {:induction false} FewFilesEndSearches(files: Files, held: seq<Held>, keys: set<KnownKey>)
    requires |files| + 3 * |held| <= U32_MAX + 1
    ensures SearchesEnd(files, held, keys)
    decreases |held|
  {
    hide VisitOps, DoneAll, Stuck, SomeFree;
    if held != [] {
      FewFilesLeaveAFreeName(files, held[0].d.met.fileName, held[0].n);
      VisitAddsFew(files, held[0].n, held[0].d.met, keys);
      FewFilesEndSearches(VisitedFiles(files, held[0], keys), held[1..], keys);
    }
  }

  /** How many downloads are visited with success before one is stuck. */
  ghost function Settles(files: Files, held: seq<Held>, keys: set<KnownKey>): (k: nat)
    requires SearchesEnd(files, held, keys)
    ensures k <= |held|
    decreases |held|
  {
    if held == [] || Stuck(files, held[0].n, held[0].d.met, keys) then 0
    else 1 + Settles(VisitedFiles(files, held[0], keys), held[1..], keys)
  }

  ghost function LoopOps(files: Files, held: seq<Held>, keys: set<KnownKey>): seq<Op>
    requires SearchesEnd(files, held, keys)
    decreases |held|
  {
    if held == [] then []
    else
      VisitOps(files, held[0].n, held[0].d.met, keys)
      + if Stuck(files, held[0].n, held[0].d.met, keys) then [] else LoopOps(VisitedFiles(files, held[0], keys), held[1..], keys)
  }

  function WithoutMetadata(files: Files, n: nat): Files {
    files - {Met(n), MetBackup(n)}
  }

  /** Removing the metadata of all completed downloads. */
  function DropsOps(files: Files, held: seq<Held>): seq<Op> {
    if held == [] then []
    else if held[0].d.met.state != Completed then DropsOps(files, held[1..])
    else DropOps(files, held[0].n) + DropsOps(WithoutMetadata(files, held[0].n), held[1..])
  }

  ghost function PassOps(files: Files, held: seq<Held>, keys: set<KnownKey>): seq<Op>
    requires SearchesEnd(files, held, keys)
  {
    var loop := LoopOps(files, held, keys);
    loop + if Settles(files, held, keys) == |held| then DropsOps(DoneAll(files, loop), AfterVisits(held)) else []
  }

  function Uncompleted(held: seq<Held>): seq<Held> {
    if held == [] then []
    else
      var last := held[|held| - 1];
      Uncompleted(held[..|held| - 1]) + if last.d.met.state == Completed then [] else [last]
  }

  predicate Concerned(met: PartMet) {
    met.state == Completed || ReadyToFinish(met) || WrongSize(met)
  }

  /** With a readable `known.met` the remembered keys decide nothing; otherwise they never
      change during a pass. */
  lemma KeysDoNotMatter(files: Files, n: nat, met: PartMet, a: set<KnownKey>, b: set<KnownKey>)
    requires FindsName(files, n, met) && (a == b || KnownReadable(files))
    ensures Stuck(files, n, met, a) <==> Stuck(files, n, met, b)
    ensures VisitOps(files, n, met, a) == VisitOps(files, n, met, b)
  {
    hide PartLost, RecordedOps, SaveOps, MoveOps;
  }

  lemma AfterVisitsNext(held: seq<Held>, i: nat)
    requires i < |held|
    ensures AfterVisits(held[..i + 1]) == AfterVisits(held[..i]) + [AfterVisit(held[i])]
  {
    assert held[..i + 1][..i] == held[..i];
  }

  lemma LoopNext(files: Files, held: seq<Held>, i: nat, keys: set<KnownKey>)
    requires i < |held| && SearchesEnd(files, held[i..], keys)
    ensures FindsName(files, held[i].n, held[i].d.met)
    ensures
        var stuck := Stuck(files, held[i].n, held[i].d.met, keys);
        var visit := VisitOps(files, held[i].n, held[i].d.met, keys);
        if stuck then LoopOps(files, held[i..], keys) == visit && Settles(files, held[i..], keys) == 0
        else
          var after := VisitedFiles(files, held[i], keys);
          && SearchesEnd(after, held[i + 1..], keys)
          && LoopOps(files, held[i..], keys) == visit + LoopOps(after, held[i + 1..], keys)
          && Settles(files, held[i..], keys) == 1 + Settles(after, held[i + 1..], keys)
  {
    hide Stuck, VisitOps, FindsName, DoneAll;
    assert held[i..][0] == held[i] && held[i..][1..] == held[i + 1..];
    assert VisitOps(files, held[i].n, held[i].d.met, keys) + [] == VisitOps(files, held[i].n, held[i].d.met, keys);
  }

  lemma LoopEnd(files: Files, held: seq<Held>, keys: set<KnownKey>)
    requires held == []
    ensures SearchesEnd(files, held, keys) && LoopOps(files, held, keys) == [] && Settles(files, held, keys) == 0
  {
  }

  /** The loop over the downloads: it ends with the first one that is stuck. */
  method VisitAll(fs: FileSystem, held: seq<Held>, keys: set<KnownKey>)
    returns (r: Result<bool, DownloadError>, visited: seq<Held>, seen: set<KnownKey>)
    requires KeysListed(keys, fs.files) && SearchesEnd(fs.files, held, keys)
    modifies fs
    ensures KeysListed(seen, fs.files)
    ensures r.Success? <==> Settles(old(fs.files), held, keys) == |held|
    ensures r.Success? ==> (r.value <==> exists i :: 0 <= i < |held| && Concerned(held[i].d.met))
    ensures fs.journal == old(fs.journal) + LoopOps(old(fs.files), held, keys)
    ensures fs.files == DoneAll(old(fs.files), LoopOps(old(fs.files), held, keys))
    ensures
        var k := Settles(old(fs.files), held, keys);
        visited == AfterVisits(held[..k]) + held[k..]
  {
    hide Stuck, VisitOps, FindsName, DoneAll, SearchesEnd, Settles, LoopOps, AfterVisits, KeysListed, VisitedFiles;
    ghost var files, journal := fs.files, fs.journal;
    ghost var loop := LoopOps(files, held, keys);
    assert held[0..] == held && held[..0] == [] && journal + [] == journal;
    NoneVisited();
    seen, visited := keys, [];
    var changed := false;
    for i := 0 to |held|
      invariant SearchesEnd(fs.files, held[i..], keys) && KeysListed(seen, fs.files) && (seen == keys || KnownReadable(fs.files))
      invariant fs.journal + LoopOps(fs.files, held[i..], keys) == journal + loop
      invariant DoneAll(fs.files, LoopOps(fs.files, held[i..], keys)) == DoneAll(files, loop)
      invariant i + Settles(fs.files, held[i..], keys) == Settles(files, held, keys)
      invariant visited == AfterVisits(held[..i])
      invariant changed <==> exists j :: 0 <= j < i && Concerned(held[j].d.met)
    {
      var h := held[i];
      ghost var before, written := fs.files, fs.journal;
      LoopNextDone(before, held, i, keys, written);
      KeysDoNotMatter(before, h.n, h.d.met, seen, keys);
      AfterVisitsNext(held, i);
      var after;
      after, seen := Visit(fs, h.n, h.d, seen);
      if after.Failure? {
        assert held[i..] == [h] + held[i + 1..];
        visited := visited + held[i..];
        return Failure(after.error), visited, seen;
      }
      visited := visited + [h.(d := after.value)];
      changed := changed || Concerned(h.d.met);
    }
    LoopEnd(fs.files, held[|held|..], keys);
    NoOps(fs.files, fs.files);
    assert fs.journal + [] == fs.journal && held[..|held|] == held && visited + [] == visited && held[|held|..] == [];
    return Success(changed), visited, seen;
  }

  lemma NoneVisited()
    ensures AfterVisits([]) == []
  {
  }

  lemma LoopNextDone(files: Files, held: seq<Held>, i: nat, keys: set<KnownKey>, journal: seq<Op>)
    requires i < |held| && SearchesEnd(files, held[i..], keys)
    ensures FindsName(files, held[i].n, held[i].d.met)
    ensures
        var visit := VisitOps(files, held[i].n, held[i].d.met, keys);
        if Stuck(files, held[i].n, held[i].d.met, keys) then
          LoopOps(files, held[i..], keys) == visit && Settles(files, held[i..], keys) == 0
        else
          var after := DoneAll(files, visit);
          && SearchesEnd(after, held[i + 1..], keys)
          && Settles(files, held[i..], keys) == 1 + Settles(after, held[i + 1..], keys)
          && DoneAll(files, LoopOps(files, held[i..], keys)) == DoneAll(after, LoopOps(after, held[i + 1..], keys))
          && journal + LoopOps(files, held[i..], keys) == (journal + visit) + LoopOps(after, held[i + 1..], keys)
  {
    hide Stuck, VisitOps, FindsName, DoneAll, SearchesEnd, Settles, LoopOps;
    LoopNext(files, held, i, keys);
    if !Stuck(files, held[i].n, held[i].d.met, keys) {
      var visit := VisitOps(files, held[i].n, held[i].d.met, keys);
      var after := VisitedFiles(files, held[i], keys);
      DoneAllConcat(files, visit, LoopOps(after, held[i + 1..], keys));
    }
  }

  /** Removes the metadata of all completed downloads, and the downloads from the table. */
  method DropCompleted(fs: FileSystem, visited: seq<Held>) returns (left: seq<Held>)
    modifies fs
    ensures left == Uncompleted(visited)
    ensures fs.journal == old(fs.journal) + DropsOps(old(fs.files), visited)
    ensures fs.files == DoneAll(old(fs.files), DropsOps(old(fs.files), visited))
  {
    hide DropsOps, DropOps, DoneAll, Uncompleted;
    ghost var files, journal := fs.files, fs.journal;
    assert visited[0..] == visited && visited[..0] == [];
    left := [];
    NoneLeft();
    for i := 0 to |visited|
      invariant left == Uncompleted(visited[..i])
      invariant fs.journal + DropsOps(fs.files, visited[i..]) == journal + DropsOps(files, visited)
      invariant DoneAll(fs.files, DropsOps(fs.files, visited[i..])) == DoneAll(files, DropsOps(files, visited))
    {
      DropsNext(fs.files, visited, i, fs.journal);
      if visited[i].d.met.state == Completed {
        DropMetadata(fs, visited[i].n);
      } else {
        left := left + [visited[i]];
      }
    }
    assert visited[|visited|..] == [] && visited[..|visited|] == visited;
    NothingDropped(fs.files);
    NoOps(fs.files, fs.files);
    assert fs.journal + [] == fs.journal;
  }

  lemma NoneLeft()
    ensures Uncompleted([]) == []
  {
  }

  lemma NothingDropped(files: Files)
    ensures DropsOps(files, []) == []
  {
  }

  lemma DropsNext(files: Files, held: seq<Held>, i: nat, journal: seq<Op>)
    requires i < |held|
    ensures
        if held[i].d.met.state != Completed then
          && DropsOps(files, held[i..]) == DropsOps(files, held[i + 1..])
          && Uncompleted(held[..i + 1]) == Uncompleted(held[..i]) + [held[i]]
        else
          var after := files - {Met(held[i].n), MetBackup(held[i].n)};
          && journal + DropsOps(files, held[i..]) == (journal + DropOps(files, held[i].n)) + DropsOps(after, held[i + 1..])
          && DoneAll(files, DropsOps(files, held[i..])) == DoneAll(after, DropsOps(after, held[i + 1..]))
          && Uncompleted(held[..i + 1]) == Uncompleted(held[..i])
  {
    hide DropOps, DoneAll;
    assert held[i..][0] == held[i] && held[i..][1..] == held[i + 1..] && held[..i + 1][..i] == held[..i];
    if held[i].d.met.state == Completed {
      var after := WithoutMetadata(files, held[i].n);
      DropOpsDone(files, held[i].n);
      DoneAllConcat(files, DropOps(files, held[i].n), DropsOps(after, held[i + 1..]));
    } else {
      assert Uncompleted(held[..i]) + [held[i]] == Uncompleted(held[..i + 1]);
    }
  }

  /** `finalize_completed_downloads`. */
  method FinalizeCompletedDownloads(fs: FileSystem, held: seq<Held>, keys: set<KnownKey>)
    returns (r: Result<bool, DownloadError>, left: seq<Held>, seen: set<KnownKey>)
    requires KeysListed(keys, fs.files) && SearchesEnd(fs.files, held, keys)
    modifies fs
    ensures r.Success? <==> Settles(old(fs.files), held, keys) == |held|
    ensures r.Success? ==> (r.value <==> exists i :: 0 <= i < |held| && Concerned(held[i].d.met))
    ensures fs.journal == old(fs.journal) + PassOps(old(fs.files), held, keys)
    ensures fs.files == DoneAll(old(fs.files), PassOps(old(fs.files), held, keys))
    ensures
        var k := Settles(old(fs.files), held, keys);
        left == if k == |held| then Uncompleted(AfterVisits(held)) else AfterVisits(held[..k]) + held[k..]
  {
    hide DoneAll, SearchesEnd, Settles, LoopOps, DropsOps, AfterVisits, Uncompleted, KeysListed;
    ghost var files, journal := fs.files, fs.journal;
    ghost var loop := LoopOps(files, held, keys);
    r, left, seen := VisitAll(fs, held, keys);
    assert loop + [] == loop;
    if r.Success? {
      assert held[..|held|] == held && held[|held|..] == [] && left == AfterVisits(held);
      ghost var drops := DropsOps(fs.files, left);
      DoneAllConcat(files, loop, drops);
      assert journal + (loop + drops) == journal + loop + drops;
      left := DropCompleted(fs, left);
    }
  }

  ghost predicate SameMet(a: Files, b: Files, m: nat) {
    forall p :: p in {Met(m), MetBackup(m)} ==> (p in a <==> p in b) && (p in a ==> a[p] == b[p])
  }

  /** The file of known entries is as readable as before, and no key is lost. */
  ghost predicate KnownGrows(a: Files, b: Files) {
    && (KnownReadable(a) <==> KnownReadable(b))
    && (KnownReadable(a) ==> forall key :: Listed(Entries(a), key) ==> Listed(Entries(b), key))
  }

  /** What is settled: the part file is gone, the metadata says so, the entry is listed. */
  ghost predicate SettledOnDisk(files: Files, n: nat, met: PartMet) {
    && Part(n) !in files
    && Met(n) in files && files[Met(n)] == MetOf(CompletedMet(met))
    && (KnownReadable(files) ==> Listed(Entries(files), MetKey(met)))
  }

  lemma MoveEffect(files: Files, n: nat, name: string, m: nat)
    requires Part(n) in files ==> SomeFree(files, name, n)
    ensures
        var after := DoneAll(files, MoveOps(files, n, name));
        && (m != n ==> SamePart(files, after, m)) && KnownGrows(files, after)
        && Part(n) !in after && SameMet(files, after, n)
  {
    hide Listed, FreeName, SomeFree;
    if Part(n) in files {
      OneOp(files, Rename(Part(n), Incoming(FreeName(files, name, n))));
    }
  }

  lemma RecordEffect(files: Files, met: PartMet, m: nat)
    ensures
        var after := DoneAll(files, KnownOps(files, met));
        && SamePart(files, after, m) && KnownGrows(files, after)
        && (KnownReadable(after) ==> Listed(Entries(after), MetKey(met)))
  {
    hide Listed, Lower;
    KnownOpsDone(files, met);
    if KnownReadable(files) {
      LowerTwice(met.fileHash);
      ListedAfterAppend(Entries(files), EntryFor(met));
    }
  }

  lemma SaveEffect(files: Files, n: nat, met: PartMet, m: nat)
    ensures m != n ==> SamePart(files, Saved(files, n, met), m)
    ensures KnownGrows(files, Saved(files, n, met))
    ensures Part(n) in Saved(files, n, met) <==> Part(n) in files
    ensures Met(n) in Saved(files, n, met) && Saved(files, n, met)[Met(n)] == MetOf(met)
  {
    hide Listed;
    SavedKeepsKnown(files, n, met);
  }

  /** A visit leaves the files of other parts alone, and settles a complete download that is
      not stuck. */
  lemma VisitEffect(files: Files, n: nat, met: PartMet, keys: set<KnownKey>, m: nat)
    requires FindsName(files, n, met)
    ensures
        var after := DoneAll(files, VisitOps(files, n, met, keys));
        && (m != n ==> SamePart(files, after, m)) && KnownGrows(files, after)
        && (ReadyToFinish(met) && !Stuck(files, n, met, keys) ==> SettledOnDisk(after, n, met))
        && (!ReadyToFinish(met) && !WrongSize(met) ==> after == files)
        && (Stuck(files, n, met, keys) ==> SameMet(files, after, n))
        && (Met(n) in files ==> Met(n) in after)
  {
    hide SamePart, KnownGrows, MoveOps, KnownOps, SaveOps, Saved, DoneAll, Listed, SomeFree, IncomingExists, Lower;
    NoOps(files, files);
    NothingLost(files, m);
    if WrongSize(met) {
      SaveOpsDone(files, n, Visited(met));
      SaveEffect(files, n, Visited(met), m);
    } else if ReadyToFinish(met) && !PartLost(files, n, met.fileName) {
      MoveEffect(files, n, met.fileName, m);
      if !Stuck(files, n, met, keys) {
        RecordedEffect(files, n, met, m);
      }
    }
  }

  lemma NothingLost(files: Files, m: nat)
    ensures SamePart(files, files, m) && KnownGrows(files, files)
  {
  }

  lemma GrowsTwice(a: Files, b: Files, c: Files, m: nat)
    ensures SamePart(a, b, m) && SamePart(b, c, m) ==> SamePart(a, c, m)
    ensures KnownGrows(a, b) && KnownGrows(b, c) ==> KnownGrows(a, c)
  {
    hide Listed;
  }

  lemma RecordedEffect(files: Files, n: nat, met: PartMet, m: nat)
    requires Part(n) in files ==> SomeFree(files, met.fileName, n)
    ensures
        var after := DoneAll(files, RecordedOps(files, n, met));
        (m != n ==> SamePart(files, after, m)) && KnownGrows(files, after) && SettledOnDisk(after, n, met)
  {
    hide KnownGrows, MoveOps, KnownOps, SaveOps, Saved, DoneAll, Listed, SomeFree, Lower, Entries;
    var moved := DoneAll(files, MoveOps(files, n, met.fileName));
    var known := DoneAll(moved, KnownOps(files, met));
    var saved := Saved(known, n, CompletedMet(met));
    RecordedOpsDone(files, n, met);
    MoveEffect(files, n, met.fileName, m);
    MoveKeepsKnown(files, n, met.fileName);
    KnownOpsFromEntries(moved, files, met);
    RecordEffect(moved, met, m);
    RecordEffect(moved, met, n);
    SaveEffect(known, n, CompletedMet(met), m);
    GrowsTwice(files, moved, known, m);
    GrowsTwice(files, known, saved, m);
    SavedKeepsKnown(known, n, CompletedMet(met));
    assert Part(n) in moved <==> Part(n) in known;
  }

  lemma LoopFirst(files: Files, held: seq<Held>, keys: set<KnownKey>)
    requires held != [] && SearchesEnd(files, held, keys)
    ensures FindsName(files, held[0].n, held[0].d.met)
    ensures
        var after := VisitedFiles(files, held[0], keys);
        if Stuck(files, held[0].n, held[0].d.met, keys) then
          Settles(files, held, keys) == 0 && DoneAll(files, LoopOps(files, held, keys)) == after
        else
          && SearchesEnd(after, held[1..], keys)
          && Settles(files, held, keys) == 1 + Settles(after, held[1..], keys)
          && DoneAll(files, LoopOps(files, held, keys)) == DoneAll(after, LoopOps(after, held[1..], keys))
  {
    hide Stuck, VisitOps, FindsName, DoneAll, SearchesEnd, Settles, LoopOps;
    assert held[0..] == held;
    LoopNextDone(files, held, 0, keys, []);
  }

  lemma {:induction false} LoopFrame(files: Files, held: seq<Held>, keys: set<KnownKey>, m: nat)
    requires SearchesEnd(files, held, keys) && forall i :: 0 <= i < |held| ==> held[i].n != m
    ensures
        var after := DoneAll(files, LoopOps(files, held, keys));
        SamePart(files, after, m) && KnownGrows(files, after)
    decreases |held|
  {
    hide Stuck, VisitOps, FindsName, DoneAll, SearchesEnd, Settles, LoopOps, SamePart, KnownGrows, SettledOnDisk, SameMet;
    if held == [] {
      LoopEnd(files, held, keys);
      NoOps(files, files);
      NothingLost(files, m);
    } else {
      LoopFirst(files, held, keys);
      VisitEffect(files, held[0].n, held[0].d.met, keys, m);
      if !Stuck(files, held[0].n, held[0].d.met, keys) {
        var after := VisitedFiles(files, held[0], keys);
        LoopFrame(after, held[1..], keys, m);
        GrowsTwice(files, after, DoneAll(after, LoopOps(after, held[1..], keys)), m);
      }
    }
  }

  lemma SettledStays(a: Files, b: Files, n: nat, met: PartMet)
    requires SettledOnDisk(a, n, met) && SamePart(a, b, n) && KnownGrows(a, b)
    ensures SettledOnDisk(b, n, met)
  {
    hide Listed;
  }

  /** What the loop did to download i: settled before the stuck one, untouched behind it. */
  ghost predicate Treated(files: Files, after: Files, n: nat, met: PartMet, i: nat, k: nat) {
    && KnownGrows(files, after) && (Met(n) in files ==> Met(n) in after)
    && (i < k && ReadyToFinish(met) ==> SettledOnDisk(after, n, met))
    && (i < k && !ReadyToFinish(met) && !WrongSize(met) ==> SamePart(files, after, n))
    && (i == k ==> SameMet(files, after, n))
    && (i > k ==> SamePart(files, after, n))
  }

  lemma {:induction false} LoopEffect(files: Files, held: seq<Held>, keys: set<KnownKey>, i: nat)
    requires SearchesEnd(files, held, keys) && Numbered(held) && i < |held|
    ensures Treated(files, DoneAll(files, LoopOps(files, held, keys)), held[i].n, held[i].d.met, i, Settles(files, held, keys))
    decreases |held|
  {
    hide Stuck, VisitOps, FindsName, DoneAll, SearchesEnd, Settles, LoopOps, SamePart, KnownGrows, SettledOnDisk, SameMet;
    hide ReadyToFinish, WrongSize;
    var n, met := held[i].n, held[i].d.met;
    LoopFirst(files, held, keys);
    var after := VisitedFiles(files, held[0], keys);
    VisitEffect(files, held[0].n, held[0].d.met, keys, n);
    var end := DoneAll(files, LoopOps(files, held, keys));
    if Stuck(files, held[0].n, held[0].d.met, keys) {
      assert i > 0 ==> n != held[0].n;
      PartsAlike(files, end, n);
    } else {
      assert Numbered(held[1..]);
      if i == 0 {
        LoopFrame(after, held[1..], keys, n);
        FirstTreated(files, after, end, n, met, Settles(files, held, keys), keys);
      } else {
        LoopEffect(after, held[1..], keys, i - 1);
        LaterTreated(files, after, end, n, met, i, Settles(files, held, keys));
      }
    }
  }

  lemma PartsAlike(a: Files, b: Files, m: nat)
    ensures SamePart(a, b, m) ==> SameMet(a, b, m) && (Met(m) in a <==> Met(m) in b)
  {
  }

  lemma FirstTreated(files: Files, after: Files, end: Files, n: nat, met: PartMet, k: nat, keys: set<KnownKey>)
    requires FindsName(files, n, met) && !Stuck(files, n, met, keys) && after == DoneAll(files, VisitOps(files, n, met, keys))
    requires SamePart(after, end, n) && KnownGrows(after, end) && k > 0
    ensures Treated(files, end, n, met, 0, k)
  {
    hide Stuck, VisitOps, FindsName, DoneAll, SamePart, KnownGrows, SettledOnDisk, SameMet;
    VisitEffect(files, n, met, keys, n);
    GrowsTwice(files, after, end, n);
    PartsAlike(after, end, n);
    if ReadyToFinish(met) {
      SettledStays(after, end, n, met);
    }
  }

  lemma LaterTreated(files: Files, after: Files, end: Files, n: nat, met: PartMet, i: nat, k: nat)
    requires i > 0 && k > 0 && SamePart(files, after, n) && KnownGrows(files, after)
    requires Treated(after, end, n, met, i - 1, k - 1)
    ensures Treated(files, end, n, met, i, k)
  {
    hide SettledOnDisk, KnownGrows;
    GrowsTwice(files, after, end, n);
  }

  lemma {:induction false} AfterVisitsAt(held: seq<Held>, i: nat)
    requires i < |held|
    ensures AfterVisits(held)[i] == AfterVisit(held[i])
  {
    if i < |held| - 1 {
      AfterVisitsAt(held[..|held| - 1], i);
    }
  }

  ghost predicate CompletedIn(held: seq<Held>, n: nat) {
    exists j :: 0 <= j < |held| && held[j].n == n && held[j].d.met.state == Completed
  }

  /** Nothing but metadata goes, and only that of completed downloads. */
  ghost predicate Dropped(files: Files, after: Files, n: nat, completed: bool) {
    && KnownGrows(files, after)
    && (Part(n) in after <==> Part(n) in files)
    && (if completed then Met(n) !in after else SamePart(files, after, n))
  }

  lemma {:induction false} DropsEffect(files: Files, held: seq<Held>, n: nat)
    ensures Dropped(files, DoneAll(files, DropsOps(files, held)), n, CompletedIn(held, n))
    decreases |held|
  {
    hide DropOps, DoneAll, KnownGrows, Listed;
    if held == [] {
      NoOps(files, files);
      NothingLost(files, n);
    } else if held[0].d.met.state != Completed {
      DropsEffect(files, held[1..], n);
      SameTail(held, n);
    } else {
      var after := WithoutMetadata(files, held[0].n);
      DropOpsDone(files, held[0].n);
      DoneAllConcat(files, DropOps(files, held[0].n), DropsOps(after, held[1..]));
      DropsEffect(after, held[1..], n);
      SameTail(held, n);
      KnownStays(files, held[0].n);
      GrowsTwice(files, after, DoneAll(after, DropsOps(after, held[1..])), n);
    }
  }

  lemma SameTail(held: seq<Held>, n: nat)
    requires held != []
    ensures
        CompletedIn(held, n) <==> (held[0].n == n && held[0].d.met.state == Completed) || CompletedIn(held[1..], n)
  {
    if j :| 0 <= j < |held| && held[j].n == n && held[j].d.met.state == Completed && j > 0 {
      assert held[1..][j - 1] == held[j];
    }
  }

  lemma KnownStays(files: Files, n: nat)
    ensures KnownGrows(files, WithoutMetadata(files, n))
  {
    hide Listed;
  }

  /** What a pass does to download i: those before the first stuck one are moved and recorded,
      those behind it are not touched, and only a pass that gets through removes metadata. */
  lemma PassSettles(files: Files, held: seq<Held>, keys: set<KnownKey>, i: nat)
    requires SearchesEnd(files, held, keys) && Numbered(held) && i < |held|
    ensures
        var after, k := DoneAll(files, PassOps(files, held, keys)), Settles(files, held, keys);
        var n, met := held[i].n, held[i].d.met;
        && (Met(n) in files ==> (Met(n) !in after <==> k == |held| && Visited(met).state == Completed))
        && (i < k && ReadyToFinish(met) ==> Part(n) !in after && (KnownReadable(after) ==> Listed(Entries(after), MetKey(met))))
        && (i < k < |held| && ReadyToFinish(met) ==> Met(n) in after && after[Met(n)] == MetOf(CompletedMet(met)))
        && (i > k ==> SamePart(files, after, n))
  {
    hide DoneAll, LoopOps, DropsOps, SearchesEnd, Settles, Listed, AfterVisits, Numbered, ReadyToFinish, WrongSize, CompletedIn;
    var loop, k := LoopOps(files, held, keys), Settles(files, held, keys);
    var looped := DoneAll(files, loop);
    var n, met := held[i].n, held[i].d.met;
    LoopEffect(files, held, keys, i);
    assert loop + [] == loop;
    if k == |held| {
      var visited := AfterVisits(held);
      DoneAllConcat(files, loop, DropsOps(looped, visited));
      DropsEffect(looped, visited, n);
      CompletedAfter(held, i);
      PartsAlike(looped, DoneAll(looped, DropsOps(looped, visited)), n);
    } else {
      assert PassOps(files, held, keys) == loop;
    }
  }

  lemma CompletedAfter(held: seq<Held>, i: nat)
    requires Numbered(held) && i < |held|
    ensures CompletedIn(AfterVisits(held), held[i].n) <==> Visited(held[i].d.met).state == Completed
  {
    hide AfterVisits, Visited;
    var visited := AfterVisits(held);
    AfterVisitsAt(held, i);
    if j :| 0 <= j < |visited| && visited[j].n == held[i].n && visited[j].d.met.state == Completed {
      AfterVisitsAt(held, j);
      assert j == i;
    }
  }

  /** A pass over a single complete download does what the runs with crashes are about. */
  lemma PassOfOne(g: Goal, files: Files, d: Download, keys: set<KnownKey>)
    requires CanAttempt(g, files) && KeysListed(keys, files) && HasMet(g, files, d.met)
    requires d.met == g.met && ReadyToFinish(g.met)
    ensures SearchesEnd(files, [Held(g.n, d)], keys)
    ensures PassOps(files, [Held(g.n, d)], keys) == AttemptOps(g, files)
  {
    hide RecordedOps, DropOps, MoveOps, KnownOps, SaveOps, IncomingExists, SomeFree, DoneAll, Listed, KeysListed;
    var held, n := [Held(g.n, d)], g.n;
    assert held[1..] == [];
    var after := VisitedFiles(files, held[0], keys);
    LoopEnd(after, [], keys);
    LoopFirst(files, held, keys);
    var visit := VisitOps(files, n, d.met, keys);
    assert LoopOps(files, held, keys) == visit && visit + [] == visit;
    if !Stuck(files, n, d.met, keys) {
      OneCompleted(after, held[0]);
      RecordedOpsDone(files, n, d.met);
    }
  }

  lemma OneCompleted(files: Files, h: Held)
    requires ReadyToFinish(h.d.met)
    ensures DropsOps(files, AfterVisits([h])) == DropOps(files, h.n)
  {
    hide DropOps;
    assert [h][..0] == [];
    assert AfterVisits([h]) == [AfterVisit(h)];
    assert [AfterVisit(h)][1..] == [];
    NothingDropped(WithoutMetadata(files, h.n));
    assert DropOps(files, h.n) + [] == DropOps(files, h.n);
  }
}
