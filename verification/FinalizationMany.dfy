/** Finishing any number of downloads with crashes: however often the process dies inside a pass
    over all of them and starts again, every file arrives once, under a name of its own. */
module FinalizationMany {
  import opened Bits
  import opened Downloads
  import opened Files
  import opened PartStore
  import opened IncomingNames
  import opened Finalization
  import opened FinalizationRuns
  import opened FinalizationPass

  /** A complete download: its number, its metadata and the content of its part file. */
  datatype Item = Item(n: nat, met: PartMet, data: seq<Byte>)

  ghost predicate DistinctItems(items: seq<Item>) {
    && (forall i :: 0 <= i < |items| ==> ReadyToFinish(items[i].met))
    && forall i, j :: 0 <= i < j < |items| ==> items[i].n != items[j].n
  }

  ghost predicate KeyListed(files: Files, met: PartMet) {
    KnownReadable(files) && Listed(Entries(files), MetKey(met))
  }

  /** The part file stands under the name it was given, which no file had and which is one of
      the names tried for it. */
  ghost predicate ArrivedAt(origin: Files, it: Item, files: Files, name: string) {
    && Part(it.n) !in files && Incoming(name) !in origin
    && Incoming(name) in files && files[Incoming(name)] == Data(it.data)
    && exists k: nat :: name == Candidate(it.met.fileName, it.n, k)
  }

  /** One download is on its way: not yet moved, or moved to the name it was given and then
      recorded, marked as completed and forgotten, in this order. */
  ghost predicate OnItsWay(origin: Files, it: Item, files: Files, given: map<nat, string>) {
    if it.n in given then
      && ArrivedAt(origin, it, files, given[it.n])
      && (|| MetIs(files, it.n, it.met)
          || (KeyListed(files, it.met) && (MetIs(files, it.n, CompletedMet(it.met)) || Met(it.n) !in files)))
    else
      Part(it.n) in files && files[Part(it.n)] == Data(it.data) && MetIs(files, it.n, it.met)
  }

  /** No incoming file of the beginning is touched. */
  ghost predicate NothingOverwritten(origin: Files, files: Files) {
    forall name :: Incoming(name) in origin ==> Incoming(name) in files && files[Incoming(name)] == origin[Incoming(name)]
  }

  ghost predicate KeysOnce(entries: seq<KnownEntry>) {
    forall i, j :: 0 <= i < j < |entries| ==> KeyOf(entries[i]) != KeyOf(entries[j])
  }

  /** Entries are only added, each key at most once and only where it was not listed. */
  ghost predicate EntriesGrow(origin: Files, files: Files)
    requires KnownReadable(origin)
  {
    && KnownReadable(files)
    && Entries(origin) <= Entries(files)
    && KeysOnce(Entries(files)[|Entries(origin)|..])
    && forall i :: |Entries(origin)| <= i < |Entries(files)| ==> !Listed(Entries(origin), KeyOf(Entries(files)[i]))
  }

  /** No two downloads were given the same name. */
  ghost predicate OwnNames(given: map<nat, string>) {
    forall a, b :: a in given && b in given && a != b ==> given[a] != given[b]
  }

  ghost predicate Underway(origin: Files, items: seq<Item>, files: Files, given: map<nat, string>)
    requires KnownReadable(origin)
  {
    && EntriesGrow(origin, files) && NothingOverwritten(origin, files) && OwnNames(given)
    && (forall n :: n in given ==> Incoming(given[n]) in files)
    && forall i :: 0 <= i < |items| ==> OnItsWay(origin, items[i], files, given)
  }

  /** A download in memory is none the pass is concerned with, or one of these, as loaded. */
  ghost predicate LoadedFrom(items: seq<Item>, files: Files, h: Held) {
    Concerned(h.d.met) ==> exists i :: 0 <= i < |items| && items[i].n == h.n && MetIs(files, h.n, h.d.met)
  }

  ghost predicate AllLoaded(items: seq<Item>, files: Files, held: seq<Held>) {
    && (forall j :: 0 <= j < |held| ==> LoadedFrom(items, files, held[j]))
    && forall i :: 0 <= i < |items| && Met(items[i].n) in files ==>
         exists j :: 0 <= j < |held| && held[j].n == items[i].n && MetIs(files, held[j].n, held[j].d.met)
  }

  /** Only files of part n, incoming files that are new, and the known entries may differ. */
  ghost predicate OthersKept(a: Files, b: Files, n: nat) {
    && (forall m :: m != n ==> SamePart(a, b, m))
    && (forall name :: Incoming(name) in a ==> Incoming(name) in b && b[Incoming(name)] == a[Incoming(name)])
  }

  lemma KeptIsOnItsWay(origin: Files, it: Item, a: Files, b: Files, n: nat, given: map<nat, string>, more: map<nat, string>)
    requires OnItsWay(origin, it, a, given) && OthersKept(a, b, n) && it.n != n
    requires KnownReadable(a) && KnownGrows(a, b)
    requires (it.n in more <==> it.n in given) && (it.n in given ==> more[it.n] == given[it.n])
    ensures OnItsWay(origin, it, b, more)
  {
    hide Candidate, Listed, KeyOf;
    assert SamePart(a, b, it.n);
  }

  /** The step from a to b concerns download i only. */
  lemma StepKeeps(origin: Files, items: seq<Item>, a: Files, b: Files, given: map<nat, string>, more: map<nat, string>, i: nat)
    requires KnownReadable(origin) && DistinctItems(items) && i < |items| && Underway(origin, items, a, given)
    requires OthersKept(a, b, items[i].n) && KnownGrows(a, b) && EntriesGrow(origin, b)
    requires OnItsWay(origin, items[i], b, more) && OwnNames(more)
    requires forall n :: n != items[i].n ==> (n in more <==> n in given) && (n in given ==> more[n] == given[n])
    requires items[i].n in given ==> items[i].n in more && more[items[i].n] == given[items[i].n]
    ensures Underway(origin, items, b, more)
  {
    hide OnItsWay, KnownGrows, EntriesGrow, OwnNames;
    assert NothingOverwritten(origin, b);
    forall n | n in more
      ensures Incoming(more[n]) in b
    {
      if n == items[i].n {
        WayHasName(origin, items[i], b, more);
      }
    }
    assert KnownReadable(a) by { GrowsIsReadable(origin, a); }
    forall j | 0 <= j < |items|
      ensures OnItsWay(origin, items[j], b, more)
    {
      if j != i {
        assert items[j].n != items[i].n;
        KeptIsOnItsWay(origin, items[j], a, b, items[i].n, given, more);
      }
    }
  }

  lemma WayHasName(origin: Files, it: Item, files: Files, given: map<nat, string>)
    requires OnItsWay(origin, it, files, given) && it.n in given
    ensures Incoming(given[it.n]) in files
  {
    hide Candidate, KeyListed;
  }

  lemma GrowsIsReadable(origin: Files, files: Files)
    requires KnownReadable(origin) && EntriesGrow(origin, files)
    ensures KnownReadable(files)
  {
  }

  lemma SameKnownGrows(origin: Files, a: Files, b: Files)
    requires KnownReadable(origin) && EntriesGrow(origin, a) && KnownReadable(b) && Entries(a) == Entries(b)
    ensures EntriesGrow(origin, b) && KnownGrows(a, b)
  {
    hide Listed, KeysOnce;
  }

  /** The move, done or not; it is one operation. */
  lemma MoveStep(origin: Files, items: seq<Item>, files: Files, given: map<nat, string>, i: nat)
      returns (more: map<nat, string>)
    requires KnownReadable(origin) && DistinctItems(items) && i < |items| && Underway(origin, items, files, given)
    requires MetIs(files, items[i].n, items[i].met) && FindsName(files, items[i].n, items[i].met)
    ensures
        var moved := DoneAll(files, MoveOps(files, items[i].n, items[i].met.fileName));
        && Underway(origin, items, moved, more) && items[i].n in more && MetIs(moved, items[i].n, items[i].met)
        && Entries(moved) == Entries(files) && (forall m :: m != items[i].n ==> SamePart(files, moved, m))
        && (forall after :: CrashPoint(files, MoveOps(files, items[i].n, items[i].met.fileName), after) ==> after == files || after == moved)
    ensures forall n :: n in given ==> n in more && more[n] == given[n]
  {
    hide Underway, Candidate, Listed, FreeName, SomeFree, EntriesGrow, NothingOverwritten;
    var it := items[i];
    UnderwayMeans(origin, items, files, given, i);
    NoOps(files, files);
    MoveKeepsKnown(files, it.n, it.met.fileName);
    if it.n in given {
      assert Part(it.n) !in files;
      NoOpsCrash(files);
      more := given;
      SelfSame(files);
    } else {
      var name := FreeName(files, it.met.fileName, it.n);
      var op := Rename(Part(it.n), Incoming(name));
      OneOp(files, op);
      OneOpCrash(files, op);
      var moved := Done(files, op);
      more := given[it.n := name];
      NameIsNew(origin, items, files, given, it.met.fileName, it.n);
      SameKnownGrows(origin, files, moved);
      StepKeeps(origin, items, files, moved, given, more, i);
    }
  }

  lemma NoOpsCrash(files: Files)
    ensures forall after :: CrashPoint(files, [], after) ==> after == files
  {
  }

  lemma OneOpCrash(files: Files, op: Op)
    requires op.Rename?
    ensures forall after :: CrashPoint(files, [op], after) ==> after == files || after == Done(files, op)
  {
    assert [op][1..] == [];
    forall after | CrashPoint(files, [op], after)
      ensures after == files || after == Done(files, op)
    {
      NoOps(Done(files, op), after);
    }
  }

  lemma SelfSame(files: Files)
    ensures forall m: nat :: SamePart(files, files, m)
  {
  }

  lemma UnderwayMeans(origin: Files, items: seq<Item>, files: Files, given: map<nat, string>, i: nat)
    requires KnownReadable(origin) && i < |items| && Underway(origin, items, files, given)
    ensures EntriesGrow(origin, files) && NothingOverwritten(origin, files) && KnownReadable(files)
    ensures OnItsWay(origin, items[i], files, given) && OwnNames(given)
    ensures forall n :: n in given ==> Incoming(given[n]) in files
  {
    hide OnItsWay, NothingOverwritten, OwnNames, KeysOnce, Listed;
  }

  lemma NameIsNew(origin: Files, items: seq<Item>, files: Files, given: map<nat, string>, name: string, n: nat)
    requires KnownReadable(origin) && Underway(origin, items, files, given) && SomeFree(files, name, n) && n !in given
    ensures
        var free := FreeName(files, name, n);
        && Incoming(free) !in files && Incoming(free) !in origin && OwnNames(given[n := free])
        && exists k: nat :: free == Candidate(name, n, k)
  {
    hide Candidate, OnItsWay, EntriesGrow;
    var k := LowestFree(files, name, n, 0);
    assert FreeName(files, name, n) == Candidate(name, n, k);
  }

  /** Recording the entry, done or cut short. */
  lemma RecordStep(origin: Files, items: seq<Item>, files: Files, given: map<nat, string>, i: nat, after: Files)
    requires KnownReadable(origin) && DistinctItems(items) && i < |items| && Underway(origin, items, files, given)
    requires MetIs(files, items[i].n, items[i].met)
    ensures
        var recorded := DoneAll(files, KnownOps(files, items[i].met));
        && Underway(origin, items, recorded, given) && MetIs(recorded, items[i].n, items[i].met)
        && KeyListed(recorded, items[i].met) && (forall m: nat :: SamePart(files, recorded, m))
    ensures CrashPoint(files, KnownOps(files, items[i].met), after) ==>
        Underway(origin, items, after, given) && (forall m: nat :: SamePart(files, after, m))
  {
    hide Underway, Listed, Lower, EntriesGrow, NothingOverwritten, OnItsWay;
    var met := items[i].met;
    UnderwayMeans(origin, items, files, given, i);
    KnownOpsDone(files, met);
    LowerTwice(met.fileHash);
    var recorded := DoneAll(files, KnownOps(files, met));
    EntryAdded(origin, files, met);
    KnownAlone(origin, items, files, recorded, given, i);
    if CrashPoint(files, KnownOps(files, met), after) {
      KnownCrash(files, met, after);
      if after != recorded {
        SameKnownGrows(origin, files, after);
        KnownAlone(origin, items, files, after, given, i);
      }
    }
  }

  lemma EntryAdded(origin: Files, files: Files, met: PartMet)
    requires KnownReadable(origin) && EntriesGrow(origin, files)
    ensures
        var recorded := DoneAll(files, KnownOps(files, met));
        EntriesGrow(origin, recorded) && KnownGrows(files, recorded) && KeyListed(recorded, met)
  {
    hide Lower;
    KnownOpsDone(files, met);
    LowerTwice(met.fileHash);
    if !Listed(Entries(files), MetKey(met)) {
      var was, entry, front := Entries(files), EntryFor(met), Entries(origin);
      ListedAfterAppend(was, entry);
      assert (was + [entry])[|front|..] == was[|front|..] + [entry];
      forall i | 0 <= i < |was|
        ensures KeyOf(was[i]) != KeyOf(entry)
      {
      }
      assert !Listed(front, KeyOf(entry)) by {
        forall i | 0 <= i < |front|
          ensures KeyOf(front[i]) != KeyOf(entry)
        {
          assert front[i] == was[i];
        }
      }
    }
  }

  /** Files that differ in the known entries only. */
  lemma KnownAlone(origin: Files, items: seq<Item>, a: Files, b: Files, given: map<nat, string>, i: nat)
    requires KnownReadable(origin) && DistinctItems(items) && i < |items| && Underway(origin, items, a, given)
    requires forall p :: p !in {Known, KnownTemp} ==> (p in a <==> p in b) && (p in a ==> a[p] == b[p])
    requires KnownGrows(a, b) && EntriesGrow(origin, b)
    ensures Underway(origin, items, b, given) && (forall m: nat :: SamePart(a, b, m))
  {
    hide Candidate, Listed, EntriesGrow;
    assert OnItsWay(origin, items[i], a, given);
    assert KnownReadable(a) by { GrowsIsReadable(origin, a); }
    StepKeeps(origin, items, a, b, given, given, i);
  }

  lemma KnownCrash(files: Files, met: PartMet, after: Files)
    requires KnownReadable(files) && CrashPoint(files, KnownOps(files, met), after)
    ensures after == DoneAll(files, KnownOps(files, met)) || (KnownReadable(after) && Entries(after) == Entries(files))
    ensures forall p :: p !in {Known, KnownTemp} ==> (p in after <==> p in files) && (p in files ==> after[p] == files[p])
  {
    hide Listed, Lower;
    KnownOpsDone(files, met);
    if !Listed(Entries(files), MetKey(met)) {
      var w, m := Write(KnownTemp, KnownOf(Entries(files) + [EntryFor(met)])), Rename(KnownTemp, Known);
      assert [w, m][1..] == [m] && [m][1..] == [];
      var written := Done(files, w);
      assert after == files || CutShort(files, w, after) || CrashPoint(written, [m], after);
      assert CrashPoint(written, [m], after) ==> after == written || CrashPoint(Done(written, m), [], after);
    } else {
      NoOps(files, after);
    }
  }

  /** Saving the metadata as completed, done or cut short. */
  lemma SaveStep(origin: Files, items: seq<Item>, files: Files, given: map<nat, string>, i: nat, after: Files)
    requires KnownReadable(origin) && DistinctItems(items) && i < |items| && Underway(origin, items, files, given)
    requires MetIs(files, items[i].n, items[i].met) && KeyListed(files, items[i].met) && items[i].n in given
    ensures
        var saved := Saved(files, items[i].n, CompletedMet(items[i].met));
        && Underway(origin, items, saved, given) && MetIs(saved, items[i].n, CompletedMet(items[i].met))
        && KeyListed(saved, items[i].met) && (forall m :: m != items[i].n ==> SamePart(files, saved, m))
    ensures CrashPoint(files, SaveOps(files, items[i].n, CompletedMet(items[i].met)), after) ==>
        Underway(origin, items, after, given) && (forall m :: m != items[i].n ==> SamePart(files, after, m))
  {
    hide Underway, Listed, CrashPoint, SaveOps, EntriesGrow, Lower;
    var it := items[i];
    UnderwayMeans(origin, items, files, given, i);
    MetAlone(origin, items, files, Saved(files, it.n, CompletedMet(it.met)), given, i);
    if CrashPoint(files, SaveOps(files, it.n, CompletedMet(it.met)), after) {
      SaveCrash(files, it.n, CompletedMet(it.met), after);
      MetAlone(origin, items, files, after, given, i);
    }
  }

  /** Files that differ in the metadata of one moved and recorded download only. */
  lemma MetAlone(origin: Files, items: seq<Item>, a: Files, b: Files, given: map<nat, string>, i: nat)
    requires KnownReadable(origin) && DistinctItems(items) && i < |items| && Underway(origin, items, a, given)
    requires items[i].n in given && KeyListed(a, items[i].met) && SameElsewhere(a, b, items[i].n)
    requires MetIs(b, items[i].n, items[i].met) || MetIs(b, items[i].n, CompletedMet(items[i].met)) || Met(items[i].n) !in b
    ensures Underway(origin, items, b, given) && KeyListed(b, items[i].met)
    ensures forall m :: m != items[i].n ==> SamePart(a, b, m)
  {
    hide Candidate, Listed, EntriesGrow, Underway;
    UnderwayMeans(origin, items, a, given, i);
    assert Known in a <==> Known in b;
    SameKnownGrows(origin, a, b);
    StepKeeps(origin, items, a, b, given, given, i);
  }

  /** Removing the metadata, done or cut short. */
  lemma DropStep(origin: Files, items: seq<Item>, files: Files, given: map<nat, string>, i: nat, after: Files)
    requires KnownReadable(origin) && DistinctItems(items) && i < |items| && Underway(origin, items, files, given)
    requires MetIs(files, items[i].n, CompletedMet(items[i].met))
    ensures
        var dropped := WithoutMetadata(files, items[i].n);
        && Underway(origin, items, dropped, given) && (forall m :: m != items[i].n ==> SamePart(files, dropped, m))
    ensures CrashPoint(files, DropOps(files, items[i].n), after) ==> Underway(origin, items, after, given)
    ensures items[i].n in given && KeyListed(files, items[i].met)
    ensures CrashPoint(files, DropOps(files, items[i].n), after) ==> (forall m :: m != items[i].n ==> SamePart(files, after, m))
  {
    hide Underway, CrashPoint, DropOps, EntriesGrow, Listed, Lower;
    var it := items[i];
    UnderwayMeans(origin, items, files, given, i);
    assert CompletedMet(it.met) != it.met;
    assert it.n in given && KeyListed(files, it.met);
    MetAlone(origin, items, files, WithoutMetadata(files, it.n), given, i);
    if CrashPoint(files, DropOps(files, it.n), after) {
      DropCrash(files, it.n, after);
      MetAlone(origin, items, files, after, given, i);
    }
  }

  /** What a pass is concerned with is one of these downloads, as it was or as completed. */
  lemma LoadedItem(origin: Files, items: seq<Item>, files: Files, given: map<nat, string>, h: Held) returns (i: nat)
    requires KnownReadable(origin) && DistinctItems(items) && Underway(origin, items, files, given)
    requires LoadedFrom(items, files, h) && Concerned(h.d.met)
    ensures i < |items| && items[i].n == h.n && MetIs(files, h.n, h.d.met)
    ensures h.d.met == items[i].met || h.d.met == CompletedMet(items[i].met)
    ensures !WrongSize(h.d.met) && (h.d.met.state != Completed ==> h.d.met == items[i].met && ReadyToFinish(h.d.met))
  {
    hide Underway, EntriesGrow, Concerned, ArrivedAt, KeyListed;
    i :| 0 <= i < |items| && items[i].n == h.n && MetIs(files, h.n, h.d.met);
    UnderwayMeans(origin, items, files, given, i);
  }

  /** The visit of a complete download, done or cut short: it is never stuck. */
  lemma VisitStep(origin: Files, items: seq<Item>, files: Files, given: map<nat, string>, i: nat, keys: set<KnownKey>, after: Files)
      returns (more: map<nat, string>)
    requires KnownReadable(origin) && DistinctItems(items) && i < |items| && Underway(origin, items, files, given)
    requires MetIs(files, items[i].n, items[i].met) && FindsName(files, items[i].n, items[i].met)
    ensures !Stuck(files, items[i].n, items[i].met, keys)
    ensures
        var done := DoneAll(files, VisitOps(files, items[i].n, items[i].met, keys));
        && Underway(origin, items, done, more) && MetIs(done, items[i].n, CompletedMet(items[i].met))
        && (forall m :: m != items[i].n ==> SamePart(files, done, m))
    ensures CrashPoint(files, VisitOps(files, items[i].n, items[i].met, keys), after) ==>
        && (Underway(origin, items, after, given) || Underway(origin, items, after, more))
        && (forall m :: m != items[i].n ==> SamePart(files, after, m))
    ensures forall n :: n in given ==> n in more && more[n] == given[n]
  {
    hide Underway, MoveOps, KnownOps, SaveOps, Saved, CrashPoint, DoneAll, SomeFree, IncomingExists, Candidate, Listed, MetIs,
         KeyListed, SamePart, KnownReadable;
    var n, met := items[i].n, items[i].met;
    NotStuck(origin, items, files, given, i, keys);
    var move, note := MoveOps(files, n, met.fileName), KnownOps(files, met);
    more := MoveStep(origin, items, files, given, i);
    var moved := DoneAll(files, move);
    UnderwayMeans(origin, items, files, given, i);
    UnderwayMeans(origin, items, moved, more, i);
    KnownOpsFromEntries(moved, files, met);
    RecordStep(origin, items, moved, more, i, after);
    var known := DoneAll(moved, note);
    SaveStep(origin, items, known, more, i, after);
    RecordedOpsDone(files, n, met);
    var save := SaveOps(known, n, CompletedMet(met));
    PartsTwice(files, moved, known, n);
    PartsTwice(files, known, Saved(known, n, CompletedMet(met)), n);
    if CrashPoint(files, move + note + save, after) {
      CrashPointConcat(files, move + note, save, after);
      DoneAllConcat(files, move, note);
      if CrashPoint(files, move + note, after) {
        CrashPointConcat(files, move, note, after);
      }
      PartsTwice(files, moved, after, n);
      PartsTwice(files, known, after, n);
      assert forall m :: SamePart(files, files, m) by { SelfSame(files); }
    }
  }

  lemma PartsTwice(a: Files, b: Files, c: Files, n: nat)
    ensures (forall m :: m != n ==> SamePart(a, b, m)) && (forall m :: m != n ==> SamePart(b, c, m)) ==>
      forall m :: m != n ==> SamePart(a, c, m)
  {
    hide SamePart;
    if (forall m :: m != n ==> SamePart(a, b, m)) && (forall m :: m != n ==> SamePart(b, c, m)) {
      forall m | m != n
        ensures SamePart(a, c, m)
      {
        GrowsTwice(a, b, c, m);
      }
    }
  }

  lemma NotStuck(origin: Files, items: seq<Item>, files: Files, given: map<nat, string>, i: nat, keys: set<KnownKey>)
    requires KnownReadable(origin) && DistinctItems(items) && i < |items| && Underway(origin, items, files, given)
    requires FindsName(files, items[i].n, items[i].met)
    ensures !Stuck(files, items[i].n, items[i].met, keys) && ReadyToFinish(items[i].met) && !WrongSize(items[i].met)
    ensures VisitOps(files, items[i].n, items[i].met, keys) == RecordedOps(files, items[i].n, items[i].met)
  {
    hide Underway, EntriesGrow, Candidate, IncomingExists, SomeFree, RecordedOps, MoveOps, SaveOps, KnownReadable;
    var it := items[i];
    UnderwayMeans(origin, items, files, given, i);
    if it.n in given {
      var k: nat :| given[it.n] == Candidate(it.met.fileName, it.n, k);
      CandidateIsRecognised(files, it.met.fileName, it.n, k);
    }
  }

  lemma StillLoaded(items: seq<Item>, a: Files, b: Files, held: seq<Held>)
    requires held != [] && Numbered(held) && (forall m :: m != held[0].n ==> SamePart(a, b, m))
    requires forall j :: 0 <= j < |held| ==> LoadedFrom(items, a, held[j])
    ensures Numbered(held[1..]) && forall j :: 0 <= j < |held[1..]| ==> LoadedFrom(items, b, held[1..][j])
  {
    hide Concerned;
    forall j | 0 <= j < |held[1..]|
      ensures LoadedFrom(items, b, held[1..][j])
    {
      var h := held[j + 1];
      assert held[1..][j] == h && h.n != held[0].n;
      assert LoadedFrom(items, a, h) && SamePart(a, b, h.n);
    }
  }

  ghost predicate Extends(given: map<nat, string>, more: map<nat, string>) {
    forall n :: n in given ==> n in more && more[n] == given[n]
  }

  ghost predicate NoNewMet(items: seq<Item>, a: Files, b: Files) {
    forall k :: 0 <= k < |items| && Met(items[k].n) !in a ==> Met(items[k].n) !in b
  }

  lemma NoNew(items: seq<Item>, a: Files, b: Files, n: nat)
    requires (forall m :: m != n ==> SamePart(a, b, m)) && (Met(n) !in a ==> Met(n) !in b)
    ensures NoNewMet(items, a, b)
  {
    forall k | 0 <= k < |items| && Met(items[k].n) !in a
      ensures Met(items[k].n) !in b
    {
      assert items[k].n != n ==> SamePart(a, b, items[k].n);
    }
  }

  /** A visit of any download the process holds. */
  lemma OneVisit(origin: Files, items: seq<Item>, files: Files, given: map<nat, string>, h: Held, keys: set<KnownKey>, after: Files)
      returns (more: map<nat, string>)
    requires KnownReadable(origin) && DistinctItems(items) && Underway(origin, items, files, given)
    requires FindsName(files, h.n, h.d.met) && LoadedFrom(items, files, h)
    ensures !Stuck(files, h.n, h.d.met, keys)
    ensures
        var done := VisitedFiles(files, h, keys);
        && Underway(origin, items, done, more) && NoNewMet(items, files, done)
        && (forall m :: m != h.n ==> SamePart(files, done, m))
        && (Concerned(h.d.met) ==> Visited(h.d.met).state == Completed && MetIs(done, h.n, Visited(h.d.met)))
    ensures CrashPoint(files, VisitOps(files, h.n, h.d.met, keys), after) ==>
        (Underway(origin, items, after, given) || Underway(origin, items, after, more)) && NoNewMet(items, files, after)
    ensures Extends(given, more)
  {
    hide Underway, CrashPoint, DoneAll, VisitOps, Stuck, EntriesGrow, SamePart, FindsName;
    more := given;
    NoOps(files, files);
    SelfSame(files);
    if ReadyToFinish(h.d.met) || WrongSize(h.d.met) {
      var i := LoadedItem(origin, items, files, given, h);
      more := VisitStep(origin, items, files, given, i, keys, after);
      NoNew(items, files, VisitedFiles(files, h, keys), h.n);
      if CrashPoint(files, VisitOps(files, h.n, h.d.met, keys), after) {
        NoNew(items, files, after, h.n);
      }
    } else {
      IdleVisit(files, h, keys);
      if Concerned(h.d.met) {
        var i := LoadedItem(origin, items, files, given, h);
      }
    }
  }

  lemma IdleVisit(files: Files, h: Held, keys: set<KnownKey>)
    requires FindsName(files, h.n, h.d.met) && !ReadyToFinish(h.d.met) && !WrongSize(h.d.met)
    ensures VisitOps(files, h.n, h.d.met, keys) == [] && !Stuck(files, h.n, h.d.met, keys)
    ensures VisitedFiles(files, h, keys) == files && Visited(h.d.met) == h.d.met
    ensures forall after :: CrashPoint(files, VisitOps(files, h.n, h.d.met, keys), after) ==> after == files
  {
    hide ReadyToFinish, WrongSize;
    NoOps(files, files);
    NoOpsCrash(files);
  }

  /** What the loop over all downloads leaves when it gets through. */
  ghost predicate Looped(done: Files, held: seq<Held>) {
    forall j :: 0 <= j < |held| && Concerned(held[j].d.met) ==>
      Visited(held[j].d.met).state == Completed && MetIs(done, held[j].n, Visited(held[j].d.met))
  }

  lemma LoopCut(files: Files, held: seq<Held>, keys: set<KnownKey>, after: Files)
    requires held != [] && SearchesEnd(files, held, keys) && FindsName(files, held[0].n, held[0].d.met)
    requires !Stuck(files, held[0].n, held[0].d.met, keys) && SearchesEnd(VisitedFiles(files, held[0], keys), held[1..], keys)
    requires CrashPoint(files, LoopOps(files, held, keys), after)
    ensures
        || CrashPoint(files, VisitOps(files, held[0].n, held[0].d.met, keys), after)
        || CrashPoint(VisitedFiles(files, held[0], keys), LoopOps(VisitedFiles(files, held[0], keys), held[1..], keys), after)
  {
    hide Stuck, VisitOps, FindsName, DoneAll, SearchesEnd, CrashPoint;
    CrashPointConcat(files, VisitOps(files, held[0].n, held[0].d.met, keys),
                     LoopOps(VisitedFiles(files, held[0], keys), held[1..], keys), after);
  }

  lemma LoopedOn(files: Files, done: Files, held: seq<Held>, end: Files)
    requires held != [] && Numbered(held) && Looped(end, held[1..]) && SamePart(done, end, held[0].n)
    requires Concerned(held[0].d.met) ==>
      Visited(held[0].d.met).state == Completed && MetIs(done, held[0].n, Visited(held[0].d.met))
    ensures Looped(end, held)
  {
    hide Concerned, Visited;
    forall j | 0 <= j < |held| && Concerned(held[j].d.met)
      ensures Visited(held[j].d.met).state == Completed && MetIs(end, held[j].n, Visited(held[j].d.met))
    {
      assert j > 0 ==> held[j] == held[1..][j - 1];
    }
  }

  lemma {:induction false} LoopDone(origin: Files, items: seq<Item>, files: Files, given: map<nat, string>, held: seq<Held>,
                                    keys: set<KnownKey>)
      returns (more: map<nat, string>)
    requires KnownReadable(origin) && DistinctItems(items) && Underway(origin, items, files, given)
    requires SearchesEnd(files, held, keys) && Numbered(held) && forall j :: 0 <= j < |held| ==> LoadedFrom(items, files, held[j])
    ensures Settles(files, held, keys) == |held|
    ensures
        var done := DoneAll(files, LoopOps(files, held, keys));
        Underway(origin, items, done, more) && Looped(done, held) && NoNewMet(items, files, done)
    ensures Extends(given, more)
    decreases |held|
  {
    hide Underway, DoneAll, VisitOps, Stuck, SearchesEnd, Settles, LoopOps, Visited, Concerned, LoadedFrom, FindsName,
         KnownReadable, MetIs, SamePart, DistinctItems;
    more := given;
    if held == [] {
      LoopEnd(files, held, keys);
      NoOps(files, files);
    } else {
      LoopFirst(files, held, keys);
      var done := VisitedFiles(files, held[0], keys);
      more := OneVisit(origin, items, files, given, held[0], keys, files);
      StillLoaded(items, files, done, held);
      LoopFrame(done, held[1..], keys, held[0].n);
      more := LoopDone(origin, items, done, more, held[1..], keys);
      LoopedOn(files, done, held, DoneAll(done, LoopOps(done, held[1..], keys)));
    }
  }

  lemma {:induction false} LoopCrash(origin: Files, items: seq<Item>, files: Files, given: map<nat, string>, held: seq<Held>,
                                     keys: set<KnownKey>, after: Files)
      returns (more: map<nat, string>)
    requires KnownReadable(origin) && DistinctItems(items) && Underway(origin, items, files, given)
    requires SearchesEnd(files, held, keys) && Numbered(held) && forall j :: 0 <= j < |held| ==> LoadedFrom(items, files, held[j])
    requires CrashPoint(files, LoopOps(files, held, keys), after)
    ensures Underway(origin, items, after, more) && NoNewMet(items, files, after) && Extends(given, more)
    decreases |held|
  {
    hide Underway, DoneAll, VisitOps, Stuck, SearchesEnd, LoopOps, Visited, Concerned, LoadedFrom, FindsName, CrashPoint,
         KnownReadable, MetIs, SamePart, DistinctItems;
    more := given;
    if held == [] {
      LoopEnd(files, held, keys);
      NoOps(files, after);
    } else {
      LoopFirst(files, held, keys);
      var done := VisitedFiles(files, held[0], keys);
      var visited := OneVisit(origin, items, files, given, held[0], keys, after);
      LoopCut(files, held, keys, after);
      if CrashPoint(files, VisitOps(files, held[0].n, held[0].d.met, keys), after) {
        more := if Underway(origin, items, after, given) then given else visited;
      } else {
        StillLoaded(items, files, done, held);
        more := LoopCrash(origin, items, done, visited, held[1..], keys, after);
      }
    }
  }

  /** The completed ones among these downloads are moved and recorded items. */
  ghost predicate Droppable(items: seq<Item>, files: Files, held: seq<Held>) {
    forall j :: 0 <= j < |held| && held[j].d.met.state == Completed ==>
      exists i :: 0 <= i < |items| && items[i].n == held[j].n && MetIs(files, held[j].n, CompletedMet(items[i].met))
  }

  lemma DroppableRest(items: seq<Item>, a: Files, b: Files, held: seq<Held>)
    requires held != [] && Numbered(held) && Droppable(items, a, held) && forall m :: m != held[0].n ==> SamePart(a, b, m)
    ensures Numbered(held[1..]) && Droppable(items, b, held[1..])
  {
    forall j | 0 <= j < |held[1..]| && held[1..][j].d.met.state == Completed
      ensures exists i :: 0 <= i < |items| && items[i].n == held[1..][j].n && MetIs(b, held[1..][j].n, CompletedMet(items[i].met))
    {
      var h := held[j + 1];
      assert held[1..][j] == h && h.n != held[0].n;
      var i :| 0 <= i < |items| && items[i].n == h.n && MetIs(a, h.n, CompletedMet(items[i].met));
      assert SamePart(a, b, h.n);
    }
  }

  lemma {:induction false} DropsDone(origin: Files, items: seq<Item>, files: Files, given: map<nat, string>, held: seq<Held>, after: Files)
    requires KnownReadable(origin) && DistinctItems(items) && Underway(origin, items, files, given)
    requires Numbered(held) && Droppable(items, files, held)
    ensures Underway(origin, items, DoneAll(files, DropsOps(files, held)), given)
    ensures NoNewMet(items, files, DoneAll(files, DropsOps(files, held)))
    ensures CrashPoint(files, DropsOps(files, held), after) ==> Underway(origin, items, after, given) && NoNewMet(items, files, after)
    decreases |held|
  {
    hide Underway, DoneAll, DropOps, CrashPoint, MetIs, SamePart, DistinctItems, KnownReadable, KeyListed;
    NoOps(files, files);
    NoOps(files, after);
    if held != [] && held[0].d.met.state != Completed {
      SelfSame(files);
      DroppableRest(items, files, files, held);
      DropsDone(origin, items, files, given, held[1..], after);
    } else if held != [] {
      var n := held[0].n;
      var i :| 0 <= i < |items| && items[i].n == n && MetIs(files, n, CompletedMet(items[i].met));
      var dropped := WithoutMetadata(files, n);
      DropStep(origin, items, files, given, i, after);
      DropOpsDone(files, n);
      DroppableRest(items, files, dropped, held);
      DropsDone(origin, items, dropped, given, held[1..], after);
      DoneAllConcat(files, DropOps(files, n), DropsOps(dropped, held[1..]));
      NoNew(items, files, dropped, n) by { assert Met(n) !in dropped; }
      if CrashPoint(files, DropsOps(files, held), after) {
        CrashPointConcat(files, DropOps(files, n), DropsOps(dropped, held[1..]), after);
        if CrashPoint(files, DropOps(files, n), after) {
          NoNew(items, files, after, n) by { assert MetIs(files, n, CompletedMet(items[i].met)); MetIsThere(files, n, CompletedMet(items[i].met)); }
        }
      }
    }
  }

  lemma MetIsThere(files: Files, n: nat, met: PartMet)
    requires MetIs(files, n, met)
    ensures Met(n) in files
  {
  }

  /** Every download is moved, recorded and forgotten. */
  ghost predicate AllSettled(items: seq<Item>, files: Files, given: map<nat, string>) {
    forall k :: 0 <= k < |items| ==> items[k].n in given && Met(items[k].n) !in files && KeyListed(files, items[k].met)
  }

  lemma AwayIsSettled(origin: Files, items: seq<Item>, files: Files, given: map<nat, string>)
    requires KnownReadable(origin) && Underway(origin, items, files, given)
    requires forall k :: 0 <= k < |items| ==> Met(items[k].n) !in files
    ensures AllSettled(items, files, given)
  {
    hide Underway, KeyListed, ArrivedAt;
    forall k | 0 <= k < |items|
      ensures items[k].n in given && KeyListed(files, items[k].met)
    {
      UnderwayMeans(origin, items, files, given, k);
    }
  }

  lemma VisitedAreDroppable(origin: Files, items: seq<Item>, files: Files, given: map<nat, string>, looped: Files, held: seq<Held>)
    requires KnownReadable(origin) && DistinctItems(items) && Underway(origin, items, files, given)
    requires Looped(looped, held) && forall j :: 0 <= j < |held| ==> LoadedFrom(items, files, held[j])
    ensures Droppable(items, looped, AfterVisits(held))
  {
    hide Underway, AfterVisits, DistinctItems, KnownReadable, LoadedFrom, MetIs;
    var visited := AfterVisits(held);
    forall j | 0 <= j < |visited| && visited[j].d.met.state == Completed
      ensures exists i :: 0 <= i < |items| && items[i].n == visited[j].n && MetIs(looped, visited[j].n, CompletedMet(items[i].met))
    {
      AfterVisitsAt(held, j);
      var i := LoadedItem(origin, items, files, given, held[j]);
      assert CompletedMet(CompletedMet(items[i].met)) == CompletedMet(items[i].met);
      assert Visited(held[j].d.met) == CompletedMet(items[i].met);
    }
  }

  lemma AfterVisitsNumbered(held: seq<Held>)
    requires Numbered(held)
    ensures Numbered(AfterVisits(held))
  {
    hide AfterVisits;
    var visited := AfterVisits(held);
    forall i, j | 0 <= i < j < |visited|
      ensures visited[i].n < visited[j].n
    {
      AfterVisitsAt(held, i);
      AfterVisitsAt(held, j);
    }
  }

  /** The metadata of a download that was loaded goes when the pass gets through. */
  lemma LoadedGoes(origin: Files, items: seq<Item>, files: Files, given: map<nat, string>, held: seq<Held>, looped: Files, k: nat)
    requires KnownReadable(origin) && DistinctItems(items) && Underway(origin, items, files, given)
    requires AllLoaded(items, files, held) && Numbered(held) && k < |items| && Met(items[k].n) in files
    ensures Met(items[k].n) !in DoneAll(looped, DropsOps(looped, AfterVisits(held)))
  {
    hide Underway, AfterVisits, DropsOps, DoneAll, EntriesGrow, KeyListed, ArrivedAt, CompletedIn;
    var j :| 0 <= j < |held| && held[j].n == items[k].n && MetIs(files, held[j].n, held[j].d.met);
    UnderwayMeans(origin, items, files, given, k);
    assert held[j].d.met == items[k].met || held[j].d.met == CompletedMet(items[k].met);
    CompletedAfter(held, j);
    DropsEffect(looped, AfterVisits(held), items[k].n);
  }

  /** A pass that gets through settles every download, and no download stops it. */
  lemma PassDone(origin: Files, items: seq<Item>, files: Files, given: map<nat, string>, held: seq<Held>, keys: set<KnownKey>)
      returns (more: map<nat, string>)
    requires KnownReadable(origin) && DistinctItems(items) && Underway(origin, items, files, given)
    requires AllLoaded(items, files, held) && Numbered(held) && SearchesEnd(files, held, keys)
    ensures Settles(files, held, keys) == |held|
    ensures
        var after := DoneAll(files, PassOps(files, held, keys));
        Underway(origin, items, after, more) && AllSettled(items, after, more)
    ensures Extends(given, more)
  {
    hide Underway, DoneAll, LoopOps, DropsOps, SearchesEnd, Settles, AfterVisits, Looped, LoadedFrom, Droppable, AllSettled,
         DistinctItems, KnownReadable, NoNewMet, Numbered, CrashPoint;
    var loop := LoopOps(files, held, keys);
    var looped := DoneAll(files, loop);
    more := LoopDone(origin, items, files, given, held, keys);
    VisitedAreDroppable(origin, items, files, given, looped, held);
    AfterVisitsNumbered(held);
    var visited := AfterVisits(held);
    DropsDone(origin, items, looped, more, visited, looped);
    DoneAllConcat(files, loop, DropsOps(looped, visited));
    var after := DoneAll(looped, DropsOps(looped, visited));
    forall k | 0 <= k < |items|
      ensures Met(items[k].n) !in after
    {
      if Met(items[k].n) in files {
        LoadedGoes(origin, items, files, given, held, looped, k);
      } else {
        StaysAway(items, files, looped, after, k);
      }
    }
    AwayIsSettled(origin, items, after, more);
  }

  lemma StaysAway(items: seq<Item>, a: Files, b: Files, c: Files, k: nat)
    requires k < |items| && NoNewMet(items, a, b) && NoNewMet(items, b, c) && Met(items[k].n) !in a
    ensures Met(items[k].n) !in c
  {
  }

  /** A crash anywhere inside a pass leaves every download on its way. */
  lemma PassCrash(origin: Files, items: seq<Item>, files: Files, given: map<nat, string>, held: seq<Held>, keys: set<KnownKey>, after: Files)
      returns (more: map<nat, string>)
    requires KnownReadable(origin) && DistinctItems(items) && Underway(origin, items, files, given)
    requires AllLoaded(items, files, held) && Numbered(held) && SearchesEnd(files, held, keys)
    requires CrashPoint(files, PassOps(files, held, keys), after)
    ensures Underway(origin, items, after, more) && NoNewMet(items, files, after) && Extends(given, more)
  {
    hide Underway, DoneAll, LoopOps, DropsOps, SearchesEnd, Settles, AfterVisits, Looped, LoadedFrom, Droppable,
         DistinctItems, KnownReadable, NoNewMet, Numbered, CrashPoint;
    var loop := LoopOps(files, held, keys);
    var looped := DoneAll(files, loop);
    var done := LoopDone(origin, items, files, given, held, keys);
    var visited := AfterVisits(held);
    CrashPointConcat(files, loop, DropsOps(looped, visited), after);
    if CrashPoint(files, loop, after) {
      more := LoopCrash(origin, items, files, given, held, keys, after);
    } else {
      more := done;
      VisitedAreDroppable(origin, items, files, given, looped, held);
      AfterVisitsNumbered(held);
      DropsDone(origin, items, looped, more, visited, after);
      NoNewTwice(items, files, looped, after);
    }
  }

  lemma NoNewTwice(items: seq<Item>, a: Files, b: Files, c: Files)
    requires NoNewMet(items, a, b) && NoNewMet(items, b, c)
    ensures NoNewMet(items, a, c)
  {
  }

  /** A start of the process: what it loaded, and whether its pass ran to the end. */
  datatype Start = Start(held: seq<Held>, keys: set<KnownKey>, completes: bool)

  ghost predicate StartsFrom(items: seq<Item>, files: Files, st: Start, after: Files) {
    && AllLoaded(items, files, st.held) && Numbered(st.held) && SearchesEnd(files, st.held, st.keys)
    && if st.completes then after == DoneAll(files, PassOps(files, st.held, st.keys))
       else CrashPoint(files, PassOps(files, st.held, st.keys), after)
  }

  /** All downloads are complete and unmoved. */
  ghost predicate AtFirst(items: seq<Item>, files: Files) {
    && KnownReadable(files)
    && forall k :: 0 <= k < |items| ==>
         Part(items[k].n) in files && files[Part(items[k].n)] == Data(items[k].data) && MetIs(files, items[k].n, items[k].met)
  }

  lemma UnderwayAtFirst(items: seq<Item>, files: Files)
    requires AtFirst(items, files)
    ensures Underway(files, items, files, map[])
  {
    hide Listed;
    assert Entries(files)[|Entries(files)|..] == [];
  }

  lemma SettledStaysSettled(origin: Files, items: seq<Item>, a: Files, b: Files, given: map<nat, string>, more: map<nat, string>)
    requires KnownReadable(origin) && AllSettled(items, a, given) && NoNewMet(items, a, b) && Underway(origin, items, b, more)
    ensures AllSettled(items, b, more)
  {
    hide Underway, KeyListed;
    AwayIsSettled(origin, items, b, more);
  }

  /**
   * Crash idempotence for any number of downloads: whatever starts of the process come and go,
   * each with its pass over all downloads cut short anywhere or not, every download stays on
   * its way; and from the first pass that runs to its end, every part file stands in the
   * incoming directory under a name of its own that no file had, every entry is listed, and
   * all metadata is gone. No incoming file of the beginning is touched, and no key is added
   * twice.
   */
  lemma {:induction false} FinishesAll(items: seq<Item>, states: seq<Files>, starts: seq<Start>, i: nat)
      returns (given: map<nat, string>)
    requires states != [] && DistinctItems(items) && AtFirst(items, states[0])
    requires |states| == |starts| + 1 && i < |states|
    requires forall k :: 0 <= k < |starts| ==> StartsFrom(items, states[k], starts[k], states[k + 1])
    ensures Underway(states[0], items, states[i], given)
    ensures (exists j :: 0 <= j < i && starts[j].completes) ==> AllSettled(items, states[i], given)
    decreases i
  {
    hide Underway, DistinctItems, AllLoaded, Numbered, SearchesEnd, DoneAll, PassOps, CrashPoint, AllSettled, Settles, NoNewMet;
    if i == 0 {
      UnderwayAtFirst(items, states[0]);
      given := map[];
    } else {
      var before := FinishesAll(items, states, starts, i - 1);
      var st := starts[i - 1];
      assert StartsFrom(items, states[i - 1], st, states[i]);
      if st.completes {
        given := PassDone(states[0], items, states[i - 1], before, st.held, st.keys);
      } else {
        given := PassCrash(states[0], items, states[i - 1], before, st.held, st.keys, states[i]);
        if exists j :: 0 <= j < i - 1 && starts[j].completes {
          SettledStaysSettled(states[0], items, states[i - 1], states[i], before, given);
        }
      }
    }
  }
}
