/** Finishing a download is crash-idempotent: however often the process dies on the way and
    starts again, the file arrives once, the entry is recorded once, nothing is overwritten. */
module FinalizationRuns {
  import opened Wrappers
  import opened Integers
  import opened Bits
  import opened Downloads
  import opened Files
  import opened PartStore
  import opened IncomingNames
  import opened Finalization

  /** Part n is complete, with this metadata and content, among these files. */
  datatype Goal = Goal(n: nat, met: PartMet, data: seq<Byte>, before: Files)

  ghost predicate Startable(g: Goal) {
    && ReadyToFinish(g.met) && KnownReadable(g.before)
    && Part(g.n) in g.before && g.before[Part(g.n)] == Data(g.data)
    && SomeFree(g.before, g.met.fileName, g.n)
  }

  ghost predicate SameIncoming(a: Files, b: Files, name: string) {
    (Incoming(name) in a <==> Incoming(name) in b) && (Incoming(name) in a ==> a[Incoming(name)] == b[Incoming(name)])
  }

  ghost predicate Unmoved(g: Goal, files: Files) {
    && Part(g.n) in files && files[Part(g.n)] == Data(g.data)
    && forall name :: SameIncoming(g.before, files, name)
  }

  /** The part file stands under the first of its names that was free, and no other incoming
      file changed. */
  ghost predicate MovedAs(g: Goal, files: Files, k: nat) {
    var target := Candidate(g.met.fileName, g.n, k);
    && Part(g.n) !in files
    && Incoming(target) !in g.before && (forall j :: 0 <= j < k ==> Taken(g.before, g.met.fileName, g.n, j))
    && Incoming(target) in files && files[Incoming(target)] == Data(g.data)
    && forall name :: name != target ==> SameIncoming(g.before, files, name)
  }

  ghost predicate Moved(g: Goal, files: Files) {
    exists k: nat :: MovedAs(g, files, k)
  }

  /** At most one entry was added, and only where no entry with the key was. */
  ghost predicate KnownKept(g: Goal, files: Files)
    requires KnownReadable(g.before)
  {
    && KnownReadable(files)
    && (|| Entries(files) == Entries(g.before)
        || (!Listed(Entries(g.before), MetKey(g.met)) && Entries(files) == Entries(g.before) + [EntryFor(g.met)]))
  }

  ghost predicate Recorded(g: Goal, files: Files) {
    KnownReadable(files) && Listed(Entries(files), MetKey(g.met))
  }

  ghost predicate HasMet(g: Goal, files: Files, met: PartMet) {
    MetIs(files, g.n, met)
  }

  /** What holds of the files at every moment. In particular persisted Completed means that
      the file is moved and the entry recorded. */
  ghost predicate Resumable(g: Goal, files: Files)
    requires KnownReadable(g.before)
  {
    && KnownKept(g, files)
    && (|| (HasMet(g, files, g.met) && (Unmoved(g, files) || Moved(g, files)))
        || (Moved(g, files) && Recorded(g, files) && (HasMet(g, files, CompletedMet(g.met)) || Met(g.n) !in files)))
  }

  ghost predicate Finished(g: Goal, files: Files)
    requires KnownReadable(g.before)
  {
    && Moved(g, files) && Recorded(g, files) && KnownKept(g, files)
    && Met(g.n) !in files && MetBackup(g.n) !in files
  }

  ghost predicate CanAttempt(g: Goal, files: Files) {
    KnownReadable(files) && (Part(g.n) in files ==> SomeFree(files, g.met.fileName, g.n))
  }

  /** The file operations of a start followed by one finalization pass over part n: what is
      loaded from the primary metadata decides. */
  ghost function AttemptOps(g: Goal, files: Files): seq<Op>
    requires CanAttempt(g, files)
  {
    if Met(g.n) !in files then []
    else
      match LoadPartMet(files, g.n)
      case None => []
      case Some((met, _)) =>
        if met.state == Completed then DropOps(files, g.n)
        else if met == g.met && (Part(g.n) in files || IncomingExists(files, met.fileName, g.n)) then FinishOps(files, g.n, met)
        else []
  }

  lemma MoveStage(g: Goal, files: Files, after: Files)
    requires Startable(g) && KnownKept(g, files) && HasMet(g, files, g.met) && (Unmoved(g, files) || Moved(g, files))
    ensures CanAttempt(g, files)
    ensures
        var moved := DoneAll(files, MoveOps(files, g.n, g.met.fileName));
        Moved(g, moved) && KnownKept(g, moved) && HasMet(g, moved, g.met) && Entries(moved) == Entries(files)
    ensures CrashPoint(files, MoveOps(files, g.n, g.met.fileName), after) ==> Resumable(g, after)
  {
    hide Candidate, Listed, Lower;
    if Part(g.n) in files {
      assert Unmoved(g, files);
      SameNamesFree(g, files);
      var k := LowestFree(files, g.met.fileName, g.n, 0);
      var target := Candidate(g.met.fileName, g.n, k);
      var op := Rename(Part(g.n), Incoming(target));
      OneOp(files, op);
      var moved := Done(files, op);
      assert SameIncoming(g.before, files, target);
      forall name | name != target
        ensures SameIncoming(g.before, moved, name)
      {
        assert SameIncoming(g.before, files, name);
      }
      forall j | 0 <= j < k
        ensures Taken(g.before, g.met.fileName, g.n, j)
      {
        assert Taken(files, g.met.fileName, g.n, j) && SameIncoming(g.before, files, Candidate(g.met.fileName, g.n, j));
      }
      assert MovedAs(g, moved, k);
      assert [op][1..] == [];
      assert CrashPoint(files, [op], after) ==> after == files || CrashPoint(moved, [], after);
    }
  }

  lemma SameNamesFree(g: Goal, files: Files)
    requires Startable(g) && Unmoved(g, files)
    ensures SomeFree(files, g.met.fileName, g.n)
  {
    hide Candidate;
    var k :| 0 <= k <= U32_MAX + 1 && !Taken(g.before, g.met.fileName, g.n, k);
    assert SameIncoming(g.before, files, Candidate(g.met.fileName, g.n, k));
    assert !Taken(files, g.met.fileName, g.n, k);
  }

  /** Operations on other paths do not touch the incoming directory or the part file. */
  ghost predicate SameDelivery(a: Files, b: Files, n: nat) {
    && (Part(n) in a <==> Part(n) in b) && (Part(n) in a ==> a[Part(n)] == b[Part(n)])
    && forall name :: SameIncoming(a, b, name)
  }

  lemma MovedStays(g: Goal, files: Files, after: Files)
    requires Moved(g, files) && SameDelivery(files, after, g.n)
    ensures Moved(g, after)
  {
    hide Candidate;
    var k: nat :| MovedAs(g, files, k);
    var target := Candidate(g.met.fileName, g.n, k);
    assert SameIncoming(files, after, target);
    forall name | name != target
      ensures SameIncoming(g.before, after, name)
    {
      assert SameIncoming(g.before, files, name) && SameIncoming(files, after, name);
    }
    assert MovedAs(g, after, k);
  }

  lemma KnownStage(g: Goal, files: Files, after: Files)
    requires Startable(g) && KnownKept(g, files) && HasMet(g, files, g.met) && Moved(g, files)
    ensures
        var known := DoneAll(files, KnownOps(files, g.met));
        Moved(g, known) && KnownKept(g, known) && Recorded(g, known) && HasMet(g, known, g.met)
    ensures CrashPoint(files, KnownOps(files, g.met), after) ==> Resumable(g, after)
  {
    hide Moved, Candidate, Listed, Lower;
    KnownOpsDone(files, g.met);
    var known := DoneAll(files, KnownOps(files, g.met));
    MovedStays(g, files, known);
    ListedAfterAppend(Entries(g.before), EntryFor(g.met));
    LowerTwice(g.met.fileHash);
    if CrashPoint(files, KnownOps(files, g.met), after) && !Listed(Entries(files), MetKey(g.met)) {
      var w, m := Write(KnownTemp, KnownOf(Entries(files) + [EntryFor(g.met)])), Rename(KnownTemp, Known);
      assert [w, m][1..] == [m] && [m][1..] == [];
      var written := Done(files, w);
      assert after == files || CutShort(files, w, after) || CrashPoint(written, [m], after);
      assert CrashPoint(written, [m], after) ==> after == written || CrashPoint(Done(written, m), [], after);
      MovedStays(g, files, after);
    }
  }

  lemma SaveStage(g: Goal, files: Files, after: Files)
    requires Startable(g) && KnownKept(g, files) && Recorded(g, files) && HasMet(g, files, g.met) && Moved(g, files)
    ensures
        var saved := Saved(files, g.n, CompletedMet(g.met));
        Moved(g, saved) && KnownKept(g, saved) && Recorded(g, saved) && HasMet(g, saved, CompletedMet(g.met))
    ensures CrashPoint(files, SaveOps(files, g.n, CompletedMet(g.met)), after) ==> Resumable(g, after)
  {
    hide Moved, Listed, CrashPoint, SaveOps, Lower;
    MovedStays(g, files, Saved(files, g.n, CompletedMet(g.met)));
    if CrashPoint(files, SaveOps(files, g.n, CompletedMet(g.met)), after) {
      SaveCrash(files, g.n, CompletedMet(g.met), after);
      MovedStays(g, files, after);
      assert Known in after <==> Known in files;
    }
  }

  lemma DropStage(g: Goal, files: Files, after: Files)
    requires Startable(g) && KnownKept(g, files) && Recorded(g, files) && HasMet(g, files, CompletedMet(g.met)) && Moved(g, files)
    ensures Finished(g, DoneAll(files, DropOps(files, g.n)))
    ensures CrashPoint(files, DropOps(files, g.n), after) ==> Resumable(g, after)
  {
    hide Moved, Listed, Lower;
    DropOpsDone(files, g.n);
    MovedStays(g, files, files - {Met(g.n), MetBackup(g.n)});
    if CrashPoint(files, DropOps(files, g.n), after) {
      DropCrash(files, g.n, after);
      MovedStays(g, files, after);
    }
  }

  lemma DropCrash(files: Files, n: nat, after: Files)
    requires Met(n) in files && CrashPoint(files, DropOps(files, n), after)
    ensures after == files || after == files - {Met(n)} || after == files - {Met(n)} - {MetBackup(n)}
  {
    var a, b := Remove(Met(n)), Remove(MetBackup(n));
    assert [a, b][1..] == [b] && [b][1..] == [] && [a][1..] == [];
    assert CrashPoint(Done(files, a), [b], after) ==>
      after == Done(files, a) || CrashPoint(Done(Done(files, a), b), [], after);
    assert CrashPoint(files, [a], after) ==> after == files || CrashPoint(Done(files, a), [], after);
  }

  lemma FinishStage(g: Goal, files: Files, after: Files)
    requires Startable(g) && KnownKept(g, files) && HasMet(g, files, g.met) && (Unmoved(g, files) || Moved(g, files))
    requires CanAttempt(g, files)
    ensures Finished(g, DoneAll(files, FinishOps(files, g.n, g.met)))
    ensures CrashPoint(files, FinishOps(files, g.n, g.met), after) ==> Resumable(g, after)
  {
    hide Resumable, Moved, Unmoved, Recorded, HasMet, Finished, KnownOps, MoveOps, SaveOps, DropOps, Saved, CrashPoint, DoneAll, Listed, SomeFree;
    hide Entries, EntryFor, MetKey, Lower;
    var name := g.met.fileName;
    MoveStage(g, files, after);
    var move := MoveOps(files, g.n, name);
    var moved := DoneAll(files, move);
    KnownOpsFromEntries(files, moved, g.met);
    KnownStage(g, moved, after);
    var note := KnownOps(files, g.met);
    var known := DoneAll(moved, note);
    SaveStage(g, known, after);
    var save := SaveOps(known, g.n, CompletedMet(g.met));
    var saved := Saved(known, g.n, CompletedMet(g.met));
    DropStage(g, saved, after);
    var drop := DropOps(saved, g.n);
    DoneAllConcat(files, move, note);
    DoneAllConcat(files, move + note, save);
    SaveOpsDone(known, g.n, CompletedMet(g.met));
    DoneAllConcat(files, move + note + save, drop);
    if CrashPoint(files, FinishOps(files, g.n, g.met), after) {
      CrashPointConcat(files, move + note + save, drop, after);
      if CrashPoint(files, move + note + save, after) {
        CrashPointConcat(files, move + note, save, after);
        if CrashPoint(files, move + note, after) {
          CrashPointConcat(files, move, note, after);
        }
      }
    }
  }

  lemma MovedIsRecognised(g: Goal, files: Files)
    requires Moved(g, files)
    ensures IncomingExists(files, g.met.fileName, g.n)
  {
    hide IncomingExists, Candidate;
    var k: nat :| MovedAs(g, files, k);
    CandidateIsRecognised(files, g.met.fileName, g.n, k);
  }

  /** Everything is done and the part will not be looked at again; after a crash between the
      last two removals a backup of the metadata may be left over. */
  ghost predicate Settled(g: Goal, files: Files)
    requires KnownReadable(g.before)
  {
    Moved(g, files) && Recorded(g, files) && KnownKept(g, files) && Met(g.n) !in files
  }

  lemma Attempt(g: Goal, files: Files, after: Files)
    requires Startable(g) && Resumable(g, files)
    ensures CanAttempt(g, files)
    ensures Settled(g, DoneAll(files, AttemptOps(g, files)))
    ensures CrashPoint(files, AttemptOps(g, files), after) ==> Resumable(g, after)
  {
    hide Candidate, Listed, Lower, IncomingExists, FinishOps, DropOps, CrashPoint, DoneAll, SomeFree, KnownKept;
    if Moved(g, files) {
      MovedIsRecognised(g, files);
      assert Part(g.n) !in files;
    } else {
      SameNamesFree(g, files);
    }
    assert CanAttempt(g, files) by { KeptIsReadable(g, files); }
    NoOps(files, after);
    if HasMet(g, files, g.met) {
      FinishStage(g, files, after);
    } else if Met(g.n) in files {
      DropStage(g, files, after);
    }
  }

  lemma KeptIsReadable(g: Goal, files: Files)
    requires KnownReadable(g.before) && KnownKept(g, files)
    ensures KnownReadable(files)
  {
  }

  /** A start of the process: its pass over the part runs to the end, or is cut short. */
  ghost predicate Starts(g: Goal, files: Files, completes: bool, after: Files) {
    && CanAttempt(g, files)
    && if completes then after == DoneAll(files, AttemptOps(g, files)) else CrashPoint(files, AttemptOps(g, files), after)
  }

  ghost predicate Restarted(g: Goal, states: seq<Files>, completes: seq<bool>) {
    && |states| == |completes| + 1
    && forall i :: 0 <= i < |completes| ==> Starts(g, states[i], completes[i], states[i + 1])
  }

  /**
   * Crash idempotence: whatever starts of the process come and go, each interrupted anywhere
   * or not, the files stay resumable, and from the first pass that runs to its end everything
   * is settled: the file is in the incoming directory once, under a name no file had, no
   * other incoming file is touched, one entry at most was added and the key is listed, and
   * the metadata is gone.
   */
  lemma {:induction false} FinishesOnce(g: Goal, states: seq<Files>, completes: seq<bool>, i: nat)
    requires Startable(g) && HasMet(g, g.before, g.met)
    requires Restarted(g, states, completes) && states[0] == g.before && i < |states|
    ensures Resumable(g, states[i])
    ensures (exists j :: 0 <= j < i && completes[j]) ==> Settled(g, states[i])
    decreases i
  {
    hide Listed, Candidate, Lower, AttemptOps, CrashPoint, DoneAll, SomeFree;
    if i == 0 {
      assert KnownKept(g, g.before) && Unmoved(g, g.before);
    } else {
      FinishesOnce(g, states, completes, i - 1);
      hide Moved, Unmoved, KnownKept, Recorded, HasMet;
      assert Starts(g, states[i - 1], completes[i - 1], states[i]);
      Attempt(g, states[i - 1], states[i]);
      if Met(g.n) !in states[i - 1] {
        NothingToDo(g, states[i - 1], states[i]);
      }
      SettledHasNoMet(g, states[i - 1]);
    }
  }

  lemma NothingToDo(g: Goal, files: Files, after: Files)
    requires CanAttempt(g, files) && Met(g.n) !in files
    ensures DoneAll(files, AttemptOps(g, files)) == files
    ensures CrashPoint(files, AttemptOps(g, files), after) ==> after == files
  {
  }

  lemma SettledHasNoMet(g: Goal, files: Files)
    requires KnownReadable(g.before)
    ensures Settled(g, files) ==> Met(g.n) !in files && Resumable(g, files)
  {
  }

  /** Metadata that says Completed is only ever on disk when the work behind it is done. */
  lemma PersistedCompletedMeansDone(g: Goal, states: seq<Files>, completes: seq<bool>, i: nat)
    requires Startable(g) && HasMet(g, g.before, g.met)
    requires Restarted(g, states, completes) && states[0] == g.before && i < |states|
    requires Met(g.n) in states[i] && states[i][Met(g.n)].MetOf? && states[i][Met(g.n)].met.state == Completed
    ensures Moved(g, states[i]) && Recorded(g, states[i])
  {
    hide Moved, Recorded, KnownKept, Unmoved, Restarted;
    FinishesOnce(g, states, completes, i);
  }

  /** Without its part file a complete download is still declared finished exactly when some
      incoming file has one of its names, whatever that file holds. */
  lemma MissingPartFinishesExactlyWhen(g: Goal, files: Files)
    requires ReadyToFinish(g.met) && KnownReadable(files) && HasMet(g, files, g.met) && Part(g.n) !in files
    ensures AttemptOps(g, files) != [] <==> IncomingExists(files, g.met.fileName, g.n)
    ensures AttemptOps(g, files) != [] ==>
        Met(g.n) !in DoneAll(files, AttemptOps(g, files))
  {
    hide IncomingExists, KnownOps, DoneAll, Saved;
    FinishOpsDone(files, g.n, g.met);
  }

  /** A complete download whose part file is gone is declared finished because of another file
      that has its name. */
  lemma AnotherFileFinishes()
    ensures
        var met := PartMet("a", "h", 1, Completing, 1, [], [], 0, None);
        var g := Goal(1, met, [7], map[]);
        var files := map[Met(1) := MetOf(met), Incoming("a") := Data([8])];
        && CanAttempt(g, files)
        && Met(1) !in DoneAll(files, AttemptOps(g, files))
        && files[Incoming("a")] != Data(g.data)
  {
    hide DoneAll, FinishOps, Listed;
    var met := PartMet("a", "h", 1, Completing, 1, [], [], 0, None);
    var g := Goal(1, met, [7], map[]);
    var files := map[Met(1) := MetOf(met), Incoming("a") := Data([8])];
    MissingPartFinishesExactlyWhen(g, files);
    assert IncomingExists(files, "a", 1);
  }
}
