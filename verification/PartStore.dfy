/** Saving and loading of part metadata and of `known.met`: `src/download/store.rs`. */
module PartStore {
  import opened Wrappers
  import opened Downloads
  import opened Files

  /** What `save_part_met` does: back up the primary file if there is one, write a temporary
      file, and move it over the primary. */
  function SaveOps(files: Files, n: nat, met: PartMet): seq<Op> {
    (if Met(n) in files then [CopyFile(Met(n), MetBackup(n))] else [])
    + [Write(MetTemp(n), MetOf(met)), Rename(MetTemp(n), Met(n))]
  }

  method SavePartMet(fs: FileSystem, n: nat, met: PartMet)
    modifies fs
    ensures fs.journal == old(fs.journal) + SaveOps(old(fs.files), n, met)
    ensures fs.files == Saved(old(fs.files), n, met)
  {
    if fs.Exists(Met(n)) {
      fs.CopyOver(Met(n), MetBackup(n));
    }
    fs.WriteFile(MetTemp(n), MetOf(met));
    fs.RenameTo(MetTemp(n), Met(n));
  }

  /** The new primary, the old primary as backup, no temporary file, nothing else changed. */
  function Saved(files: Files, n: nat, met: PartMet): Files {
    (if Met(n) in files then files[MetBackup(n) := files[Met(n)]] else files)[Met(n) := MetOf(met)] - {MetTemp(n)}
  }

  lemma SaveOpsDone(files: Files, n: nat, met: PartMet)
    ensures DoneAll(files, SaveOps(files, n, met)) == Saved(files, n, met)
  {
    var w, m := Write(MetTemp(n), MetOf(met)), Rename(MetTemp(n), Met(n));
    var files1 := if Met(n) in files then files[MetBackup(n) := files[Met(n)]] else files;
    WriteThenRename(files1, n, met);
    if Met(n) in files {
      var c := CopyFile(Met(n), MetBackup(n));
      assert SaveOps(files, n, met) == [c, w, m];
      assert [c, w, m][1..] == [w, m];
    } else {
      assert SaveOps(files, n, met) == [w, m];
    }
  }

  lemma WriteThenRename(files: Files, n: nat, met: PartMet)
    ensures DoneAll(files, [Write(MetTemp(n), MetOf(met)), Rename(MetTemp(n), Met(n))])
         == files[Met(n) := MetOf(met)] - {MetTemp(n)}
  {
    var w, m := Write(MetTemp(n), MetOf(met)), Rename(MetTemp(n), Met(n));
    assert [w, m][1..] == [m] && [m][1..] == [];
    var files2 := Done(Done(files, w), m);
    assert DoneAll(files, [w, m]) == DoneAll(Done(files, w), [m]) == DoneAll(files2, []) == files2;
    assert files2 == files[Met(n) := MetOf(met)] - {MetTemp(n)};
  }

  ghost predicate MetIs(files: Files, n: nat, met: PartMet) {
    Met(n) in files && files[Met(n)] == MetOf(met)
  }

  /** Nothing but the three metadata files of part n differs. */
  ghost predicate SameElsewhere(a: Files, b: Files, n: nat) {
    forall p :: p !in {Met(n), MetBackup(n), MetTemp(n)} ==> (p in a <==> p in b) && (p in a ==> a[p] == b[p])
  }

  /** Part file and metadata of part m are the same. */
  ghost predicate SamePart(a: Files, b: Files, m: nat) {
    forall p :: p in {Part(m), Met(m), MetBackup(m)} ==> (p in a <==> p in b) && (p in a ==> a[p] == b[p])
  }

  ghost predicate SamePrimary(a: Files, b: Files, n: nat) {
    (Met(n) in a <==> Met(n) in b) && (Met(n) in a ==> a[Met(n)] == b[Met(n)])
  }

  /** A crash anywhere in a save leaves the primary as it was or whole with the new content. */
  lemma SaveCrash(files: Files, n: nat, met: PartMet, after: Files)
    requires CrashPoint(files, SaveOps(files, n, met), after)
    ensures SamePrimary(after, files, n) || (Met(n) in after && after[Met(n)] == MetOf(met))
    ensures SameElsewhere(after, files, n)
  {
    hide DoneAll;
    var w, m := Write(MetTemp(n), MetOf(met)), Rename(MetTemp(n), Met(n));
    assert [w, m][1..] == [m] && [m][1..] == [];
    if Met(n) in files {
      var c := CopyFile(Met(n), MetBackup(n));
      assert SaveOps(files, n, met) == [c, w, m];
      assert [c, w, m][1..] == [w, m];
      assert CrashPoint(files, [c, w, m], after);
      assert after == files || CutShort(files, c, after) || CrashPoint(Done(files, c), [w, m], after);
      if CrashPoint(Done(files, c), [w, m], after) {
        WriteRenameCrash(Done(files, c), n, met, after);
      }
    } else {
      assert SaveOps(files, n, met) == [w, m];
      WriteRenameCrash(files, n, met, after);
    }
  }

  lemma WriteRenameCrash(files: Files, n: nat, met: PartMet, after: Files)
    requires CrashPoint(files, [Write(MetTemp(n), MetOf(met)), Rename(MetTemp(n), Met(n))], after)
    ensures SamePrimary(after, files, n) || (Met(n) in after && after[Met(n)] == MetOf(met))
    ensures SameElsewhere(after, files, n)
  {
    hide DoneAll;
    var w, m := Write(MetTemp(n), MetOf(met)), Rename(MetTemp(n), Met(n));
    assert [w, m][1..] == [m] && [m][1..] == [];
    var written := Done(files, w);
    assert after == files || CutShort(files, w, after) || CrashPoint(written, [m], after);
    assert CrashPoint(written, [m], after) ==> after == written || CrashPoint(Done(written, m), [], after);
  }

  datatype Source = Primary | Backup

  function ReadMet(files: Files, path: Path): Option<PartMet> {
    if path in files && files[path].MetOf? then Some(files[path].met) else None
  }

  /** `load_part_met_with_fallback`. */
  function LoadPartMet(files: Files, n: nat): Option<(PartMet, Source)> {
    match ReadMet(files, Met(n))
    case Some(met) => Some((met, Primary))
    case None =>
      match ReadMet(files, MetBackup(n))
      case Some(met) => Some((met, Backup))
      case None => None
  }

  /** Interrupting a save never costs the metadata: the primary loads, as the old or the new
      value; and if a later fault ruins the primary, a completed save still loads the value
      before it. */
  lemma SaveIsRecoverable(files: Files, n: nat, prev: PartMet, met: PartMet, after: Files)
    requires Met(n) in files && files[Met(n)] == MetOf(prev)
    requires CrashPoint(files, SaveOps(files, n, met), after)
    ensures LoadPartMet(after, n) == Some((prev, Primary)) || LoadPartMet(after, n) == Some((met, Primary))
    ensures LoadPartMet(Saved(files, n, met), n) == Some((met, Primary))
    ensures LoadPartMet(Saved(files, n, met)[Met(n) := Partial], n) == Some((prev, Backup))
  {
    hide CrashPoint;
    SaveCrash(files, n, met, after);
  }
}
