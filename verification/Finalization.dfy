/** Finishing a download: moving the part file, recording it in `known.met`, dropping the
    metadata; and what any number of crashes on the way can do. */
module Finalization {
  import opened Wrappers
  import opened Downloads
  import opened Files
  import opened PartStore
  import opened IncomingNames

  type KnownKey = (string, nat)

  function LowerChar(c: char): char {
    if 'A' <= c <= 'Z' then c - 'A' + 'a' else c
  }

  function Lower(s: string): (r: string)
    ensures |r| == |s| && forall i :: 0 <= i < |s| ==> r[i] == LowerChar(s[i])
  {
    seq(|s|, i requires 0 <= i < |s| => LowerChar(s[i]))
  }

  lemma LowerTwice(s: string)
    ensures Lower(Lower(s)) == Lower(s)
  {
  }

  /** The same hash, but for the case of its letters. */
  predicate SameButCase(s: string, t: string) {
    && |s| == |t|
    && forall i :: 0 <= i < |s| ==>
         || s[i] == t[i]
         || ('A' <= s[i] <= 'Z' && 'a' <= t[i] <= 'z' && t[i] as int == s[i] as int + 32)
         || ('a' <= s[i] <= 'z' && 'A' <= t[i] <= 'Z' && s[i] as int == t[i] as int + 32)
  }

  /** Entries share a key exactly when their sizes are equal and their hashes differ at most in
      the case of letters. */
  lemma SameKeyExactlyWhen(a: KnownEntry, b: KnownEntry)
    ensures KeyOf(a) == KeyOf(b) <==> a.fileSize == b.fileSize && SameButCase(a.fileHash, b.fileHash)
  {
    var s, t := a.fileHash, b.fileHash;
    if Lower(s) == Lower(t) {
      forall i | 0 <= i < |s|
        ensures LowerChar(s[i]) == LowerChar(t[i])
      {
        assert Lower(s)[i] == Lower(t)[i];
      }
    }
    if SameButCase(s, t) {
      assert Lower(s) == Lower(t);
    }
  }

  function KeyOf(e: KnownEntry): KnownKey {
    (Lower(e.fileHash), e.fileSize)
  }

  predicate Listed(entries: seq<KnownEntry>, key: KnownKey) {
    exists i :: 0 <= i < |entries| && KeyOf(entries[i]) == key
  }

  /** `known.met` is missing or parses; a corrupt one is moved away at start-up. */
  predicate KnownReadable(files: Files) {
    Known in files ==> files[Known].KnownOf?
  }

  function Entries(files: Files): seq<KnownEntry>
    requires KnownReadable(files)
  {
    if Known in files then files[Known].entries else []
  }

  function EntryFor(met: PartMet): KnownEntry {
    KnownEntry(met.fileName, met.fileSize, Lower(met.fileHash))
  }

  function MetKey(met: PartMet): KnownKey {
    (Lower(met.fileHash), met.fileSize)
  }

  /** Nothing is written over a file that does not parse. */
  function KnownOps(files: Files, met: PartMet): seq<Op> {
    if !KnownReadable(files) || Listed(Entries(files), MetKey(met)) then []
    else [Write(KnownTemp, KnownOf(Entries(files) + [EntryFor(met)])), Rename(KnownTemp, Known)]
  }

  /** `append_known_met_entry`: adds the entry unless one with its hash and size is there;
      fails when the file does not parse. */
  method AppendKnownEntry(fs: FileSystem, entry: KnownEntry) returns (r: Result<bool, DownloadError>)
    modifies fs
    ensures !KnownReadable(old(fs.files)) ==>
      r == Failure(StoreFailed) && fs.files == old(fs.files) && fs.journal == old(fs.journal)
    ensures KnownReadable(old(fs.files)) ==>
      var inserted := !Listed(old(Entries(fs.files)), KeyOf(entry));
      var more := KnownOf(old(Entries(fs.files)) + [entry.(fileHash := Lower(entry.fileHash))]);
      && r == Success(inserted)
      && fs.journal == old(fs.journal) + (if inserted then [Write(KnownTemp, more), Rename(KnownTemp, Known)] else [])
      && fs.files == if inserted then (old(fs.files) - {KnownTemp})[Known := more] else old(fs.files)
  {
    hide Lower;
    if fs.Exists(Known) && !fs.files[Known].KnownOf? {
      return Failure(StoreFailed);
    }
    var normalized := entry.(fileHash := Lower(entry.fileHash));
    LowerTwice(entry.fileHash);
    var entries := Entries(fs.files);
    for i := 0 to |entries|
      invariant forall j :: 0 <= j < i ==> KeyOf(entries[j]) != KeyOf(entry)
    {
      if entries[i].fileSize == normalized.fileSize && Lower(entries[i].fileHash) == Lower(normalized.fileHash) {
        return Success(false);
      }
    }
    fs.WriteFile(KnownTemp, KnownOf(entries + [normalized]));
    fs.RenameTo(KnownTemp, Known);
    return Success(true);
  }

  /** The keys remembered are in the file, as long as it can be read. */
  ghost predicate KeysListed(keys: set<KnownKey>, files: Files) {
    KnownReadable(files) ==> forall key :: key in keys ==> Listed(Entries(files), key)
  }

  /** `persist_known_entry`: the keys already seen are remembered to save reading the file. */
  method PersistKnownEntry(fs: FileSystem, met: PartMet, keys: set<KnownKey>)
    returns (r: Result<(), DownloadError>, seen: set<KnownKey>)
    requires KeysListed(keys, fs.files)
    modifies fs
    ensures r.Success? <==> MetKey(met) in keys || KnownReadable(old(fs.files))
    ensures r.Failure? ==> r.error == StoreFailed && seen == keys
    ensures fs.journal == old(fs.journal) + KnownOps(old(fs.files), met)
    ensures fs.files == DoneAll(old(fs.files), KnownOps(old(fs.files), met))
    ensures KeysListed(seen, fs.files) && keys <= seen <= keys + {MetKey(met)}
    ensures KnownReadable(fs.files) ==> Listed(Entries(fs.files), MetKey(met))
    ensures !KnownReadable(fs.files) ==> seen == keys
  {
    hide Lower;
    LowerTwice(met.fileHash);
    KnownOpsDone(fs.files, met);
    if MetKey(met) in keys {
      return Success(()), keys;
    }
    ghost var files := fs.files;
    var inserted := AppendKnownEntry(fs, EntryFor(met));
    if inserted.Failure? {
      return Failure(inserted.error), keys;
    }
    ListedAfterAppend(Entries(files), EntryFor(met));
    return Success(()), if inserted.value then keys + {MetKey(met)} else keys;
  }

  lemma ListedAfterAppend(entries: seq<KnownEntry>, entry: KnownEntry)
    ensures Listed(entries + [entry], KeyOf(entry))
    ensures forall key :: Listed(entries, key) ==> Listed(entries + [entry], key)
  {
    assert (entries + [entry])[|entries|] == entry;
    forall key | Listed(entries, key)
      ensures Listed(entries + [entry], key)
    {
      var i :| 0 <= i < |entries| && KeyOf(entries[i]) == key;
      assert (entries + [entry])[i] == entries[i];
    }
  }

  lemma KnownOpsDone(files: Files, met: PartMet)
    ensures DoneAll(files, KnownOps(files, met)) ==
      if !KnownReadable(files) || Listed(Entries(files), MetKey(met)) then files
      else (files - {KnownTemp})[Known := KnownOf(Entries(files) + [EntryFor(met)])]
  {
    hide Listed, Lower;
    if KnownReadable(files) && !Listed(Entries(files), MetKey(met)) {
      var content := KnownOf(Entries(files) + [EntryFor(met)]);
      var w, m := Write(KnownTemp, content), Rename(KnownTemp, Known);
      assert [w, m][1..] == [m] && [m][1..] == [];
      var files2 := Done(Done(files, w), m);
      assert DoneAll(files, [w, m]) == DoneAll(Done(files, w), [m]) == DoneAll(files2, []) == files2;
      assert files2 == (files - {KnownTemp})[Known := content];
    }
  }

  /** Moving the part file to the first free incoming name, or nothing when it is gone. */
  ghost function MoveOps(files: Files, n: nat, name: string): seq<Op>
    requires Part(n) in files ==> SomeFree(files, name, n)
  {
    if Part(n) !in files then [] else [Rename(Part(n), Incoming(FreeName(files, name, n)))]
  }

  /** `finalize_single_download`. A missing part file counts as moved when a file with one of
      the tried names is in the incoming directory. */
  method MovePartFile(fs: FileSystem, n: nat, name: string) returns (r: Result<(), DownloadError>)
    requires Part(n) in fs.files ==> SomeFree(fs.files, name, n)
    modifies fs
    ensures r.Success? <==> Part(n) in old(fs.files) || IncomingExists(old(fs.files), name, n)
    ensures r.Failure? ==> r.error == InvalidInput && fs.files == old(fs.files)
    ensures fs.journal == old(fs.journal) + MoveOps(old(fs.files), n, name)
    ensures fs.files == DoneAll(old(fs.files), MoveOps(old(fs.files), n, name))
  {
    hide FreeName, IncomingExists;
    if !fs.Exists(Part(n)) {
      if IncomingExists(fs.files, name, n) {
        return Success(());
      }
      return Failure(InvalidInput);
    }
    var target, _ := UniqueIncomingName(fs.files, name, n);
    OneOp(fs.files, Rename(Part(n), Incoming(target)));
    fs.RenameTo(Part(n), Incoming(target));
    return Success(());
  }

  function DropOps(files: Files, n: nat): seq<Op> {
    (if Met(n) in files then [Remove(Met(n))] else []) + (if MetBackup(n) in files then [Remove(MetBackup(n))] else [])
  }

  /** `delete_download_metadata_only`. */
  method DropMetadata(fs: FileSystem, n: nat)
    modifies fs
    ensures fs.journal == old(fs.journal) + DropOps(old(fs.files), n)
    ensures fs.files == old(fs.files) - {Met(n), MetBackup(n)}
  {
    if fs.Exists(Met(n)) {
      fs.RemoveFile(Met(n));
    }
    if fs.Exists(MetBackup(n)) {
      fs.RemoveFile(MetBackup(n));
    }
  }

  lemma DropOpsDone(files: Files, n: nat)
    ensures DoneAll(files, DropOps(files, n)) == files - {Met(n), MetBackup(n)}
  {
    var a, b := Remove(Met(n)), Remove(MetBackup(n));
    OneOp(files, a);
    OneOp(files, b);
    OneOp(Done(files, a), b);
    assert [a, b][1..] == [b];
    assert files - {Met(n)} - {MetBackup(n)} == files - {Met(n), MetBackup(n)};
    assert Met(n) !in files ==> files - {MetBackup(n)} == files - {Met(n), MetBackup(n)};
    assert MetBackup(n) !in files ==> files - {Met(n)} == files - {Met(n), MetBackup(n)};
  }

  /** Complete: nothing missing, nothing in flight. */
  predicate ReadyToFinish(met: PartMet) {
    met.state == Completing && met.missing == [] && met.inflight == [] && met.downloadedBytes == met.fileSize
  }

  function CompletedMet(met: PartMet): PartMet {
    met.(state := Completed)
  }

  /** Every file operation of finishing a single download that is ready, in order. */
  ghost function FinishOps(files: Files, n: nat, met: PartMet): seq<Op>
    requires Part(n) in files ==> SomeFree(files, met.fileName, n)
  {
    var known := DoneAll(DoneAll(files, MoveOps(files, n, met.fileName)), KnownOps(files, met));
    RecordedOps(files, n, met) + DropOps(Saved(known, n, CompletedMet(met)), n)
  }

  /** Completing, with every byte, but another byte count than the file size. */
  predicate WrongSize(met: PartMet) {
    met.state == Completing && met.missing == [] && met.inflight == [] && met.downloadedBytes != met.fileSize
  }

  /** What one visit of the pass leaves in memory, when it succeeds. */
  function Visited(met: PartMet): PartMet {
    if ReadyToFinish(met) then CompletedMet(met)
    else if WrongSize(met) then met.(lastError := Some("completion size mismatch"), state := Error)
    else met
  }

  /** The part file is gone and so is the file it became. */
  predicate PartLost(files: Files, n: nat, name: string) {
    Part(n) !in files && !IncomingExists(files, name, n)
  }

  /** The visit fails: the part file is lost, or its entry cannot be recorded. */
  predicate Stuck(files: Files, n: nat, met: PartMet, keys: set<KnownKey>) {
    ReadyToFinish(met) && (PartLost(files, n, met.fileName) || (MetKey(met) !in keys && !KnownReadable(files)))
  }

  /** A complete download whose part file is there finds a name for it. */
  ghost predicate FindsName(files: Files, n: nat, met: PartMet) {
    ReadyToFinish(met) && Part(n) in files ==> SomeFree(files, met.fileName, n)
  }

  ghost function VisitOps(files: Files, n: nat, met: PartMet, keys: set<KnownKey>): seq<Op>
    requires FindsName(files, n, met)
  {
    if WrongSize(met) then SaveOps(files, n, Visited(met))
    else if !ReadyToFinish(met) || PartLost(files, n, met.fileName) then []
    else if Stuck(files, n, met, keys) then MoveOps(files, n, met.fileName)
    else RecordedOps(files, n, met)
  }

  /** Moved, recorded, and saved as completed. */
  ghost function RecordedOps(files: Files, n: nat, met: PartMet): seq<Op>
    requires Part(n) in files ==> SomeFree(files, met.fileName, n)
  {
    var known := DoneAll(DoneAll(files, MoveOps(files, n, met.fileName)), KnownOps(files, met));
    MoveOps(files, n, met.fileName) + KnownOps(files, met) + SaveOps(known, n, CompletedMet(met))
  }

  /** The body of the loop of `finalize_completed_downloads` for one download: only a complete
      one is moved, recorded and marked completed, any other is left alone, and a wrong byte
      count would turn the download into an error. */
  method Visit(fs: FileSystem, n: nat, d: Download, keys: set<KnownKey>)
    returns (r: Result<Download, DownloadError>, seen: set<KnownKey>)
    requires KeysListed(keys, fs.files) && FindsName(fs.files, n, d.met)
    modifies fs
    ensures KeysListed(seen, fs.files) && keys <= seen
    ensures KnownReadable(fs.files) <==> KnownReadable(old(fs.files))
    ensures !KnownReadable(fs.files) ==> seen == keys
    ensures r ==
      if !Stuck(old(fs.files), n, d.met, keys) then Success(d.(met := Visited(d.met)))
      else Failure(if PartLost(old(fs.files), n, d.met.fileName) then InvalidInput else StoreFailed)
    ensures fs.journal == old(fs.journal) + VisitOps(old(fs.files), n, d.met, keys)
    ensures fs.files == DoneAll(old(fs.files), VisitOps(old(fs.files), n, d.met, keys))
  {
    hide IncomingExists, SomeFree, SaveOps, KnownOps, MoveOps, Listed, Saved, DoneAll, Lower;
    seen := keys;
    ghost var files := fs.files;
    NoOps(files, files);
    if d.met.state != Completing || d.met.missing != [] || d.met.inflight != [] {
      return Success(d), seen;
    }
    if d.met.downloadedBytes != d.met.fileSize {
      var failed := d.(met := d.met.(lastError := Some("completion size mismatch"), state := Error));
      SavedKeepsKnown(files, n, failed.met);
      SaveOpsDone(files, n, failed.met);
      SavePartMet(fs, n, failed.met);
      return Success(failed), seen;
    }
    MoveKeepsKnown(files, n, d.met.fileName);
    var moved := MovePartFile(fs, n, d.met.fileName);
    if moved.Failure? {
      NothingMoved(files, n, d.met.fileName);
      return Failure(moved.error), seen;
    }
    KnownOpsFromEntries(fs.files, files, d.met);
    KnownOpsDone(fs.files, d.met);
    ghost var records := KnownOps(files, d.met);
    var recorded;
    recorded, seen := PersistKnownEntry(fs, d.met, keys);
    if recorded.Failure? {
      NothingRecorded(files, d.met);
      return Failure(recorded.error), seen;
    }
    SavedKeepsKnown(fs.files, n, CompletedMet(d.met));
    RecordedOpsDone(files, n, d.met);
    SavePartMet(fs, n, CompletedMet(d.met));
    return Success(d.(met := CompletedMet(d.met))), seen;
  }

  lemma NothingMoved(files: Files, n: nat, name: string)
    requires Part(n) !in files
    ensures MoveOps(files, n, name) == []
  {
  }

  lemma NothingRecorded(files: Files, met: PartMet)
    requires !KnownReadable(files)
    ensures KnownOps(files, met) == []
  {
  }

  lemma KnownOpsFromEntries(a: Files, b: Files, met: PartMet)
    requires KnownReadable(a) <==> KnownReadable(b)
    requires KnownReadable(a) ==> Entries(a) == Entries(b)
    ensures KnownOps(a, met) == KnownOps(b, met)
  {
  }

  lemma SavedKeepsKnown(files: Files, n: nat, met: PartMet)
    ensures KnownReadable(Saved(files, n, met)) <==> KnownReadable(files)
    ensures KnownReadable(files) ==> Entries(Saved(files, n, met)) == Entries(files)
  {
  }

  lemma MoveKeepsKnown(files: Files, n: nat, name: string)
    requires Part(n) in files ==> SomeFree(files, name, n)
    ensures
        var moved := DoneAll(files, MoveOps(files, n, name));
        && (KnownReadable(moved) <==> KnownReadable(files))
        && (KnownReadable(files) ==> Entries(moved) == Entries(files))
  {
    hide FreeName, SomeFree;
    if Part(n) in files {
      OneOp(files, Rename(Part(n), Incoming(FreeName(files, name, n))));
    }
  }

  lemma RecordedOpsDone(files: Files, n: nat, met: PartMet)
    requires Part(n) in files ==> SomeFree(files, met.fileName, n)
    ensures
        var known := DoneAll(DoneAll(files, MoveOps(files, n, met.fileName)), KnownOps(files, met));
        DoneAll(files, RecordedOps(files, n, met)) == Saved(known, n, CompletedMet(met))
  {
    hide MoveOps, KnownOps, SaveOps, Saved, SomeFree, DoneAll;
    var move, known := MoveOps(files, n, met.fileName), KnownOps(files, met);
    var files2 := DoneAll(DoneAll(files, move), known);
    DoneAllConcat(files, move, known);
    DoneAllConcat(files, move + known, SaveOps(files2, n, CompletedMet(met)));
    SaveOpsDone(files2, n, CompletedMet(met));
  }

  lemma FinishOpsDone(files: Files, n: nat, met: PartMet)
    requires Part(n) in files ==> SomeFree(files, met.fileName, n)
    ensures
        var known := DoneAll(DoneAll(files, MoveOps(files, n, met.fileName)), KnownOps(files, met));
        DoneAll(files, FinishOps(files, n, met)) == Saved(known, n, CompletedMet(met)) - {Met(n), MetBackup(n)}
  {
    hide MoveOps, KnownOps, SaveOps, DropOps, Saved, SomeFree, DoneAll;
    var known := DoneAll(DoneAll(files, MoveOps(files, n, met.fileName)), KnownOps(files, met));
    var saved := Saved(known, n, CompletedMet(met));
    RecordedOpsDone(files, n, met);
    DoneAllConcat(files, RecordedOps(files, n, met), DropOps(saved, n));
    DropOpsDone(saved, n);
  }
}
