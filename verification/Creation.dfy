/** Creating a download on disk: `create_download` of `src/download/service.rs`. */
module Creation {
  import opened Wrappers
  import opened Bits
  import opened Downloads
  import opened DownloadServices
  import opened Files
  import opened PartStore
  import opened CrashSafety

  /** The part numbers that a file of the download directory carries. */
  function UsedNumbers(files: Files): set<nat> {
    set p | p in files && (p.Part? || p.Met?) :: p.n
  }

  /** An empty part file, extended with zeros to its length, then the saved metadata. */
  function CreateOps(files: Files, n: nat, met: PartMet): seq<Op> {
    [Write(Part(n), Data([])), Write(Part(n), Data(Zeros(met.fileSize)))] + SaveOps(files, n, met)
  }

  /** The whole of `create_download`: the lowest number no file carries, then the files that
      every run starts from, and the download itself. */
  method CreateDownload(service: DownloadService, fs: FileSystem, fileName: string, fileHash: string, fileSize: nat)
    returns (r: Result<nat, DownloadError>)
    requires service.Valid()
    modifies service, fs
    ensures service.Valid()
    ensures r.Success? <==> fileSize > 0 && exists n :: 1 <= n <= MAX_PART_NUMBER && n !in UsedNumbers(old(fs.files))
    ensures r.Failure? ==> service.downloads == old(service.downloads) && fs.files == old(fs.files)
    ensures r.Success? ==>
        var n, d := r.value, Created(fileName, fileHash, fileSize);
        && Part(n) !in old(fs.files) && Met(n) !in old(fs.files)
        && (forall m :: 1 <= m < n ==> m in UsedNumbers(old(fs.files)))
        && service.downloads == old(service.downloads)[n := d]
        && fs.journal == old(fs.journal) + CreateOps(old(fs.files), n, d.met)
        && World(d, fs.files) == CreatedWorld(old(fs.files) - {MetTemp(n)}, n, fileName, fileHash, fileSize)
  {
    hide Created, CreateOps, UsedNumbers, CreatedFiles;
    ghost var files := fs.files;
    r := service.CreateDownload(fileName, fileHash, fileSize, UsedNumbers(fs.files));
    if r.Failure? {
      return;
    }
    Unused(files, r.value);
    CreatedSize(fileName, fileHash, fileSize);
    CreateFiles(fs, r.value, service.downloads[r.value].met);
  }

  method CreateFiles(fs: FileSystem, n: nat, met: PartMet)
    requires Met(n) !in fs.files
    modifies fs
    ensures fs.journal == old(fs.journal) + CreateOps(old(fs.files), n, met)
    ensures fs.files == CreatedFiles(old(fs.files) - {MetTemp(n)}, n, met)
  {
    hide SaveOps;
    ghost var files := fs.files;
    fs.WriteFile(Part(n), Data([]));
    fs.WriteFile(Part(n), Data(Zeros(met.fileSize)));
    SameSave(files, fs.files, n, met);
    SavePartMet(fs, n, met);
  }

  lemma Unused(files: Files, n: nat)
    requires n !in UsedNumbers(files)
    ensures Part(n) !in files && Met(n) !in files
  {
    assert Part(n).n == n && Met(n).n == n;
  }

  lemma CreatedSize(fileName: string, fileHash: string, fileSize: nat)
    requires fileSize > 0
    ensures Created(fileName, fileHash, fileSize).met.fileSize == fileSize
  {
  }

  /** A crash while a download is created leaves no metadata, or the whole of it; without it,
      a restart does not see the part. */
  lemma CreateCrash(files: Files, n: nat, met: PartMet, after: Files)
    requires Part(n) !in files && Met(n) !in files && CrashPoint(files, CreateOps(files, n, met), after)
    ensures Met(n) in after ==>
        && after[Met(n)] == MetOf(met)
        && Part(n) in after && after[Part(n)] == Data(Zeros(met.fileSize))
    ensures forall p :: p !in {Part(n), Met(n), MetTemp(n)} ==> (p in after <==> p in files) && (p in files ==> after[p] == files[p])
  {
    hide SaveOps, CrashPoint;
    var a, b := Write(Part(n), Data([])), Write(Part(n), Data(Zeros(met.fileSize)));
    CrashPointConcat(files, [a, b], SaveOps(files, n, met), after);
    TwoWrites(files, Part(n), [], Zeros(met.fileSize), after);
    if CrashPoint(DoneAll(files, [a, b]), SaveOps(files, n, met), after) {
      var created := DoneAll(files, [a, b]);
      assert SaveOps(files, n, met) == SaveOps(created, n, met) by { SameSave(files, created, n, met); }
      SaveCrashExact(created, n, met, after);
    }
  }

  lemma SameSave(a: Files, b: Files, n: nat, met: PartMet)
    requires Met(n) in a <==> Met(n) in b
    ensures SaveOps(a, n, met) == SaveOps(b, n, met)
  {
  }

  lemma TwoWrites(files: Files, path: Path, x: seq<Byte>, y: seq<Byte>, after: Files)
    ensures DoneAll(files, [Write(path, Data(x)), Write(path, Data(y))]) == files[path := Data(y)]
    ensures CrashPoint(files, [Write(path, Data(x)), Write(path, Data(y))], after) ==>
        after == files || (path in after && after == files[path := after[path]])
  {
    var a, b := Write(path, Data(x)), Write(path, Data(y));
    assert [a, b][1..] == [b] && [b][1..] == [];
    var files1 := Done(files, a);
    OneOp(files1, b);
    assert CrashPoint(files1, [b], after) ==> after == files1 || CutShort(files1, b, after) || CrashPoint(Done(files1, b), [], after);
  }

  lemma SaveCrashExact(files: Files, n: nat, met: PartMet, after: Files)
    requires Met(n) !in files && CrashPoint(files, SaveOps(files, n, met), after)
    ensures Met(n) in after ==> after[Met(n)] == MetOf(met)
    ensures forall p :: p !in {Met(n), MetTemp(n)} ==> (p in after <==> p in files) && (p in files ==> after[p] == files[p])
  {
    var w, m := Write(MetTemp(n), MetOf(met)), Rename(MetTemp(n), Met(n));
    assert SaveOps(files, n, met) == [w, m];
    assert [w, m][1..] == [m] && [m][1..] == [];
    var written := Done(files, w);
    assert after == files || CutShort(files, w, after) || CrashPoint(written, [m], after);
    assert CrashPoint(written, [m], after) ==> after == written || CrashPoint(Done(written, m), [], after);
  }
}
