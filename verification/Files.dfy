/** The files of the download component, the operations on them, and what a crash in the
    middle of an operation can leave behind. Rename and remove are atomic; writing and
    copying are not. Flushing to disk, permissions and I/O errors are left out. */
module Files {
  import opened Bits
  import opened Downloads

  datatype Path =
    | Part(n: nat)
    | Met(n: nat)
    | MetBackup(n: nat)
    | MetTemp(n: nat)
    | Incoming(name: string)
    | Known
    | KnownTemp

  /** An entry of `known.met`; its completion time is left out. */
  datatype KnownEntry = KnownEntry(fileName: string, fileSize: nat, fileHash: string)

  /** A partial file is one cut off in the middle: it does not parse. */
  datatype Content =
    | Partial
    | MetOf(met: PartMet)
    | KnownOf(entries: seq<KnownEntry>)
    | Data(bytes: seq<Byte>)

  type Files = map<Path, Content>

  datatype Op =
    | Write(path: Path, content: Content)
    | CopyFile(from: Path, to: Path)
    | Rename(from: Path, to: Path)
    | Remove(path: Path)
    | WriteAt(path: Path, start: nat, data: seq<Byte>)

  /** Seeking past the end leaves a gap of zeros. */
  function Overwrite(prior: seq<Byte>, start: nat, data: seq<Byte>): (r: seq<Byte>)
    ensures start + |data| <= |prior| ==> |r| == |prior|
  {
    var front := if |prior| < start then prior + Zeros(start - |prior|) else prior[..start];
    front + data + (if start + |data| <= |prior| then prior[start + |data|..] else [])
  }

  /** Some of the bytes of an overwrite have reached the file. */
  ghost predicate PartlyOverwritten(prior: seq<Byte>, start: nat, data: seq<Byte>, x: seq<Byte>) {
    && |prior| <= |x| <= |Overwrite(prior, start, data)|
    && forall i :: 0 <= i < |x| ==>
         || x[i] == (if i < |prior| then prior[i] else 0)
         || (start <= i < start + |data| && x[i] == data[i - start])
  }

  function Done(files: Files, op: Op): Files {
    match op
    case Write(path, content) => files[path := content]
    case CopyFile(from, to) => if from in files then files[to := files[from]] else files
    case Rename(from, to) => if from in files then (files - {from})[to := files[from]] else files
    case Remove(path) => files - {path}
    case WriteAt(path, start, data) =>
      if path in files && files[path].Data? then files[path := Data(Overwrite(files[path].bytes, start, data))]
      else files
  }

  function DoneAll(files: Files, ops: seq<Op>): Files
    decreases ops
  {
    if ops == [] then files else DoneAll(Done(files, ops[0]), ops[1..])
  }

  /** The states in which an operation can be interrupted half-way. */
  ghost predicate CutShort(files: Files, op: Op, after: Files) {
    match op
    case Write(path, _) => after == files[path := Partial]
    case CopyFile(_, to) => after == files[to := Partial]
    case WriteAt(path, start, data) =>
      && path in files && files[path].Data?
      && path in after && after[path].Data?
      && PartlyOverwritten(files[path].bytes, start, data, after[path].bytes)
      && after == files[path := after[path]]
    case Rename(_, _) => false
    case Remove(_) => false
  }

  /** A crash somewhere in a list of operations: before, between, after or inside them. */
  ghost predicate CrashPoint(files: Files, ops: seq<Op>, after: Files)
    decreases ops
  {
    || after == files
    || (ops != [] && (CutShort(files, ops[0], after) || CrashPoint(Done(files, ops[0]), ops[1..], after)))
  }

  lemma {:induction false} DoneAllConcat(files: Files, a: seq<Op>, b: seq<Op>)
    ensures DoneAll(files, a + b) == DoneAll(DoneAll(files, a), b)
    decreases a
  {
    if a == [] {
      assert a + b == b;
    } else {
      assert (a + b)[0] == a[0] && (a + b)[1..] == a[1..] + b;
      DoneAllConcat(Done(files, a[0]), a[1..], b);
    }
  }

  lemma {:induction false} CrashPointConcat(files: Files, a: seq<Op>, b: seq<Op>, after: Files)
    requires CrashPoint(files, a + b, after)
    ensures CrashPoint(files, a, after) || CrashPoint(DoneAll(files, a), b, after)
    decreases a
  {
    if a == [] {
      assert a + b == b;
    } else {
      assert (a + b)[0] == a[0] && (a + b)[1..] == a[1..] + b;
      if CrashPoint(Done(files, a[0]), a[1..] + b, after) {
        CrashPointConcat(Done(files, a[0]), a[1..], b, after);
      }
    }
  }

  lemma OneOp(files: Files, op: Op)
    ensures DoneAll(files, [op]) == Done(files, op)
  {
    assert [op][1..] == [];
    assert DoneAll(Done(files, op), []) == Done(files, op);
  }

  lemma NoOps(files: Files, left: Files)
    ensures DoneAll(files, []) == files
    ensures CrashPoint(files, [], left) ==> left == files
  {
  }

  lemma OverwriteAt(prior: seq<Byte>, start: nat, data: seq<Byte>, i: nat)
    requires start + |data| <= |prior| && i < |prior|
    ensures Overwrite(prior, start, data)[i] == if start <= i < start + |data| then data[i - start] else prior[i]
  {
  }

  /** The file system, with the operations performed so far as a ghost journal. */
  class FileSystem {
    var files: Files
    ghost var journal: seq<Op>

    constructor (files: Files)
      ensures this.files == files && journal == []
    {
      this.files := files;
      journal := [];
    }

    predicate Exists(path: Path)
      reads this
    {
      path in files
    }

    method WriteFile(path: Path, content: Content)
      modifies this
      ensures files == Done(old(files), Write(path, content))
      ensures journal == old(journal) + [Write(path, content)]
    {
      files := files[path := content];
      journal := journal + [Write(path, content)];
    }

    method CopyOver(from: Path, to: Path)
      requires from in files
      modifies this
      ensures files == Done(old(files), CopyFile(from, to))
      ensures journal == old(journal) + [CopyFile(from, to)]
    {
      files := files[to := files[from]];
      journal := journal + [CopyFile(from, to)];
    }

    method RenameTo(from: Path, to: Path)
      requires from in files
      modifies this
      ensures files == Done(old(files), Rename(from, to))
      ensures journal == old(journal) + [Rename(from, to)]
    {
      var content := files[from];
      files := (files - {from})[to := content];
      journal := journal + [Rename(from, to)];
    }

    method RemoveFile(path: Path)
      modifies this
      ensures files == Done(old(files), Remove(path))
      ensures journal == old(journal) + [Remove(path)]
    {
      files := files - {path};
      journal := journal + [Remove(path)];
    }

    method WriteBytesAt(path: Path, start: nat, data: seq<Byte>)
      requires path in files && files[path].Data?
      modifies this
      ensures files == Done(old(files), WriteAt(path, start, data))
      ensures journal == old(journal) + [WriteAt(path, start, data)]
    {
      files := files[path := Data(Overwrite(files[path].bytes, start, data))];
      journal := journal + [WriteAt(path, start, data)];
    }
  }
}
