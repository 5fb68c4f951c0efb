/** Runs of a service that holds any number of downloads over one set of files: what happens to
    one of them, completed or cut short by a crash, costs no other one anything. */
module ServiceRuns {
  import opened Wrappers
  import opened Bits
  import opened ByteRanges
  import opened Downloads
  import opened DownloadInvariant
  import opened DownloadRuns
  import opened Files
  import opened PartStore
  import opened Ingest
  import opened CrashSafety

  datatype Service = Service(downloads: map<nat, Download>, files: Files)

  function WorldOf(s: Service, n: nat): World
    requires n in s.downloads
  {
    World(s.downloads[n], s.files)
  }

  /** Download n moves; after a crash all downloads are loaded again. */
  ghost predicate ServiceMoves(s: Service, n: nat, m: Move, after: Service) {
    n in s.downloads
    && match m
       case Act(a) =>
         var next := Next(WorldOf(s, n), n, a);
         after == Service(s.downloads[n := next.d], next.files)
       case Crash(a, left) =>
         && CrashPoint(s.files, Ops(WorldOf(s, n), n, a), left)
         && after.files == left && after.downloads.Keys == s.downloads.Keys
         && forall k :: k in s.downloads && LoadPartMet(left, k).Some? ==>
              after.downloads[k] == Recovered(LoadPartMet(left, k).value.0)
  }

  lemma SaveLeavesOthers(files: Files, n: nat, met: PartMet, left: Files, k: nat)
    requires k != n
    ensures SamePart(files, DoneAll(files, SaveOps(files, n, met)), k)
    ensures CrashPoint(files, SaveOps(files, n, met), left) ==> SamePart(files, left, k)
  {
    hide DoneAll, CrashPoint, SaveOps;
    SaveOpsDone(files, n, met);
    if CrashPoint(files, SaveOps(files, n, met), left) {
      SaveCrash(files, n, met, left);
    }
  }

  lemma WriteLeavesOthers(files: Files, n: nat, start: nat, data: seq<Byte>, left: Files, k: nat)
    requires k != n
    ensures SamePart(files, Done(files, WriteAt(Part(n), start, data)), k)
    ensures CrashPoint(files, [WriteAt(Part(n), start, data)], left) ==> SamePart(files, left, k)
  {
    hide Overwrite, PartlyOverwritten;
    var write := WriteAt(Part(n), start, data);
    assert [write][1..] == [];
    assert CrashPoint(files, [write], left) ==>
      left == files || CutShort(files, write, left) || CrashPoint(Done(files, write), [], left);
  }

  lemma IngestLeavesOthers(files: Files, n: nat, d: Download, peer: string, block: ByteRange, data: seq<Byte>, left: Files, k: nat)
    requires k != n
    ensures SamePart(files, DoneAll(files, IngestOps(files, n, d, peer, block, data)), k)
    ensures CrashPoint(files, IngestOps(files, n, d, peer, block, data), left) ==> SamePart(files, left, k)
  {
    hide Receive, SaveOps, CrashPoint, DoneAll, Done, Saved;
    var write := WriteAt(Part(n), block.start, data);
    var written := Done(files, write);
    WriteLeavesOthers(files, n, block.start, data, left, k);
    OneOp(files, write);
    if Receive(d, peer, block).Success? {
      var save := SaveOps(written, n, Receive(d, peer, block).value.met);
      SaveLeavesOthers(written, n, Receive(d, peer, block).value.met, left, k);
      DoneAllConcat(files, [write], save);
      if CrashPoint(files, [write] + save, left) {
        CrashPointConcat(files, [write], save, left);
      }
    }
  }

  /** Whatever happens to download n, completed or cut short, leaves the files of part k alone. */
  lemma OpsLeaveOthers(w: World, n: nat, a: Action, left: Files, k: nat)
    requires k != n
    ensures SamePart(w.files, Next(w, n, a).files, k)
    ensures CrashPoint(w.files, Ops(w, n, a), left) ==> SamePart(w.files, left, k)
  {
    hide CrashPoint, DoneAll, SaveOps, IngestOps, Written, Apply, Saves, Receive, SamePart;
    NoOps(w.files, left);
    NothingTouched(w.files, k);
    match a {
      case Command(e) =>
        if Saves(w.d, e) {
          SaveLeavesOthers(w.files, n, Apply(w.d, e).met, left, k);
        }
      case Packet(peer, _, _) =>
        if Written(w.d.met, a).Block? && Part(n) in w.files {
          var Block(block, data) := Written(w.d.met, a);
          IngestLeavesOthers(w.files, n, w.d, peer, block, data, left, k);
        }
    }
  }

  lemma NothingTouched(files: Files, k: nat)
    ensures SamePart(files, files, k)
  {
  }

  lemma SamePartSound(d: Download, a: Files, b: Files, k: nat, good: (nat, Byte) -> bool)
    requires Sound(World(d, a), k, good) && SamePart(a, b, k)
    ensures Sound(World(d, b), k, good)
  {
    hide Inv, Restartable, AllGood, ReceivedBytes;
  }

  /** For each download, which byte is acceptable at which place. */
  type Contents = map<nat, (nat, Byte) -> bool>

  ghost predicate AllSound(s: Service, contents: Contents) {
    forall k :: k in s.downloads ==> k in contents && Sound(WorldOf(s, k), k, contents[k])
  }

  ghost predicate Keeps(s: Service, after: Service, contents: Contents, k: nat)
    requires k in s.downloads && k in after.downloads && k in contents
  {
    && Sound(WorldOf(after, k), k, contents[k])
    && after.downloads[k].met.fileSize == s.downloads[k].met.fileSize
    && ReceivedBytes(s.downloads[k].met) <= ReceivedBytes(after.downloads[k].met)
  }

  lemma OthersKeep(s: Service, n: nat, m: Move, after: Service, contents: Contents, k: nat)
    requires ServiceMoves(s, n, m, after) && AllSound(s, contents) && k in s.downloads && k != n
    ensures Keeps(s, after, contents, k)
  {
    hide Sound, Ops, Next, CrashPoint, Recovered, ReceivedBytes;
    var left := if m.Crash? then m.left else s.files;
    OpsLeaveOthers(WorldOf(s, n), n, m.action, left, k);
    assert Sound(WorldOf(s, k), k, contents[k]);
    SamePartSound(s.downloads[k], s.files, after.files, k, contents[k]);
    if m.Crash? {
      SoundRestarts(World(s.downloads[k], left), k, contents[k]);
    }
  }

  lemma MoverKeeps(s: Service, n: nat, m: Move, after: Service, contents: Contents)
    requires ServiceMoves(s, n, m, after) && AllSound(s, contents)
    requires Truthful(s.downloads[n].met, m.action, contents[n])
    ensures Keeps(s, after, contents, n)
  {
    hide Sound, Ops, Next, CrashPoint, Recovered, ReceivedBytes, Truthful;
    assert Sound(WorldOf(s, n), n, contents[n]);
    MoveSound(WorldOf(s, n), n, m, WorldOf(after, n), contents[n]);
  }

  /** Download number by number: the run of a service. */
  ghost predicate ServiceRun(states: seq<Service>, moves: seq<(nat, Move)>, contents: Contents) {
    && |states| == |moves| + 1
    && forall i :: 0 <= i < |moves| ==>
         && ServiceMoves(states[i], moves[i].0, moves[i].1, states[i + 1])
         && moves[i].0 in contents
         && Truthful(states[i].downloads[moves[i].0].met, moves[i].1.action, contents[moves[i].0])
  }

  lemma OneMove(s: Service, n: nat, m: Move, after: Service, contents: Contents)
    requires ServiceMoves(s, n, m, after) && AllSound(s, contents)
    requires Truthful(s.downloads[n].met, m.action, contents[n])
    ensures after.downloads.Keys == s.downloads.Keys && AllSound(after, contents)
    ensures forall k :: k in s.downloads ==> Keeps(s, after, contents, k)
  {
    hide Sound, Ops, Next, CrashPoint, Recovered, ReceivedBytes, Truthful;
    forall k | k in s.downloads
      ensures Keeps(s, after, contents, k)
    {
      if k == n {
        MoverKeeps(s, n, m, after, contents);
      } else {
        OthersKeep(s, n, m, after, contents, k);
      }
    }
    forall k | k in after.downloads
      ensures Sound(WorldOf(after, k), k, contents[k])
    {
      assert Keeps(s, after, contents, k);
    }
  }

  /**
   * Crash safety of a whole service: over every run, with crashes inside any file operation and
   * restarts of everything, each download stays sound (its primary metadata loads, and what
   * that lists as received is in its part file with a byte that a truthful packet brought),
   * and none ever loses a received byte, whatever happens to the others.
   */
  lemma {:induction false} ServiceSafe(states: seq<Service>, moves: seq<(nat, Move)>, contents: Contents, i: nat, j: nat, k: nat)
    requires ServiceRun(states, moves, contents) && AllSound(states[0], contents)
    requires i <= j < |states| && k in states[0].downloads
    ensures states[j].downloads.Keys == states[0].downloads.Keys && states[i].downloads.Keys == states[0].downloads.Keys
    ensures AllSound(states[j], contents)
    ensures ReceivedBytes(states[i].downloads[k].met) <= ReceivedBytes(states[j].downloads[k].met)
    ensures states[j].downloads[k].met.fileSize == states[0].downloads[k].met.fileSize
    decreases j
  {
    hide Sound, ServiceMoves, ReceivedBytes, Truthful, AllSound;
    if j > 0 {
      ServiceSafe(states, moves, contents, if i < j then i else j - 1, j - 1, k);
      KnownDownloads(states[j - 1], contents, moves[j - 1].0, moves[j - 1].1, states[j]);
      OneMove(states[j - 1], moves[j - 1].0, moves[j - 1].1, states[j], contents);
      assert Keeps(states[j - 1], states[j], contents, k);
    }
  }

  lemma KnownDownloads(s: Service, contents: Contents, n: nat, m: Move, after: Service)
    requires AllSound(s, contents) && ServiceMoves(s, n, m, after)
    ensures n in s.downloads && forall k :: k in s.downloads ==> k in contents
  {
    hide Sound;
  }
}
