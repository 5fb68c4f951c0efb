/** Runs of one download together with its files, in which the process may crash in the
    middle of any file operation and start again from what is on disk. */
module CrashSafety {
  import opened Wrappers
  import opened Integers
  import opened Bits
  import opened LittleEndian
  import opened ByteRanges
  import opened Downloads
  import opened DownloadInvariant
  import opened DownloadRuns
  import opened Protocol
  import opened Transfer
  import opened Files
  import opened PartStore
  import opened Ingest
  import Deflate

  datatype World = World(d: Download, files: Files)

  datatype Action = Command(event: Event) | Packet(peer: string, opcode: Byte, payload: seq<Byte>)

  /** Something the service does to its end, or is cut short by a crash that leaves the
      given files and is followed by a restart. */
  datatype Move = Act(action: Action) | Crash(action: Action, left: Files)

  /** Commands other than reporting a block as received: blocks come in as packets. */
  predicate IsCommand(e: Event) {
    !e.BlockReceived? && !e.Restart?
  }

  /** The commands that change the metadata also save it. */
  predicate Saves(d: Download, e: Event) {
    match e
    case Pause => d.met.state in PAUSABLE
    case Resume => d.met.state == Paused
    case Cancel => d.met.state in CANCELLABLE
    case ReserveBlocks(peer, maxBlocks, blockSize, now) =>
      var r := Reserve(d, peer, maxBlocks, blockSize, now).1;
      r.Success? && r.value != []
    case BlockFailed(peer, block, _, _) => FindLease(d.leases, peer, block).Some?
    case PeerGone(peer, now) => Reclaim(d, OfPeer(peer), "peer disconnected: " + peer, now).1 > 0
    case Tick(now) => Reclaim(d, ExpiredAt(now), "block timeout", now).1 > 0
    case _ => false
  }

  /** The block a packet delivers into the file, if it delivers one. */
  ghost function Written(met: PartMet, a: Action): Inbound
    requires a.Packet?
  {
    match ParseHexHash(met.fileHash)
    case None => Rejected
    case Some(hash) =>
      var inbound := Delivered(hash, a.opcode, a.payload);
      if inbound.Block? && inbound.block.end >= met.fileSize then Rejected else inbound
  }

  ghost function Ops(w: World, n: nat, a: Action): seq<Op> {
    match a
    case Command(e) => if Saves(w.d, e) then SaveOps(w.files, n, Apply(w.d, e).met) else []
    case Packet(peer, _, _) =>
      match Written(w.d.met, a)
      case Block(block, data) => if Part(n) in w.files then IngestOps(w.files, n, w.d, peer, block, data) else []
      case _ => []
  }

  ghost function Next(w: World, n: nat, a: Action): World {
    World(
      match a
      case Command(e) => Apply(w.d, e)
      case Packet(peer, _, _) =>
        match Written(w.d.met, a)
        case Block(block, data) => if Part(n) in w.files then OrKeep(Receive(w.d, peer, block), w.d) else w.d
        case _ => w.d,
      DoneAll(w.files, Ops(w, n, a)))
  }

  ghost predicate Moves(w: World, n: nat, m: Move, after: World) {
    match m
    case Act(a) => after == Next(w, n, a)
    case Crash(a, left) =>
      && CrashPoint(w.files, Ops(w, n, a), left)
      && after.files == left
      && (LoadPartMet(left, n).Some? ==> after.d == Recovered(LoadPartMet(left, n).value.0))
  }

  /** Every byte the packet delivers is acceptable at its place in the file. */
  ghost predicate Truthful(met: PartMet, a: Action, good: (nat, Byte) -> bool) {
    match a
    case Command(e) => IsCommand(e)
    case Packet(_, _, _) =>
      match Written(met, a)
      case Block(block, data) => forall i :: 0 <= i < |data| ==> good(block.start + i, data[i])
      case Rejected => true
  }

  ghost predicate AllGood(bytes: seq<Byte>, at: set<nat>, good: (nat, Byte) -> bool) {
    forall b :: b in at ==> b < |bytes| && good(b, bytes[b])
  }

  /** Restarting from this metadata gives a consistent download with the same received bytes;
      and the service holds this metadata, or what a restart made of it. */
  ghost predicate Restartable(saved: PartMet, met: PartMet) {
    && (met == saved || met == Recovered(saved).met)
    && Inv(Recovered(saved))
    && Recovered(saved).met.fileSize == met.fileSize
    && ReceivedBytes(Recovered(saved).met) == ReceivedBytes(met)
  }

  /** The primary metadata file loads and speaks of the received bytes the service knows,
      and every one of these is in the part file. */
  ghost predicate Sound(w: World, n: nat, good: (nat, Byte) -> bool) {
    && Inv(w.d)
    && Met(n) in w.files && w.files[Met(n)].MetOf? && Restartable(w.files[Met(n)].met, w.d.met)
    && Part(n) in w.files && w.files[Part(n)].Data? && |w.files[Part(n)].bytes| == w.d.met.fileSize
    && AllGood(w.files[Part(n)].bytes, ReceivedBytes(w.d.met), good)
  }

  function CreatedFiles(others: Files, n: nat, met: PartMet): Files {
    others[Part(n) := Data(Zeros(met.fileSize))][Met(n) := MetOf(met)]
  }

  /** The world right after `create_download`: among other files, a zero-filled part file and
      the saved metadata. */
  function CreatedWorld(others: Files, n: nat, fileName: string, fileHash: string, fileSize: nat): World
    requires fileSize > 0
  {
    var d := Created(fileName, fileHash, fileSize);
    World(d, CreatedFiles(others, n, d.met))
  }

  lemma CreatedSound(others: Files, n: nat, fileName: string, fileHash: string, fileSize: nat, good: (nat, Byte) -> bool)
    requires fileSize > 0
    ensures Sound(CreatedWorld(others, n, fileName, fileHash, fileSize), n, good)
  {
    hide Inv, Recovered, ReceivedBytes;
    var d := Created(fileName, fileHash, fileSize);
    CreatedInv(fileName, fileHash, fileSize);
    InvRestartable(d);
  }

  lemma InvRestartable(d: Download)
    requires Inv(d)
    ensures Restartable(d.met, d.met)
  {
    hide Inv, Recovered, ReceivedBytes;
    RestartStep(d);
  }

  /** A write inside the file, complete or not, with acceptable bytes keeps acceptable ones. */
  lemma WriteKeepsGood(bytes: seq<Byte>, start: nat, data: seq<Byte>, x: seq<Byte>, at: set<nat>, good: (nat, Byte) -> bool)
    requires start + |data| <= |bytes| && PartlyOverwritten(bytes, start, data, x)
    requires forall i :: 0 <= i < |data| ==> good(start + i, data[i])
    requires AllGood(bytes, at, good)
    ensures |x| == |bytes| && AllGood(x, at, good)
  {
    forall b | b in at
      ensures b < |x| && good(b, x[b])
    {
      assert x[b] == bytes[b] || (start <= b < start + |data| && x[b] == data[b - start]);
      assert start <= b < start + |data| ==> good(start + (b - start), data[b - start]);
    }
  }

  lemma WholeWriteGood(bytes: seq<Byte>, block: ByteRange, data: seq<Byte>, at: set<nat>, good: (nat, Byte) -> bool)
    requires block.start <= block.end < |bytes| && |data| == Length(block)
    requires forall i :: 0 <= i < |data| ==> good(block.start + i, data[i])
    requires AllGood(bytes, at, good)
    ensures AllGood(Overwrite(bytes, block.start, data), at + Span(block), good)
  {
    var x := Overwrite(bytes, block.start, data);
    forall b | b in at + Span(block)
      ensures b < |x| && good(b, x[b])
    {
      OverwriteAt(bytes, block.start, data, b);
      assert b in Span(block) ==> good(block.start + (b - block.start), data[b - block.start]);
    }
  }

  lemma DeliveredShape(hash: Hash, opcode: Byte, payload: seq<Byte>)
    ensures
        var r := Delivered(hash, opcode, payload);
        r.Block? ==> r.block.start <= r.block.end && |r.data| == Length(r.block)
  {
    hide Deflate.Zlib, FromLe;
  }

  lemma WrittenShape(met: PartMet, a: Action)
    requires a.Packet? && Written(met, a).Block?
    ensures
        var block := Written(met, a).block;
        block.start <= block.end < met.fileSize && |Written(met, a).data| == Length(block)
  {
    hide Delivered, ParseHexHash;
    DeliveredShape(ParseHexHash(met.fileHash).value, a.opcode, a.payload);
  }

  /** Saving keeps the world sound, whole or interrupted: d becomes `after`, whose received
      bytes are all in the part file. */
  lemma SaveSound(files: Files, n: nat, d: Download, after: Download, left: Files, good: (nat, Byte) -> bool)
    requires Sound(World(d, files), n, good)
    requires Inv(after) && after.met.fileSize == d.met.fileSize && ReceivedBytes(d.met) <= ReceivedBytes(after.met)
    requires AllGood(files[Part(n)].bytes, ReceivedBytes(after.met), good)
    ensures Sound(World(after, DoneAll(files, SaveOps(files, n, after.met))), n, good)
    ensures CrashPoint(files, SaveOps(files, n, after.met), left) ==> Restarts(left, n, d.met, good)
  {
    hide Inv, Recovered, ReceivedBytes, AllGood, CrashPoint, DoneAll, SaveOps;
    SaveOpsDone(files, n, after.met);
    InvRestartable(after);
    if CrashPoint(files, SaveOps(files, n, after.met), left) {
      SaveCrash(files, n, after.met, left);
      assert left[Part(n)] == files[Part(n)];
    }
  }

  /** The files left by a crash: the primary metadata loads, restarting from it is sound, and
      nothing received before is lost. */
  ghost predicate Restarts(left: Files, n: nat, met: PartMet, good: (nat, Byte) -> bool) {
    var loaded := LoadPartMet(left, n);
    && loaded.Some? && loaded.value.1 == Primary
    && Sound(World(Recovered(loaded.value.0), left), n, good)
    && Recovered(loaded.value.0).met.fileSize == met.fileSize
    && ReceivedBytes(met) <= ReceivedBytes(Recovered(loaded.value.0).met)
  }

  lemma SoundRestarts(w: World, n: nat, good: (nat, Byte) -> bool)
    requires Sound(w, n, good)
    ensures Restarts(w.files, n, w.d.met, good)
  {
    hide Inv, Recovered, ReceivedBytes, AllGood;
    assert Restartable(w.files[Met(n)].met, Recovered(w.files[Met(n)].met).met);
  }

  lemma CommandSound(w: World, n: nat, e: Event, left: Files, good: (nat, Byte) -> bool)
    requires Sound(w, n, good) && IsCommand(e)
    ensures
        var after := Next(w, n, Command(e));
        && Sound(after, n, good) && after.d.met.fileSize == w.d.met.fileSize
        && ReceivedBytes(w.d.met) <= ReceivedBytes(after.d.met)
    ensures CrashPoint(w.files, Ops(w, n, Command(e)), left) ==> Restarts(left, n, w.d.met, good)
  {
    hide Inv, Recovered, ReceivedBytes, AllGood, Apply, Saves, SaveOps, Restarts;
    StepKeeps(w.d, e);
    assert ReceivedBytes(w.d.met) + {} == ReceivedBytes(w.d.met);
    if Saves(w.d, e) {
      SaveSound(w.files, n, w.d, Apply(w.d, e), left, good);
    } else {
      UnsavedIsUnchanged(w.d, e);
      SoundRestarts(w, n, good);
    }
  }

  lemma UnsavedIsUnchanged(d: Download, e: Event)
    requires IsCommand(e) && !Saves(d, e)
    ensures Apply(d, e).met == d.met
  {
    hide FindLease, ReclaimFrom, Grant, PeerLeases;
    if e.ReserveBlocks? {
      assert Reserve(d, e.peer, e.maxBlocks, e.blockSize, e.now).1.Success? ==>
        Reserve(d, e.peer, e.maxBlocks, e.blockSize, e.now).1.value == [];
      NothingGranted(d.(cooldownUntil := None), e.peer, e.blockSize, e.now + LEASE_TIMEOUT_MS);
    }
  }

  lemma NothingGranted(d: Download, peer: string, blockSize: nat, deadline: nat)
    ensures blockSize > 0 ==> forall budget: nat :: Grant(d, peer, blockSize, deadline, budget).1 == [] ==>
        Grant(d, peer, blockSize, deadline, budget).0 == d
  {
  }

  /** Writing the delivered bytes, the first half of taking in a packet. */
  lemma WriteSound(w: World, n: nat, block: ByteRange, data: seq<Byte>, left: Files, good: (nat, Byte) -> bool)
    requires Sound(w, n, good)
    requires block.start <= block.end < w.d.met.fileSize && |data| == Length(block)
    requires forall i :: 0 <= i < |data| ==> good(block.start + i, data[i])
    ensures
        var files := Done(w.files, WriteAt(Part(n), block.start, data));
        && Sound(World(w.d, files), n, good)
        && AllGood(files[Part(n)].bytes, ReceivedBytes(w.d.met) + Span(block), good)
    ensures CrashPoint(w.files, [WriteAt(Part(n), block.start, data)], left) ==> Restarts(left, n, w.d.met, good)
  {
    hide Inv, Recovered, ReceivedBytes, Span, Overwrite, PartlyOverwritten, AllGood, Restarts;
    var write := WriteAt(Part(n), block.start, data);
    var files := Done(w.files, write);
    var bytes, received := w.files[Part(n)].bytes, ReceivedBytes(w.d.met);
    WholeWriteGood(bytes, block, data, received, good);
    GoodSubset(files[Part(n)].bytes, received, received + Span(block), good);
    SoundRestarts(World(w.d, files), n, good);
    SoundRestarts(w, n, good);
    if CrashPoint(w.files, [write], left) {
      assert [write][1..] == [];
      assert CrashPoint(files, [], left) ==> left == files;
      if left != w.files && left != files {
        assert CutShort(w.files, write, left);
        WriteKeepsGood(bytes, block.start, data, left[Part(n)].bytes, received, good);
        SoundRestarts(World(w.d, left), n, good);
      }
    }
  }

  lemma GoodSubset(bytes: seq<Byte>, small: set<nat>, large: set<nat>, good: (nat, Byte) -> bool)
    requires AllGood(bytes, large, good) && small <= large
    ensures AllGood(bytes, small, good)
  {
  }

  lemma PacketSound(w: World, n: nat, a: Action, left: Files, good: (nat, Byte) -> bool)
    requires Sound(w, n, good) && a.Packet? && Truthful(w.d.met, a, good)
    ensures
        var after := Next(w, n, a);
        && Sound(after, n, good) && after.d.met.fileSize == w.d.met.fileSize
        && ReceivedBytes(w.d.met) <= ReceivedBytes(after.d.met)
    ensures CrashPoint(w.files, Ops(w, n, a), left) ==> Restarts(left, n, w.d.met, good)
  {
    hide Inv, Recovered, ReceivedBytes, AllGood, Written, Receive, SaveOps, Restarts, Sound, Done, CrashPoint, DoneAll, Span, FindLease;
    if Written(w.d.met, a).Block? {
      var Block(block, data) := Written(w.d.met, a);
      WrittenShape(w.d.met, a);
      assert Part(n) in w.files by { SoundHasPart(w, n, good); }
      WriteSound(w, n, block, data, left, good);
      BlockSound(w, n, a.peer, block, data, left, good);
    } else {
      NoOps(w.files, left);
      SoundRestarts(w, n, good);
    }
  }

  lemma BlockSound(w: World, n: nat, peer: string, block: ByteRange, data: seq<Byte>, left: Files, good: (nat, Byte) -> bool)
    requires Sound(w, n, good)
    requires
        var files := Done(w.files, WriteAt(Part(n), block.start, data));
        && Sound(World(w.d, files), n, good)
        && AllGood(files[Part(n)].bytes, ReceivedBytes(w.d.met) + Span(block), good)
    requires CrashPoint(w.files, [WriteAt(Part(n), block.start, data)], left) ==> Restarts(left, n, w.d.met, good)
    ensures
        var after := World(OrKeep(Receive(w.d, peer, block), w.d), DoneAll(w.files, IngestOps(w.files, n, w.d, peer, block, data)));
        && Sound(after, n, good) && after.d.met.fileSize == w.d.met.fileSize
        && ReceivedBytes(w.d.met) <= ReceivedBytes(after.d.met)
    ensures CrashPoint(w.files, IngestOps(w.files, n, w.d, peer, block, data), left) ==> Restarts(left, n, w.d.met, good)
  {
    hide Inv, Recovered, ReceivedBytes, AllGood, Receive, SaveOps, Restarts, Done, CrashPoint, DoneAll, Span, FindLease, Restartable;
    var write := WriteAt(Part(n), block.start, data);
    var files := Done(w.files, write);
    assert DoneAll(w.files, [write]) == files by { OneOp(w.files, write); }
    ReceiveStep(w.d, peer, block);
    if Receive(w.d, peer, block).Success? {
      var after := Receive(w.d, peer, block).value;
      ReceiveNeedsLease(w.d, peer, block);
      SaveSound(files, n, w.d, after, left, good);
      var save := SaveOps(files, n, after.met);
      DoneAllConcat(w.files, [write], save);
      if CrashPoint(w.files, [write] + save, left) {
        CrashPointConcat(w.files, [write], save, left);
      }
    }
  }

  /** The bytes in the part file. */
  function PartBytes(w: World, n: nat): seq<Byte>
    requires Part(n) in w.files && w.files[Part(n)].Data?
  {
    w.files[Part(n)].bytes
  }

  ghost predicate Changes(before: seq<Byte>, after: seq<Byte>, at: set<nat>) {
    exists b :: b in at && b < |before| && b < |after| && after[b] != before[b]
  }

  /** The bytes are written before the lease is looked at: whoever sends it, a block goes into
      the part file, so a byte already received changes exactly when the block covers it with
      another value. That takes a block without lease, and then nothing else changes. */
  lemma ReceivedChangesExactlyWhen(w: World, n: nat, a: Action)
    requires Inv(w.d) && a.Packet? && Written(w.d.met, a).Block?
    requires Part(n) in w.files && w.files[Part(n)].Data? && |PartBytes(w, n)| == w.d.met.fileSize
    ensures
        var Block(block, data) := Written(w.d.met, a);
        var after := Next(w, n, a);
        && Part(n) in after.files && after.files[Part(n)] == Data(Overwrite(PartBytes(w, n), block.start, data))
        && (Changes(PartBytes(w, n), PartBytes(after, n), ReceivedBytes(w.d.met)) <==>
              exists b :: b in ReceivedBytes(w.d.met) && block.start <= b <= block.end && data[b - block.start] != PartBytes(w, n)[b])
        && (FindLease(w.d.leases, a.peer, block).Some? ==> Span(block) !! ReceivedBytes(w.d.met))
        && (FindLease(w.d.leases, a.peer, block).None? ==> after.d == w.d && after.files == w.files[Part(n) := after.files[Part(n)]])
  {
    hide Inv, ReceivedBytes, Written, Receive, FindLease, SaveOps, Overwrite, Span, Changes, IngestOps, DoneAll;
    var Block(block, data) := Written(w.d.met, a);
    WrittenShape(w.d.met, a);
    WritesPart(w, n, a.peer, block, data);
    ReceivedInFile(w.d.met);
    OverwriteChanges(PartBytes(w, n), block, data, ReceivedBytes(w.d.met));
    ReceiveNeedsLease(w.d, a.peer, block);
    if FindLease(w.d.leases, a.peer, block).Some? {
      ReceiveKeeps(w.d, a.peer, block);
      InflightIsNotReceived(w.d.met, block);
    }
  }

  lemma OverwriteChanges(bytes: seq<Byte>, block: ByteRange, data: seq<Byte>, at: set<nat>)
    requires block.start <= block.end < |bytes| && |data| == Length(block) && forall b :: b in at ==> b < |bytes|
    ensures
        Changes(bytes, Overwrite(bytes, block.start, data), at) <==>
        exists b :: b in at && block.start <= b <= block.end && data[b - block.start] != bytes[b]
  {
    hide Overwrite;
    var after := Overwrite(bytes, block.start, data);
    forall b | b in at
      ensures after[b] == if block.start <= b <= block.end then data[b - block.start] else bytes[b]
    {
      OverwriteAt(bytes, block.start, data, b);
    }
  }

  lemma ReceivedInFile(met: PartMet)
    ensures forall b :: b in ReceivedBytes(met) ==> b < met.fileSize
  {
  }

  lemma InflightIsNotReceived(met: PartMet, block: ByteRange)
    requires Span(block) <= Bytes(met.inflight)
    ensures Span(block) !! ReceivedBytes(met)
  {
    hide Span, Bytes;
  }

  lemma WritesPart(w: World, n: nat, peer: string, block: ByteRange, data: seq<Byte>)
    requires Part(n) in w.files && w.files[Part(n)].Data?
    ensures
        var files := DoneAll(w.files, IngestOps(w.files, n, w.d, peer, block, data));
        var written := Data(Overwrite(PartBytes(w, n), block.start, data));
        && Part(n) in files && files[Part(n)] == written
        && (Receive(w.d, peer, block).Failure? ==> files == w.files[Part(n) := written])
  {
    hide Receive, Overwrite, SaveOps, DoneAll;
    IngestOpsDone(w.files, n, w.d, peer, block, data);
  }

  lemma MoveSound(w: World, n: nat, m: Move, after: World, good: (nat, Byte) -> bool)
    requires Sound(w, n, good) && Moves(w, n, m, after) && Truthful(w.d.met, m.action, good)
    ensures Sound(after, n, good) && after.d.met.fileSize == w.d.met.fileSize
    ensures ReceivedBytes(w.d.met) <= ReceivedBytes(after.d.met)
    ensures m.Crash? ==> LoadPartMet(m.left, n).Some? && LoadPartMet(m.left, n).value.1 == Primary
  {
    hide Sound, Next, Ops, ReceivedBytes, Recovered, CrashPoint, Written;
    var left := if m.Crash? then m.left else w.files;
    match m.action {
      case Command(e) => CommandSound(w, n, e, left, good);
      case Packet(_, _, _) => PacketSound(w, n, m.action, left, good);
    }
  }

  /** A run: each move leads from one world to the next, and only truthful packets come in. */
  ghost predicate Execution(worlds: seq<World>, moves: seq<Move>, n: nat, good: (nat, Byte) -> bool) {
    && |worlds| == |moves| + 1
    && forall i :: 0 <= i < |moves| ==>
         Moves(worlds[i], n, moves[i], worlds[i + 1]) && Truthful(worlds[i].d.met, moves[i].action, good)
  }

  lemma {:induction false} ExecutionSound(worlds: seq<World>, moves: seq<Move>, n: nat, good: (nat, Byte) -> bool, i: nat, j: nat)
    requires Execution(worlds, moves, n, good) && Sound(worlds[0], n, good) && i <= j < |worlds|
    ensures Sound(worlds[j], n, good) && worlds[j].d.met.fileSize == worlds[0].d.met.fileSize
    ensures ReceivedBytes(worlds[i].d.met) <= ReceivedBytes(worlds[j].d.met)
    decreases j
  {
    hide Sound, Moves, ReceivedBytes, Truthful;
    if j > 0 {
      ExecutionSound(worlds, moves, n, good, if i < j then i else j - 1, j - 1);
      MoveSound(worlds[j - 1], n, moves[j - 1], worlds[j], good);
    }
  }

  /**
   * Crash safety over every run from creation, with crashes inside any file operation: the
   * primary metadata always loads; whatever it lists as neither missing nor in flight is in
   * the part file with a byte that some truthful packet brought; no crash loses a received
   * byte.
   */
  lemma CrashSafe(worlds: seq<World>, moves: seq<Move>, n: nat, good: (nat, Byte) -> bool,
                  others: Files, fileName: string, fileHash: string, fileSize: nat, i: nat, j: nat)
    requires fileSize > 0 && Execution(worlds, moves, n, good)
    requires worlds[0] == CreatedWorld(others, n, fileName, fileHash, fileSize)
    requires i <= j < |worlds|
    ensures
        var loaded := LoadPartMet(worlds[j].files, n);
        && loaded.Some? && loaded.value.1 == Primary
        && Inv(Recovered(loaded.value.0))
        && ReceivedBytes(worlds[i].d.met) <= ReceivedBytes(Recovered(loaded.value.0).met)
    ensures Inv(worlds[j].d) && Part(n) in worlds[j].files
    ensures
        var part := worlds[j].files[Part(n)];
        part.Data? && |part.bytes| == fileSize && AllGood(part.bytes, ReceivedBytes(worlds[j].d.met), good)
  {
    hide Inv, Execution, ReceivedBytes, Recovered, AllGood;
    CreatedSound(others, n, fileName, fileHash, fileSize, good);
    ExecutionSound(worlds, moves, n, good, i, j);
  }

  ghost function FromSource(source: seq<Byte>): (nat, Byte) -> bool {
    (b: nat, v: Byte) => b < |source| && source[b] == v
  }

  /**
   * End to end: when every packet that is let in brings bytes of the source file, a download
   * that becomes Completing has a part file equal to the source, whatever was reserved,
   * failed, timed out, paused, cancelled or interrupted on the way.
   */
  lemma CompleteEqualsSource(worlds: seq<World>, moves: seq<Move>, n: nat, source: seq<Byte>,
                             others: Files, fileName: string, fileHash: string, j: nat)
    requires |source| > 0
    requires Execution(worlds, moves, n, FromSource(source))
    requires worlds[0] == CreatedWorld(others, n, fileName, fileHash, |source|)
    requires j < |worlds| && worlds[j].d.met.state == Completing
    ensures Part(n) in worlds[j].files && worlds[j].files[Part(n)] == Data(source)
    ensures worlds[j].d.met.downloadedBytes == |source|
  {
    hide Execution, ReceivedBytes, Recovered;
    var good := FromSource(source);
    CreatedSound(others, n, fileName, fileHash, |source|, good);
    ExecutionSound(worlds, moves, n, good, j, j);
    var d, bytes := worlds[j].d, worlds[j].files[Part(n)].bytes;
    AllReceived(d);
    forall b | 0 <= b < |source|
      ensures bytes[b] == source[b]
    {
      InFile(b, |source|);
    }
    assert bytes == source;
  }

  lemma AllReceived(d: Download)
    requires Inv(d) && d.met.state == Completing
    ensures ReceivedBytes(d.met) == FileBytes(d.met.fileSize)
  {
    BytesOfNone();
    hide Bytes, Span;
  }

  lemma InFile(b: nat, size: nat)
    requires b < size
    ensures b in FileBytes(size)
  {
  }

  /** Every uploader of the source is truthful: the block answer made for any request... */
  lemma AnswerIsTruthful(met: PartMet, source: seq<Byte>, block: ByteRange, peer: string, hash: Hash)
    requires ParseHexHash(met.fileHash) == Some(hash)
    requires |source| == met.fileSize < U64 && Holds(source, block) && Length(block) <= MAX_BLOCK_LEN
    ensures Answer(hash, source, block).Success?
    ensures
        var answer := Action.Packet(peer, OP_SENDINGPART, Answer(hash, source, block).value.payload);
        && Written(met, answer) == Block(block, source[block.start..block.end + 1])
        && Truthful(met, answer, FromSource(source))
  {
    hide Answer, DecodeSendingPart, ParseHexHash;
    AnswerArrives(hash, source, block);
  }

  /** ... and delivers a leased block: the lease is served, its bytes count as received, and
      every received byte stands at its place in the part file. */
  lemma LeasedBlockArrives(w: World, n: nat, source: seq<Byte>, k: nat, hash: Hash)
    requires Sound(w, n, FromSource(source)) && k < |w.d.leases|
    requires |source| == w.d.met.fileSize < U64 && ParseHexHash(w.d.met.fileHash) == Some(hash)
    requires Length(w.d.leases[k].range) <= MAX_BLOCK_LEN
    ensures Holds(source, w.d.leases[k].range) && Answer(hash, source, w.d.leases[k].range).Success?
    ensures
        var answer := Answer(hash, source, w.d.leases[k].range).value;
        var after := Next(w, n, Action.Packet(w.d.leases[k].peer, OP_SENDINGPART, answer.payload));
        && Sound(after, n, FromSource(source))
        && ReceivedBytes(after.d.met) == ReceivedBytes(w.d.met) + Span(w.d.leases[k].range)
  {
    hide Inv, Answer, ReceivedBytes, Span, ParseHexHash, Written, Ops, FindLease, Receive, Sound, FromSource;
    var Lease(block, peer, _) := w.d.leases[k];
    assert Inv(w.d) by { SoundInv(w, n, FromSource(source)); }
    LeaseInFile(w.d, k);
    AnswerIsTruthful(w.d.met, source, block, peer, hash);
    var a := Action.Packet(peer, OP_SENDINGPART, Answer(hash, source, block).value.payload);
    PacketSound(w, n, a, w.files, FromSource(source));
    ReceiveStep(w.d, peer, block);
    LeaseIsFound(w.d.leases, k);
    ReceiveNeedsLease(w.d, peer, block);
    SoundHasPart(w, n, FromSource(source));
  }

  lemma SoundInv(w: World, n: nat, good: (nat, Byte) -> bool)
    requires Sound(w, n, good)
    ensures Inv(w.d)
  {
  }

  lemma SoundHasPart(w: World, n: nat, good: (nat, Byte) -> bool)
    requires Sound(w, n, good)
    ensures Part(n) in w.files
  {
  }

  lemma LeaseInFile(d: Download, k: nat)
    requires Inv(d) && k < |d.leases|
    ensures d.leases[k].range.start <= d.leases[k].range.end < d.met.fileSize
  {
    assert d.leases[k].range == d.met.inflight[k];
  }

  /** A packet without lease that changes a byte already received: another peer sends a block
      of a complete download, from a file with other content. */
  lemma ReceivedByteChanges(hash: Hash)
    ensures
        var met := PartMet("f", ToHexLower(hash), 1, Completing, 1, [], [], 0, None);
        var w := World(Download(met, [], None), map[Part(1) := Data([7])]);
        && Inv(w.d) && 0 in ReceivedBytes(met) && Answer(hash, [8], ByteRange(0, 0)).Success?
        && var after := Next(w, 1, Action.Packet("q", OP_SENDINGPART, Answer(hash, [8], ByteRange(0, 0)).value.payload));
           after.d == w.d && Part(1) in after.files && after.files[Part(1)] == Data([8])
  {
    hide Answer, ParseHexHash, Written, Ops, FileBytes, ReceivedBytes, Inv, ToHexLower, Span, Holds;
    var met := PartMet("f", ToHexLower(hash), 1, Completing, 1, [], [], 0, None);
    OneByteComplete(ToHexLower(hash));
    var block := ByteRange(0, 0);
    var w := World(Download(met, [], None), map[Part(1) := Data([7])]);
    HashRoundTrip(hash);
    AnswerIsTruthful(met, [8], block, "q", hash);
    var a := Action.Packet("q", OP_SENDINGPART, Answer(hash, [8], block).value.payload);
    assert [8][0..1] == [8];
    assert FindLease([], "q", block) == None;
    assert Overwrite([7], 0, [8]) == [8];
    ReceivedChangesExactlyWhen(w, 1, a);
  }

  lemma OneByteComplete(fileHash: string)
    ensures
        var met := PartMet("f", fileHash, 1, Completing, 1, [], [], 0, None);
        Inv(Download(met, [], None)) && 0 in ReceivedBytes(met) && Holds([8], ByteRange(0, 0))
  {
    var met := PartMet("f", fileHash, 1, Completing, 1, [], [], 0, None);
    BytesOfNone();
    InFile(0, 1);
    FileSize(1);
    assert ReceivedBytes(met) == FileBytes(1);
    assert forall peer: string :: PeerLeases([], peer) == 0;
  }

  lemma LeaseIsFound(leases: seq<Lease>, k: nat)
    requires k < |leases|
    ensures FindLease(leases, leases[k].peer, leases[k].range).Some?
  {
  }
}
