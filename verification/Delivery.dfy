/** From the first block to the incoming directory. */
module Delivery {
  import ByteRanges
  import opened Bits
  import opened Downloads
  import opened DownloadInvariant
  import opened Files
  import opened IncomingNames
  import opened Finalization
  import opened FinalizationRuns
  import opened CrashSafety

  function GoalAt(w: World, n: nat, source: seq<Byte>): Goal {
    Goal(n, w.d.met, source, w.files)
  }

  lemma CompletingIsReady(d: Download)
    requires Inv(d) && d.met.state == Completing
    ensures ReadyToFinish(d.met)
  {
  }

  /** A sound world with a Completing download can be finished: its metadata is on disk. */
  lemma CompletingIsStartable(w: World, n: nat, good: (nat, Byte) -> bool, source: seq<Byte>)
    requires Sound(w, n, good) && w.d.met.state == Completing && w.files[Part(n)] == Data(source)
    requires KnownReadable(w.files) && SomeFree(w.files, w.d.met.fileName, n)
    ensures Startable(GoalAt(w, n, source))
    ensures HasMet(GoalAt(w, n, source), w.files, w.d.met)
  {
    hide SomeFree, KnownReadable, AllGood;
    CompletingIsReady(w.d);
    var saved := w.files[Met(n)].met;
    RecoveredCompletingIsSaved(saved, w.d.met);
  }

  /** Metadata with blocks in flight is never recovered as Completing. */
  lemma RecoveredCompletingIsSaved(saved: PartMet, met: PartMet)
    requires Restartable(saved, met) && met.state == Completing
    ensures met == saved
  {
    hide ReceivedBytes, Consistent, WithinCaps;
    if saved.inflight != [] {
      MergedIsNotEmpty(saved.missing + saved.inflight);
    }
  }

  lemma MergedIsNotEmpty(rs: seq<ByteRanges.ByteRange>)
    requires rs != []
    ensures ByteRanges.Merged(rs) != []
  {
    InsertIsNotEmpty(ByteRanges.Merged(rs[..|rs| - 1]), rs[|rs| - 1]);
  }

  lemma {:induction false} InsertIsNotEmpty(rs: seq<ByteRanges.ByteRange>, r: ByteRanges.ByteRange)
    ensures ByteRanges.Insert(rs, r) != []
    decreases |rs|
  {
    if rs != [] {
      var wider := ByteRanges.ByteRange(
        ByteRanges.Min(rs[0].start, r.start), ByteRanges.Max(rs[0].end, r.end));
      InsertIsNotEmpty(rs[1..], wider);
    }
  }

  lemma OwnNameFirst(g: Goal, files: Files, k: nat)
    requires MovedAs(g, files, k) && Incoming(g.met.fileName) !in g.before
    ensures Incoming(g.met.fileName) in files && files[Incoming(g.met.fileName)] == Data(g.data)
  {
    assert k > 0 ==> Taken(g.before, g.met.fileName, g.n, 0);
  }

  /**
   * The whole way: a download fed with blocks of the source, through any failures, crashes
   * and restarts, that becomes Completing and whose finalization, after any further crashes,
   * once runs to its end, leaves the source file in the incoming directory: under its own name
   * when no file has it, otherwise under a name that no file had.
   */
  lemma SourceIsDelivered(worlds: seq<World>, moves: seq<Move>, n: nat, source: seq<Byte>, others: Files,
                          fileName: string, fileHash: string, j: nat,
                          states: seq<Files>, completes: seq<bool>, i: nat)
    requires |source| > 0
    requires Execution(worlds, moves, n, FromSource(source))
    requires worlds[0] == CreatedWorld(others, n, fileName, fileHash, |source|)
    requires j < |worlds| && worlds[j].d.met.state == Completing
    requires KnownReadable(worlds[j].files) && SomeFree(worlds[j].files, worlds[j].d.met.fileName, n)
    requires Restarted(GoalAt(worlds[j], n, source), states, completes) && states[0] == worlds[j].files
    requires i < |states| && exists k :: 0 <= k < i && completes[k]
    ensures exists name :: Incoming(name) !in worlds[j].files && Incoming(name) in states[i] && states[i][Incoming(name)] == Data(source)
    ensures
        var own := Incoming(worlds[j].d.met.fileName);
        own !in worlds[j].files ==> own in states[i] && states[i][own] == Data(source)
    ensures Met(n) !in states[i]
  {
    hide Execution, Restarted, Startable, FromSource, SomeFree, Candidate, Recorded, KnownKept, Resumable;
    CreatedSound(others, n, fileName, fileHash, |source|, FromSource(source));
    ExecutionSound(worlds, moves, n, FromSource(source), j, j);
    CompleteEqualsSource(worlds, moves, n, source, others, fileName, fileHash, j);
    CompletingIsStartable(worlds[j], n, FromSource(source), source);
    var g := GoalAt(worlds[j], n, source);
    FinishesOnce(g, states, completes, i);
    var k: nat :| MovedAs(g, states[i], k);
    assert Incoming(Candidate(g.met.fileName, g.n, k)) in states[i];
    if Incoming(g.met.fileName) !in worlds[j].files {
      OwnNameFirst(g, states[i], k);
    }
  }
}
