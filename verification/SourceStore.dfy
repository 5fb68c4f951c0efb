/** The three caps on stored sources: `enforce_source_store_limits` of `src/kad/service.rs`.
    Identifiers are their 128-bit numbers, which is the order the ordered maps go in; the
    data kept with each source is left out. */
module SourceStores {
  import opened Collections

  type Id = nat
  type Sources = map<Id, set<Id>>

  /** The stored (file, source) pairs; their number is the total the cap is about. */
  ghost function Pairs(m: Sources): set<(Id, Id)> {
    set f, s | f in m && s in m[f] :: (f, s)
  }

  predicate HasOther(s: set<Id>, local: Id) {
    exists x :: x in s && x != local
  }

  /** The order in which files are dropped by the file cap: those without the local source
      first, then the ones with fewer sources, then the smaller identifier. */
  predicate DroppedBefore(m: Sources, local: Id, f: Id, g: Id)
    requires f in m && g in m
  {
    if (local in m[f]) != (local in m[g]) then local !in m[f]
    else if |m[f]| != |m[g]| then |m[f]| < |m[g]|
    else f <= g
  }

  /** What it means that one file goes before another: it has the local source only if the other
      has it too; with neither or both of them having it, it has fewer sources, or as many and a
      smaller identifier. */
  lemma DropsInOrder(m: Sources, local: Id, f: Id, g: Id)
    requires f in m && g in m && f != g
    ensures DroppedBefore(m, local, f, g) <==>
      || (local !in m[f] && local in m[g])
      || ((local in m[f] <==> local in m[g]) && (|m[f]| < |m[g]| || (|m[f]| == |m[g]| && f < g)))
    ensures DroppedBefore(m, local, f, g) <==> !DroppedBefore(m, local, g, f)
  {
  }

  method FirstToDrop(m: Sources, local: Id) returns (f: Id)
    requires m != map[]
    ensures f in m && forall g :: g in m ==> DroppedBefore(m, local, f, g)
  {
    var rest := m.Keys;
    f :| f in rest;
    rest := rest - {f};
    while rest != {}
      invariant rest <= m.Keys && f in m
      invariant forall g :: g in m && g !in rest ==> DroppedBefore(m, local, f, g)
      decreases |rest|
    {
      var g :| g in rest;
      if DroppedBefore(m, local, g, f) {
        f := g;
      }
      rest := rest - {g};
    }
  }

  /** The order in which the total cap picks a file: one with a source that is not the local
      one first, then the one with more sources, then the larger identifier. */
  predicate RobbedBefore(m: Sources, local: Id, f: Id, g: Id)
    requires f in m && g in m
  {
    if HasOther(m[f], local) != HasOther(m[g], local) then HasOther(m[f], local)
    else if |m[f]| != |m[g]| then |m[f]| > |m[g]|
    else f >= g
  }

  method FirstToRob(m: Sources, local: Id) returns (f: Id)
    requires m != map[]
    ensures f in m && forall g :: g in m ==> RobbedBefore(m, local, f, g)
  {
    hide HasOther;
    var rest := m.Keys;
    f :| f in rest;
    rest := rest - {f};
    while rest != {}
      invariant rest <= m.Keys && f in m
      invariant forall g :: g in m && g !in rest ==> RobbedBefore(m, local, f, g)
      decreases |rest|
    {
      var g :| g in rest;
      if RobbedBefore(m, local, g, f) {
        f := g;
      }
      rest := rest - {g};
    }
  }

  /** The source a file gives up: the smallest that is not the local one, if there is any. */
  predicate GivenUp(s: set<Id>, local: Id, x: Id) {
    && x in s && (x == local ==> !HasOther(s, local))
    && forall y :: y in s && y != local ==> x == local || x <= y
  }

  method PickSource(s: set<Id>, local: Id) returns (x: Id)
    requires s != {}
    ensures GivenUp(s, local, x)
  {
    var rest := s;
    x :| x in rest;
    rest := rest - {x};
    while rest != {}
      invariant rest <= s && x in s
      invariant forall y :: y in s && y !in rest && y != local ==> x != local && x <= y
      decreases |rest|
    {
      var y :| y in rest;
      if y != local && (x == local || y < x) {
        x := y;
      }
      rest := rest - {y};
    }
  }

  /** What the per-file cap leaves of a file: the local source, and the largest others. */
  ghost predicate Trimmed(s: set<Id>, t: set<Id>, local: Id, max: nat) {
    && t <= s && |t| == (if |s| < max then |s| else max)
    && (local in s ==> local in t)
    && forall x, y :: x in s && x !in t && y in t && y != local ==> x < y
  }

  /** Nothing is added. */
  ghost predicate Fewer(m: Sources, n: Sources) {
    forall f :: f in n ==> f in m && n[f] <= m[f]
  }

  /** What the total cap may do: nothing is added, and a local source goes only when there
      is no other source left anywhere. */
  ghost predicate Robbed(m: Sources, n: Sources, local: Id) {
    && Fewer(m, n)
    && ((exists f :: f in m && local in m[f] && (f !in n || local !in n[f])) ==> forall g :: g in n ==> !HasOther(n[g], local))
  }

  ghost predicate NoEmptyFile(m: Sources) {
    forall f :: f in m ==> m[f] != {}
  }

  class SourceStore {
    const local: Id
    var files: Sources

    constructor (local: Id)
      ensures this.local == local && files == map[]
    {
      this.local := local;
      files := map[];
    }

    /** `enforce_source_store_files_cap`: of the files, those that would be dropped last stay. */
    method EnforceFilesCap(max: nat)
      modifies this`files
      ensures files.Keys <= old(files).Keys && forall f :: f in files ==> files[f] == old(files)[f]
      ensures max == 0 ==> forall f :: f in old(files) ==> (f in files <==> local in old(files)[f])
      ensures max > 0 ==> |files| == if |old(files)| < max then |old(files)| else max
      ensures max > 0 ==> forall f, g :: f in old(files) && f !in files && g in files ==> DroppedBefore(old(files), local, f, g)
    {
      if max == 0 {
        files := map f | f in files && local in files[f] :: files[f];
        return;
      }
      while |files| > max
        invariant files.Keys <= old(files).Keys && forall f :: f in files ==> files[f] == old(files)[f]
        invariant |files| >= if |old(files)| < max then |old(files)| else max
        invariant |files| <= |old(files)|
        invariant forall f, g :: f in old(files) && f !in files && g in files ==> DroppedBefore(old(files), local, f, g)
        decreases |files|
      {
        var f := FirstToDrop(files, local);
        RemoveKey(files, f);
        files := files - {f};
      }
    }

    /** `enforce_source_store_per_file_cap`: files without sources are dropped on the way. */
    method EnforcePerFileCap(max: nat)
      modifies this`files
      ensures NoEmptyFile(files)
      ensures max == 0 ==> files == OnlyLocal(old(files), local)
      ensures max > 0 ==> (forall f :: f in files <==> f in old(files) && old(files)[f] != {})
      ensures max > 0 ==> forall f :: f in files ==> Trimmed(old(files)[f], files[f], local, max)
    {
      if max == 0 {
        files := OnlyLocal(files, local);
        return;
      }
      var rest := files.Keys;
      while rest != {}
        invariant rest <= files.Keys <= old(files).Keys
        invariant forall f :: f in rest ==> files[f] == old(files)[f]
        invariant forall f :: f in old(files) && f !in rest ==> (f in files <==> old(files)[f] != {})
        invariant forall f :: f in files && f !in rest ==> files[f] != {} && Trimmed(old(files)[f], files[f], local, max)
        decreases |rest|
      {
        var f :| f in rest;
        var kept := TrimSources(files[f], local, max);
        TrimmedNotEmpty(files[f], kept, local, max);
        files := if kept == {} then files - {f} else files[f := kept];
        rest := rest - {f};
      }
    }

    /** `enforce_source_store_total_cap`. */
    method EnforceTotalCap(max: nat)
      modifies this`files
      ensures NoEmptyFile(old(files)) ==> NoEmptyFile(files)
      ensures max == 0 ==> files == OnlyLocal(old(files), local)
      ensures max > 0 ==> Robbed(old(files), files, local)
      ensures max > 0 ==> |Pairs(files)| == if |Pairs(old(files))| < max then |Pairs(old(files))| else max
    {
      if max == 0 {
        files := OnlyLocal(files, local);
        return;
      }
      ghost var was := files;
      var total := Total(files);
      while total > max
        invariant total == |Pairs(files)| <= |Pairs(was)|
        invariant |Pairs(files)| >= if |Pairs(was)| < max then |Pairs(was)| else max
        invariant Robbed(was, files, local) && (NoEmptyFile(was) ==> NoEmptyFile(files))
        decreases total
      {
        SomeSource(files);
        var f := FirstToRob(files, local);
        RobbedHasSource(files, local, f);
        var x := PickSource(files[f], local);
        RobOne(was, files, local, f, x);
        var left := files[f] - {x};
        files := if left == {} then files - {f} else files[f := left];
        total := Total(files);
      }
    }

    /** `enforce_source_store_limits`: every cap that is not zero holds in the end, together
        with the others. Whatever the caps, some file with the local source stays exactly when
        there was one; so with a zero cap the store ends empty exactly when there was none. */
    method EnforceLimits(maxFiles: nat, maxPerFile: nat, maxTotal: nat)
      modifies this`files
      ensures NoEmptyFile(files)
      ensures Fewer(old(files), files)
      ensures maxFiles > 0 ==> |files| <= maxFiles
      ensures maxFiles == 0 ==> forall f :: f in files ==> local in old(files)[f]
      ensures maxPerFile > 0 ==> forall f :: f in files ==> |files[f]| <= maxPerFile
      ensures maxTotal > 0 ==> |Pairs(files)| <= maxTotal
      ensures maxPerFile == 0 || maxTotal == 0 ==> forall f :: f in files ==> files[f] == {local}
      ensures maxFiles == 0 && maxTotal == 0 ==> files == OnlyLocal(old(files), local)
      ensures SomeLocal(files, local) <==> SomeLocal(old(files), local)
      ensures maxFiles == 0 || maxPerFile == 0 || maxTotal == 0 ==> (files == map[] <==> !SomeLocal(old(files), local))
    {
      hide NoEmptyFile, DroppedBefore, Pairs, Trimmed, Robbed, Fewer, OnlyLocal, SomeLocal;
      ghost var was := files;
      EnforceFilesCap(maxFiles);
      ghost var few := files;
      EnforcePerFileCap(maxPerFile);
      ghost var small := files;
      EnforceTotalCap(maxTotal);
      FilesStage(was, few);
      PerFileStage(few, small, local, maxPerFile);
      TotalStage(small, files, local, maxTotal);
      FewerTwice(was, few, small);
      FewerTwice(was, small, files);
      FewerTwice(few, small, files);
      FewerKeepsCaps(few, files);
      FewerKeepsCaps(small, files);
      OwnFiles(was, few, files);
      LocalLeft(small, files, local);
      FilesCapKeepsLocal(was, few, local, maxFiles);
      PerFileKeepsLocal(few, small, local);
      TotalKeepsLocal(small, files, local, maxTotal);
      OnlyLocalLeft(was, files, local);
      if maxFiles == 0 {
        OwnFilesStay(was, few, small, local);
      }
    }
  }

  lemma FilesStage(m: Sources, n: Sources)
    requires n.Keys <= m.Keys && forall f :: f in n ==> n[f] == m[f]
    ensures Fewer(m, n)
  {
  }

  lemma PerFileStage(m: Sources, n: Sources, local: Id, max: nat)
    requires max == 0 ==> n == OnlyLocal(m, local)
    requires max > 0 ==> (forall f :: f in n <==> f in m && m[f] != {}) && forall f :: f in n ==> Trimmed(m[f], n[f], local, max)
    ensures Fewer(m, n) && forall f :: f in m && local in m[f] ==> f in n && local in n[f]
    ensures max > 0 ==> forall f :: f in n ==> |n[f]| <= max
    ensures max == 0 ==> forall f :: f in n ==> n[f] <= {local}
  {
    if max > 0 {
      forall f | f in n
        ensures n[f] <= m[f] && |n[f]| <= max && (local in m[f] ==> local in n[f])
      {
        assert Trimmed(m[f], n[f], local, max);
      }
    }
  }

  lemma TotalStage(m: Sources, n: Sources, local: Id, max: nat)
    requires max == 0 ==> n == OnlyLocal(m, local)
    requires max > 0 ==> Robbed(m, n, local)
    ensures Fewer(m, n)
    ensures max == 0 ==> forall f :: f in n ==> n[f] <= {local}
  {
  }

  /** Some file has the local source. */
  ghost predicate SomeLocal(m: Sources, local: Id) {
    exists f :: f in m && local in m[f]
  }

  lemma FilesCapKeepsLocal(m: Sources, n: Sources, local: Id, max: nat)
    requires n.Keys <= m.Keys && forall f :: f in n ==> n[f] == m[f]
    requires max == 0 ==> forall f :: f in m ==> (f in n <==> local in m[f])
    requires max > 0 ==> |n| == if |m| < max then |m| else max
    requires max > 0 ==> forall f, g :: f in m && f !in n && g in n ==> DroppedBefore(m, local, f, g)
    ensures SomeLocal(n, local) <==> SomeLocal(m, local)
  {
    if SomeLocal(m, local) {
      var f :| f in m && local in m[f];
      if f !in n {
        assert m != map[] && |m| > 0;
        assert n != map[] by { assert |n| > 0; }
        var g :| g in n;
        assert DroppedBefore(m, local, f, g);
        assert g in n && local in n[g];
      } else {
        assert local in n[f];
      }
    }
  }

  lemma PerFileKeepsLocal(m: Sources, n: Sources, local: Id)
    requires Fewer(m, n) && forall f :: f in m && local in m[f] ==> f in n && local in n[f]
    ensures SomeLocal(n, local) <==> SomeLocal(m, local)
  {
  }

  lemma TotalKeepsLocal(m: Sources, n: Sources, local: Id, max: nat)
    requires max == 0 ==> n == OnlyLocal(m, local)
    requires max > 0 ==> Robbed(m, n, local) && |Pairs(n)| == if |Pairs(m)| < max then |Pairs(m)| else max
    ensures SomeLocal(n, local) <==> SomeLocal(m, local)
  {
    if SomeLocal(m, local) && max > 0 {
      var f :| f in m && local in m[f];
      assert (f, local) in Pairs(m);
      if f !in n || local !in n[f] {
        assert Pairs(m) != {} && |Pairs(m)| > 0;
        assert Pairs(n) != {} by { assert |Pairs(n)| > 0; }
        var p :| p in Pairs(n);
        assert p.0 in n && p.1 in n[p.0] && !HasOther(n[p.0], local);
        assert p.1 == local;
      }
    } else if SomeLocal(m, local) {
      var f :| f in m && local in m[f];
      assert f in n && local in n[f];
    }
  }

  lemma OnlyLocalLeft(m: Sources, n: Sources, local: Id)
    ensures n == map[] ==> !SomeLocal(n, local)
    ensures n != map[] && (forall f :: f in n ==> f in m && local in m[f]) ==> SomeLocal(m, local)
    ensures n != map[] && (forall f :: f in n ==> n[f] == {local}) ==> SomeLocal(n, local)
  {
    if n != map[] {
      var f :| f in n;
      assert f in n;
    }
  }

  lemma FewerTwice(a: Sources, b: Sources, c: Sources)
    requires Fewer(a, b) && Fewer(b, c)
    ensures Fewer(a, c)
  {
  }

  lemma OwnFiles(m: Sources, few: Sources, n: Sources)
    requires Fewer(m, few) && Fewer(few, n)
    ensures forall f :: f in n ==> f in m && f in few
  {
  }

  lemma LocalLeft(m: Sources, n: Sources, local: Id)
    requires Fewer(m, n) && NoEmptyFile(n)
    ensures (forall f :: f in m ==> m[f] <= {local}) || (forall f :: f in n ==> n[f] <= {local}) ==>
      forall f :: f in n ==> n[f] == {local}
  {
  }

  lemma OwnFilesStay(m: Sources, few: Sources, small: Sources, local: Id)
    requires forall f :: f in m ==> (f in few <==> local in m[f])
    requires forall f :: f in few ==> f in m && few[f] == m[f]
    requires Fewer(few, small) && forall f :: f in few && local in few[f] ==> f in small && local in small[f]
    ensures OnlyLocal(small, local) == OnlyLocal(m, local)
  {
  }

  /** Fewer sources keep every cap. */
  lemma FewerKeepsCaps(m: Sources, n: Sources)
    requires Fewer(m, n)
    ensures |n| <= |m| && forall f :: f in n ==> |n[f]| <= |m[f]|
  {
    SubsetSize(n.Keys, m.Keys);
    forall f | f in n
      ensures |n[f]| <= |m[f]|
    {
      SubsetSize(n[f], m[f]);
    }
  }

  /** Only the local source of each file, and only files that have it. */
  function OnlyLocal(m: Sources, local: Id): Sources {
    map f | f in m && local in m[f] :: {local}
  }

  method TrimSources(s: set<Id>, local: Id, max: nat) returns (t: set<Id>)
    requires max > 0
    ensures Trimmed(s, t, local, max)
  {
    t := s;
    while |t| > max
      invariant t <= s && |t| >= if |s| < max then |s| else max
      invariant |t| <= |s| && (local in s ==> local in t)
      invariant forall x, y :: x in s && x !in t && y in t && y != local ==> x < y
      decreases |t|
    {
      var x := PickSource(t, local);
      TwoSources(t, local);
      t := t - {x};
    }
  }

  lemma TwoSources(t: set<Id>, local: Id)
    requires |t| > 1
    ensures HasOther(t, local)
  {
    if !HasOther(t, local) {
      assert t <= {local};
      SubsetSize(t, {local});
    }
  }

  lemma TrimmedNotEmpty(s: set<Id>, t: set<Id>, local: Id, max: nat)
    requires max > 0 && Trimmed(s, t, local, max)
    ensures t == {} <==> s == {}
  {
  }

  /** `source_store_totals`: the sum of the sizes. */
  method Total(m: Sources) returns (total: nat)
    ensures total == |Pairs(m)|
  {
    total := 0;
    var rest := m.Keys;
    assert Pairs(m - rest) == {};
    while rest != {}
      invariant rest <= m.Keys && total == |Pairs(m - rest)|
      decreases |rest|
    {
      var f :| f in rest;
      OneMoreFile(m, rest, f);
      total := total + |m[f]|;
      rest := rest - {f};
    }
    assert m - {} == m;
  }

  ghost function PairsOf(f: Id, s: set<Id>): set<(Id, Id)> {
    set x | x in s :: (f, x)
  }

  lemma {:induction false} PairsOfSize(f: Id, s: set<Id>)
    ensures |PairsOf(f, s)| == |s|
    decreases |s|
  {
    if s != {} {
      var x :| x in s;
      PairsOfSize(f, s - {x});
      assert PairsOf(f, s) == PairsOf(f, s - {x}) + {(f, x)};
    }
  }

  lemma OneMoreFile(m: Sources, rest: set<Id>, f: Id)
    requires rest <= m.Keys && f in rest
    ensures |Pairs(m - (rest - {f}))| == |Pairs(m - rest)| + |m[f]|
  {
    PairsOfSize(f, m[f]);
    assert Pairs(m - (rest - {f})) == Pairs(m - rest) + PairsOf(f, m[f]);
    assert Pairs(m - rest) !! PairsOf(f, m[f]);
  }

  lemma SomeSource(m: Sources)
    requires |Pairs(m)| > 0
    ensures exists f :: f in m && m[f] != {}
  {
    var p :| p in Pairs(m);
    assert p.1 in m[p.0];
  }

  /** The file picked has a source to give up. */
  lemma RobbedHasSource(m: Sources, local: Id, f: Id)
    requires f in m && forall g :: g in m ==> RobbedBefore(m, local, f, g)
    requires exists g :: g in m && m[g] != {}
    ensures m[f] != {}
  {
    var g :| g in m && m[g] != {};
    assert RobbedBefore(m, local, f, g) && |m[g]| > 0;
  }

  lemma RobOne(was: Sources, m: Sources, local: Id, f: Id, x: Id)
    requires Robbed(was, m, local) && f in m && GivenUp(m[f], local, x)
    requires forall g :: g in m ==> RobbedBefore(m, local, f, g)
    ensures
        var left := m[f] - {x};
        var n := if left == {} then m - {f} else m[f := left];
        && Robbed(was, n, local) && |Pairs(n)| == |Pairs(m)| - 1 && (NoEmptyFile(m) ==> NoEmptyFile(n))
  {
    var left := m[f] - {x};
    var n := if left == {} then m - {f} else m[f := left];
    forall g: Id, y: Id
      ensures (g, y) in Pairs(m) <==> (g, y) in Pairs(n) || (g, y) == (f, x)
    {
      assert (g, y) in Pairs(m) <==> g in m && y in m[g];
      assert (g, y) in Pairs(n) <==> g in n && y in n[g];
      assert y in left <==> y in m[f] && y != x;
    }
    SamePairs(Pairs(m), Pairs(n) + {(f, x)});
    assert (f, x) !in Pairs(n);
    RobbedFairly(was, m, n, local, f, x);
  }

  lemma SamePairs(a: set<(Id, Id)>, b: set<(Id, Id)>)
    requires forall g: Id, y: Id :: (g, y) in a <==> (g, y) in b
    ensures a == b
  {
    forall p: (Id, Id)
      ensures p in a <==> p in b
    {
      assert p == (p.0, p.1);
    }
  }

  lemma RobbedFairly(was: Sources, m: Sources, n: Sources, local: Id, f: Id, x: Id)
    requires Robbed(was, m, local) && f in m && GivenUp(m[f], local, x)
    requires forall g :: g in m ==> RobbedBefore(m, local, f, g)
    requires n == if m[f] - {x} == {} then m - {f} else m[f := m[f] - {x}]
    ensures Robbed(was, n, local)
  {
    forall g, h | g in was && local in was[g] && (g !in n || local !in n[g]) && h in n
      ensures !HasOther(n[h], local)
    {
      if g in m && local in m[g] {
        assert g == f && x == local;
        assert RobbedBefore(m, local, f, h);
      }
      assert !HasOther(m[h], local);
    }
  }
}
