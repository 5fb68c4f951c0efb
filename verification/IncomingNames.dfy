/** The names tried for a finished file in the incoming directory. */
module IncomingNames {
  import opened Integers
  import opened Collections
  import opened Files

  function Digit(d: nat): char
    requires d < 10
  {
    "0123456789"[d]
  }

  function Decimal(n: nat): (s: string)
    ensures |s| > 0
  {
    if n < 10 then [Digit(n)] else Decimal(n / 10) + [Digit(n % 10)]
  }

  lemma {:induction false} DecimalInjective(a: nat, b: nat)
    requires Decimal(a) == Decimal(b)
    ensures a == b
  {
    hide Digit;
    var s, t := Decimal(a), Decimal(b);
    assert s[|s| - 1] == Digit(a % 10) && t[|t| - 1] == Digit(b % 10);
    DigitsDiffer(a % 10, b % 10);
    if a >= 10 && b >= 10 {
      assert s[..|s| - 1] == Decimal(a / 10) && t[..|t| - 1] == Decimal(b / 10);
      DecimalInjective(a / 10, b / 10);
    }
  }

  lemma DigitsDiffer(a: nat, b: nat)
    requires a < 10 && b < 10 && Digit(a) == Digit(b)
    ensures a == b
  {
  }

  /** `{:03}`. */
  function Padded(n: nat): string {
    (if n < 10 then "00" else if n < 100 then "0" else "") + Decimal(n)
  }

  function CompletedName(name: string, part: nat): string {
    name + "." + Padded(part) + ".completed"
  }

  /** The k-th name tried: the plain one, the fallback, then the numbered fallbacks. */
  function Candidate(name: string, part: nat, k: nat): string {
    if k == 0 then name
    else if k == 1 then CompletedName(name, part)
    else CompletedName(name, part) + "." + Decimal(k - 1)
  }

  lemma CandidatesDiffer(name: string, part: nat, j: nat, k: nat)
    requires Candidate(name, part, j) == Candidate(name, part, k)
    ensures j == k
  {
    hide Decimal, Padded;
    if j >= 2 && k >= 2 {
      var prefix := CompletedName(name, part) + ".";
      assert Candidate(name, part, j)[|prefix|..] == Decimal(j - 1);
      assert Candidate(name, part, k)[|prefix|..] == Decimal(k - 1);
      DecimalInjective(j - 1, k - 1);
    }
  }

  predicate Taken(files: Files, name: string, part: nat, k: nat) {
    Incoming(Candidate(name, part, k)) in files
  }

  /** The counter of the search in its n-th numbered try; it stops growing at the largest u32. */
  function CounterAt(n: nat): nat {
    if n == 0 then 1 else SaturatingIncU32(CounterAt(n - 1))
  }

  /** Which name the n-th try looks at. */
  function Tried(n: nat): nat {
    if n < 2 then n else CounterAt(n - 2) + 1
  }

  lemma {:induction false} CounterSaturates(n: nat)
    ensures CounterAt(n) == if n < U32_MAX then n + 1 else U32_MAX
  {
    if n > 0 {
      CounterSaturates(n - 1);
    }
  }

  lemma TriedIs(n: nat)
    ensures Tried(n) == if n <= U32_MAX + 1 then n else U32_MAX + 1
  {
    if n >= 2 {
      CounterSaturates(n - 2);
    }
  }

  /** Some name is left for the search. */
  ghost predicate SomeFree(files: Files, name: string, part: nat) {
    exists k :: 0 <= k <= U32_MAX + 1 && !Taken(files, name, part, k)
  }

  ghost function LowestFree(files: Files, name: string, part: nat, from: nat): (k: nat)
    requires exists j :: from <= j <= U32_MAX + 1 && !Taken(files, name, part, j)
    ensures from <= k <= U32_MAX + 1 && !Taken(files, name, part, k)
    ensures forall j :: from <= j < k ==> Taken(files, name, part, j)
    decreases U32_MAX + 1 - from
  {
    if !Taken(files, name, part, from) then from else LowestFree(files, name, part, from + 1)
  }

  /** Going on for ever, the search comes upon a free name exactly when one of the first
      2^32 + 1 names is free; otherwise it never ends. */
  lemma SearchEndsExactlyWhen(files: Files, name: string, part: nat)
    ensures (exists n: nat :: !Taken(files, name, part, Tried(n))) <==> SomeFree(files, name, part)
  {
    hide Taken;
    if n: nat :| !Taken(files, name, part, Tried(n)) {
      TriedIs(n);
    }
    if SomeFree(files, name, part) {
      var k :| 0 <= k <= U32_MAX + 1 && !Taken(files, name, part, k);
      TriedIs(k);
    }
  }

  /** The name `unique_incoming_path` settles on. */
  ghost function FreeName(files: Files, name: string, part: nat): (s: string)
    requires SomeFree(files, name, part)
    ensures Incoming(s) !in files
  {
    Candidate(name, part, LowestFree(files, name, part, 0))
  }

  /** The digits of a part number, at least three of them. */
  lemma ThreeDigits(n: nat)
    requires n < 1000
    ensures Padded(n) == [Digit(n / 100), Digit(n / 10 % 10), Digit(n % 10)]
  {
    assert Digit(0) == '0';
    hide Digit;
    DecimalSteps(n);
    DecimalSteps(n / 10);
    DecimalSteps(n / 100);
    hide Decimal;
    assert n / 10 / 10 == n / 100;
  }

  lemma DecimalSteps(n: nat)
    ensures n < 10 ==> Decimal(n) == [Digit(n)]
    ensures n >= 10 ==> Decimal(n) == Decimal(n / 10) + [Digit(n % 10)]
  {
    hide Digit;
  }

  /** A file keeps its own name when that is free; otherwise its part number and what happened
      are appended, and if need be a counter from 1 on. */
  lemma NamesInOrder(files: Files, name: string, part: nat)
    requires SomeFree(files, name, part)
    ensures
        var free, first := FreeName(files, name, part), name + "." + Padded(part) + ".completed";
        && (Incoming(name) !in files ==> free == name)
        && (Incoming(name) in files && Incoming(first) !in files ==> free == first)
        && (Incoming(name) in files && Incoming(first) in files ==>
              exists counter :: 1 <= counter <= U32_MAX && free == first + "." + Decimal(counter)
                && forall c :: 1 <= c < counter ==> Incoming(first + "." + Decimal(c)) in files)
  {
    hide Decimal, Padded;
    var k := LowestFree(files, name, part, 0);
    var first := name + "." + Padded(part) + ".completed";
    assert Candidate(name, part, 0) == name && Candidate(name, part, 1) == first;
    assert forall j :: 0 <= j < k ==> Taken(files, name, part, j);
    assert k > 0 ==> Taken(files, name, part, 0);
    assert k > 1 ==> Taken(files, name, part, 1);
    if k >= 2 {
      assert FreeName(files, name, part) == first + "." + Decimal(k - 1);
      forall c | 1 <= c < k - 1
        ensures Incoming(first + "." + Decimal(c)) in files
      {
        assert Taken(files, name, part, c + 1) && Candidate(name, part, c + 1) == first + "." + Decimal(c);
      }
    }
  }

  /** `unique_incoming_path`: the search ends, with the first name that no file has. It is
      called with a name left, which is exactly when it ends (`SearchEndsExactlyWhen`). */
  method UniqueIncomingName(files: Files, name: string, part: nat) returns (found: string, ghost tries: nat)
    requires SomeFree(files, name, part)
    ensures found == FreeName(files, name, part)
    ensures found == Candidate(name, part, Tried(tries))
    ensures forall n :: 0 <= n < tries ==> Taken(files, name, part, Tried(n))
  {
    hide Decimal, Padded;
    if Incoming(name) !in files {
      return name, 0;
    }
    var fallback := CompletedName(name, part);
    if Incoming(fallback) !in files {
      return fallback, 1;
    }
    var counter := 1;
    tries := 2;
    assert Taken(files, name, part, 0) && Taken(files, name, part, 1);
    ghost var free := LowestFree(files, name, part, 0);
    while true
      invariant 1 <= counter <= U32_MAX && tries >= 2 && counter == CounterAt(tries - 2)
      invariant forall n :: 0 <= n < tries ==> Taken(files, name, part, Tried(n))
      invariant forall j :: 0 <= j <= counter ==> Taken(files, name, part, j)
      decreases free - counter
    {
      var candidate := fallback + "." + Decimal(counter);
      assert candidate == Candidate(name, part, counter + 1);
      if Incoming(candidate) !in files {
        assert !Taken(files, name, part, counter + 1) && free == counter + 1;
        return candidate, tries;
      }
      assert Taken(files, name, part, counter + 1);
      counter := SaturatingIncU32(counter);
      tries := tries + 1;
    }
  }

  ghost function CandidatePaths(name: string, part: nat, count: nat): (r: set<Path>)
    decreases count
  {
    if count == 0 then {} else CandidatePaths(name, part, count - 1) + {Incoming(Candidate(name, part, count - 1))}
  }

  lemma {:induction false} CandidatePathsSize(files: Files, name: string, part: nat, count: nat)
    requires forall k :: 0 <= k < count ==> Taken(files, name, part, k)
    ensures |CandidatePaths(name, part, count)| == count
    ensures CandidatePaths(name, part, count) <= files.Keys
    ensures forall p :: p in CandidatePaths(name, part, count) ==>
        exists k :: 0 <= k < count && p == Incoming(Candidate(name, part, k))
    decreases count
  {
    hide Candidate;
    if count > 0 {
      CandidatePathsSize(files, name, part, count - 1);
      var last := Incoming(Candidate(name, part, count - 1));
      if last in CandidatePaths(name, part, count - 1) {
        var k :| 0 <= k < count - 1 && last == Incoming(Candidate(name, part, k));
        CandidatesDiffer(name, part, k, count - 1);
      }
      assert Taken(files, name, part, count - 1);
    }
  }

  /** The search ends in every directory of at most 2^32 files. */
  lemma FewFilesLeaveAFreeName(files: Files, name: string, part: nat)
    requires |files| <= U32_MAX + 1
    ensures SomeFree(files, name, part)
  {
    hide Candidate, Taken;
    if !SomeFree(files, name, part) {
      var count := U32_MAX + 2;
      CandidatePathsSize(files, name, part, count);
      SubsetSize(CandidatePaths(name, part, count), files.Keys);
    }
  }

  predicate StartsWith(s: string, prefix: string) {
    |s| >= |prefix| && s[..|prefix|] == prefix
  }

  predicate IsFallback(s: string, name: string, part: nat) {
    s == CompletedName(name, part) || StartsWith(s, CompletedName(name, part) + ".")
  }

  /** `incoming_file_exists`. */
  predicate IncomingExists(files: Files, name: string, part: nat) {
    Incoming(name) in files || exists p :: p in files && p.Incoming? && IsFallback(p.name, name, part)
  }

  /** A file moved under any of the tried names is recognised later. */
  lemma CandidateIsRecognised(files: Files, name: string, part: nat, k: nat)
    requires Taken(files, name, part, k)
    ensures IncomingExists(files, name, part)
  {
    hide Decimal, Padded;
    var s := Candidate(name, part, k);
    if k >= 2 {
      var prefix := CompletedName(name, part) + ".";
      assert s[..|prefix|] == prefix;
    }
    assert k > 0 ==> IsFallback(s, name, part);
    assert Incoming(s) in files;
  }
}
