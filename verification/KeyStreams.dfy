/** The stream cipher by its laws: what one step and one round of the key schedule do to the
    entries of the table, and the stream of the table of all bytes in order. */
module KeyStreams {
  import opened Bits
  import opened Rc4s

  /** One step: the two indices move on, the entries at the new indices are exchanged, all
      others stay, and the byte given is the entry at their sum in the table after that. */
  lemma StepLaw(st: State)
    requires |st.s| == 256
    ensures
        var (after, b) := Step(st);
        && after.i == (st.i as int + 1) % 256 && after.j == (st.j as int + st.s[after.i] as int) % 256
        && after.s[after.i] == st.s[after.j] && after.s[after.j] == st.s[after.i]
        && (forall k :: 0 <= k < 256 && k != after.i && k != after.j ==> after.s[k] == st.s[k])
        && b == after.s[(after.s[after.i] as int + after.s[after.j] as int) % 256]
  {
  }

  /** One round of the key schedule, which starts from the table of all bytes in order. */
  lemma RoundLaw(key: seq<Byte>, n: nat)
    requires |key| > 0 && n < 256
    ensures
        var (before, j) := Schedule(key, n);
        var (after, at) := Schedule(key, n + 1);
        && at == (j as int + before[n] as int + key[n % |key|] as int) % 256
        && after[n] == before[at] && after[at] == before[n]
        && (forall k :: 0 <= k < 256 && k != n && k != at ==> after[k] == before[k])
    ensures Schedule(key, 0).1 == 0 && forall k :: 0 <= k < 256 ==> Schedule(key, 0).0[k] == k
    ensures Initial(key).s == Schedule(key, 256).0 && Initial(key).i == 0 && Initial(key).j == 0
  {
    NextRound(key, n, KeyByte(key, n));
    NothingScheduled(key);
    hide Schedule;
    var (before, j) := Schedule(key, n);
    AddTwice(j, before[n], KeyByte(key, n));
  }

  function KeyByte(key: seq<Byte>, n: nat): Byte
    requires |key| > 0
  {
    key[n % |key|]
  }

  lemma NextRound(key: seq<Byte>, n: nat, b: Byte)
    requires |key| > 0 && n < 256 && b == KeyByte(key, n)
    ensures
        var (s, j) := Schedule(key, n);
        var k := Add(Add(j, s[n]), b);
        Schedule(key, n + 1) == (Swapped(s, n, k), k)
  {
    hide Add, Swapped;
  }

  lemma NothingScheduled(key: seq<Byte>)
    requires |key| > 0
    ensures Schedule(key, 0) == (Identity(256), 0)
  {
  }

  lemma AddTwice(a: Byte, b: Byte, c: Byte)
    ensures Add(Add(a, b), c) == (a as int + b as int + c as int) % 256
  {
  }

  /** The stream of the table of all bytes in order. */
  lemma IdentityStream()
    ensures KeyStream(State(Identity(256), 0, 0), 3) == [2, 5, 7]
  {
    var st0 := State(Identity(256), 0, 0);
    var st1, st2 := After(st0, 1), After(st0, 2);
    StreamNext(st0, 0);
    StreamNext(st0, 1);
    StreamNext(st0, 2);
    NoStream(st0);
    hide Step, KeyStream, After;
    StepLaw(st0);
    StepLaw(st1);
    StepLaw(st2);
    assert st1.i == 1 && st1.j == 1 && Step(st0).1 == 2;
    assert st2.i == 2 && st2.j == 3 && Step(st1).1 == 5;
    assert Step(st2).1 == 7;
  }
}
