/** The stream cipher of `src/kad/udp_crypto.rs`, with the wrap-around of its byte arithmetic. */
module Rc4s {
  import opened Bits
  import opened Xors
  import opened Collections

  /** The table and the two indices. */
  datatype State = State(s: seq<Byte>, i: Byte, j: Byte)

  ghost predicate Permutation(s: seq<Byte>) {
    |s| == 256 && forall a, b :: 0 <= a < b < 256 ==> s[a] != s[b]
  }

  function Swapped(s: seq<Byte>, a: Byte, b: Byte): (r: seq<Byte>)
    requires |s| == 256
    ensures |r| == 256
  {
    s[a := s[b]][b := s[a]]
  }

  lemma SwapKeeps(s: seq<Byte>, a: Byte, b: Byte)
    requires Permutation(s)
    ensures Permutation(Swapped(s, a, b))
  {
  }

  /** `wrapping_add`. */
  function Add(a: Byte, b: Byte): Byte {
    (a as int + b as int) % 256
  }

  /** One step of the generator: the next state and the byte it gives. */
  function Step(st: State): (r: (State, Byte))
    requires |st.s| == 256
    ensures |r.0.s| == 256
  {
    var i := Add(st.i, 1);
    var j := Add(st.j, st.s[i]);
    var s := Swapped(st.s, i, j);
    (State(s, i, j), s[Add(s[i], s[j])])
  }

  function After(st: State, n: nat): (r: State)
    requires |st.s| == 256
    ensures |r.s| == 256
  {
    if n == 0 then st else Step(After(st, n - 1)).0
  }

  function KeyStream(st: State, n: nat): (r: seq<Byte>)
    requires |st.s| == 256
    ensures |r| == n
  {
    if n == 0 then [] else KeyStream(st, n - 1) + [Step(After(st, n - 1)).1]
  }

  function Xor(data: seq<Byte>, key: seq<Byte>): (r: seq<Byte>)
    requires |data| == |key|
    ensures |r| == |data|
  {
    seq(|data|, k requires 0 <= k < |data| => XorByte(data[k], key[k]))
  }

  function Crypt(st: State, data: seq<Byte>): (r: seq<Byte>)
    requires |st.s| == 256
    ensures |r| == |data|
  {
    Xor(data, KeyStream(st, |data|))
  }

  /** The table stays a permutation of all bytes. */
  lemma {:induction false} StaysPermutation(st: State, n: nat)
    requires Permutation(st.s)
    ensures Permutation(After(st, n).s)
  {
    hide Permutation;
    PermutationSize(st.s);
    if n > 0 {
      StaysPermutation(st, n - 1);
      var before := After(st, n - 1);
      var i := Add(before.i, 1);
      SwapKeeps(before.s, i, Add(before.j, before.s[i]));
    }
  }

  lemma PermutationSize(s: seq<Byte>)
    requires Permutation(s)
    ensures |s| == 256
  {
  }

  lemma StreamNext(st: State, n: nat)
    requires |st.s| == 256
    ensures After(st, n + 1) == Step(After(st, n)).0
    ensures KeyStream(st, n + 1) == KeyStream(st, n) + [Step(After(st, n)).1]
  {
    hide Step;
  }

  /** Going on from a later state gives the rest of the same stream. */
  lemma {:induction false} StreamConcat(st: State, m: nat, n: nat)
    requires |st.s| == 256
    ensures After(st, m + n) == After(After(st, m), n)
    ensures KeyStream(st, m + n) == KeyStream(st, m) + KeyStream(After(st, m), n)
    decreases n
  {
    hide Step, After, KeyStream;
    NoStream(After(st, m));
    if n == 0 {
      assert KeyStream(st, m) + [] == KeyStream(st, m);
    } else {
      StreamConcat(st, m, n - 1);
      StreamGrows(st, m, n - 1);
    }
  }

  lemma StreamGrows(st: State, m: nat, n: nat)
    requires |st.s| == 256
    requires After(st, m + n) == After(After(st, m), n)
    requires KeyStream(st, m + n) == KeyStream(st, m) + KeyStream(After(st, m), n)
    ensures After(st, m + n + 1) == After(After(st, m), n + 1)
    ensures KeyStream(st, m + n + 1) == KeyStream(st, m) + KeyStream(After(st, m), n + 1)
  {
    hide Step, After, KeyStream;
    StreamNext(st, m + n);
    StreamNext(After(st, m), n);
    Associative(KeyStream(st, m), KeyStream(After(st, m), n), [Step(After(st, m + n)).1]);
  }

  lemma NoStream(st: State)
    requires |st.s| == 256
    ensures After(st, 0) == st && KeyStream(st, 0) == []
  {
  }

  lemma XorConcat(a: seq<Byte>, b: seq<Byte>, k: seq<Byte>, l: seq<Byte>)
    requires |a| == |k| && |b| == |l|
    ensures Xor(a + b, k + l) == Xor(a, k) + Xor(b, l)
  {
    hide XorByte;
  }

  /** Encrypting piece by piece is encrypting the whole. */
  lemma CryptConcat(st: State, a: seq<Byte>, b: seq<Byte>)
    requires |st.s| == 256
    ensures Crypt(st, a + b) == Crypt(st, a) + Crypt(After(st, |a|), b)
  {
    hide *;
    CryptPieces(st, a, b, a + b, |a|, |b|);
  }

  lemma CryptPieces(st: State, a: seq<Byte>, b: seq<Byte>, ab: seq<Byte>, m: nat, n: nat)
    requires |st.s| == 256
    requires m == |a| && n == |b| && ab == a + b
    ensures Crypt(st, ab) == Crypt(st, a) + Crypt(After(st, m), b)
  {
    hide *;
    CryptIs(st, a);
    CryptIs(After(st, m), b);
    CryptIs(st, ab);
    StreamConcat(st, m, n);
    assert |ab| == m + n;
    assert KeyStream(st, |ab|) == KeyStream(st, m) + KeyStream(After(st, m), n);
    XorConcat(a, b, KeyStream(st, m), KeyStream(After(st, m), n));
  }

  lemma CryptIs(st: State, data: seq<Byte>)
    requires |st.s| == 256
    ensures Crypt(st, data) == Xor(data, KeyStream(st, |data|))
  {
  }

  /** Encrypting twice from the same state gives the data back. */
  lemma CryptTwice(st: State, data: seq<Byte>)
    requires |st.s| == 256
    ensures Crypt(st, Crypt(st, data)) == data
  {
    hide KeyStream, XorByte;
    var key := KeyStream(st, |data|);
    forall k | 0 <= k < |data|
      ensures XorByte(XorByte(data[k], key[k]), key[k]) == data[k]
    {
      XorByteTwice(data[k], key[k]);
    }
  }

  function Identity(n: nat): (s: seq<Byte>)
    requires n <= 256
    ensures |s| == n && forall k :: 0 <= k < n ==> s[k] == k
  {
    seq(n, k requires 0 <= k < n => k)
  }

  /** The first n rounds of the key schedule. */
  function Schedule(key: seq<Byte>, n: nat): (r: (seq<Byte>, Byte))
    requires |key| > 0 && n <= 256
    ensures |r.0| == 256
  {
    if n == 0 then (Identity(256), 0)
    else
      var (s, j) := Schedule(key, n - 1);
      var k := Add(Add(j, s[n - 1]), key[(n - 1) % |key|]);
      (Swapped(s, n - 1, k), k)
  }

  function Initial(key: seq<Byte>): (st: State)
    requires |key| > 0
    ensures |st.s| == 256
  {
    State(Schedule(key, 256).0, 0, 0)
  }

  lemma {:induction false} ScheduleIsPermutation(key: seq<Byte>, n: nat)
    requires |key| > 0 && n <= 256
    ensures Permutation(Schedule(key, n).0)
  {
    hide Permutation;
    if n == 0 {
      IdentityIsPermutation();
    } else {
      ScheduleIsPermutation(key, n - 1);
      var (s, j) := Schedule(key, n - 1);
      SwapKeeps(s, n - 1, Add(Add(j, s[n - 1]), key[(n - 1) % |key|]));
    }
  }

  lemma IdentityIsPermutation()
    ensures Permutation(Identity(256))
  {
  }

  /** Whatever the key and however far the stream has run, the table is a permutation. */
  lemma AlwaysPermutation(key: seq<Byte>, n: nat)
    requires |key| > 0
    ensures Permutation(After(Initial(key), n).s)
  {
    ScheduleIsPermutation(key, 256);
    StaysPermutation(Initial(key), n);
  }

  class Rc4 {
    const s: array<Byte>
    var i: Byte
    var j: Byte

    ghost predicate Valid()
      reads this
    {
      s.Length == 256
    }

    ghost function Now(): State
      requires Valid()
      reads this, s
    {
      State(s[..], i, j)
    }

    constructor (key: seq<Byte>)
      requires |key| == 16
      ensures Valid() && fresh(s) && Now() == Initial(key)
    {
      var table := new Byte[256](k requires 0 <= k < 256 => k);
      s := table;
      i, j := 0, 0;
      new;
      var at: Byte := 0;
      assert s[..] == Identity(256);
      for n := 0 to 256
        invariant (s[..], at) == Schedule(key, n)
        invariant i == 0 && j == 0 && Valid() && fresh(s)
        modifies s
      {
        ghost var before := s[..];
        at := Add(Add(at, s[n]), key[n % 16]);
        s[n], s[at] := s[at], s[n];
        assert s[..] == Swapped(before, n, at);
      }
    }

    /** The next byte of the stream. */
    method Next() returns (b: Byte)
      requires Valid()
      modifies this, s
      ensures Valid()
      ensures (Now(), b) == Step(old(Now()))
    {
      ghost var before := s[..];
      i := Add(i, 1);
      j := Add(j, s[i]);
      s[i], s[j] := s[j], s[i];
      assert s[..] == Swapped(before, i, j);
      b := s[Add(s[i], s[j])];
    }

    /** Encrypts a buffer in place. */
    method Apply(data: array<Byte>)
      requires Valid() && data != s
      modifies this, s, data
      ensures Valid() && Now() == After(old(Now()), data.Length)
      ensures data[..] == Crypt(old(Now()), old(data[..]))
    {
      hide Step, XorByte;
      ghost var st := Now();
      for k := 0 to data.Length
        invariant Valid() && Now() == After(st, k)
        invariant forall m :: 0 <= m < k ==> data[m] == XorByte(old(data[m]), KeyStream(st, k)[m])
        invariant forall m :: k <= m < data.Length ==> data[m] == old(data[m])
      {
        var b := Next();
        data[k] := XorByte(data[k], b);
      }
    }

    /** Skips n bytes of the stream. */
    method Discard(n: nat)
      requires Valid()
      modifies this, s
      ensures Valid() && Now() == After(old(Now()), n)
    {
      hide Step;
      for k := 0 to n
        invariant Valid() && Now() == After(old(Now()), k)
      {
        var b := Next();
      }
    }
  }
}
