/** Little-endian integers, as `to_le_bytes` and `from_le_bytes`. */
module LittleEndian {
  import opened Bits

  /** The low n bytes of a number, least significant first. */
  function ToLe(v: nat, n: nat): (r: seq<Byte>)
    ensures |r| == n
    decreases n
  {
    if n == 0 then [] else [v % 256] + ToLe(v / 256, n - 1)
  }

  function FromLe(s: seq<Byte>): nat {
    if s == [] then 0 else s[0] + 256 * FromLe(s[1..])
  }

  function Pow256(n: nat): (p: nat)
    ensures p > 0
  {
    if n == 0 then 1 else 256 * Pow256(n - 1)
  }

  lemma Pow256Values()
    ensures Pow256(1) == 0x100 && Pow256(2) == 0x1_0000 && Pow256(4) == 0x1_0000_0000
    ensures Pow256(8) == 0x1_0000_0000_0000_0000
  {
    assert Pow256(0) == 1;
    assert Pow256(3) == 256 * Pow256(2) && Pow256(5) == 256 * Pow256(4);
    assert Pow256(6) == 256 * Pow256(5) && Pow256(7) == 256 * Pow256(6);
  }

  /** Reading back what was written gives the number, and the number stays in its width. */
  lemma {:induction false} FromToLe(v: nat, n: nat)
    requires v < Pow256(n)
    ensures FromLe(ToLe(v, n)) == v
  {
    if n > 0 {
      FromToLe(v / 256, n - 1);
      assert ToLe(v, n)[1..] == ToLe(v / 256, n - 1);
    }
  }

  lemma FirstByte(s: seq<Byte>)
    requires s != []
    ensures FromLe(s) == s[0] + 256 * FromLe(s[1..]) && FromLe(s) % 256 == s[0] && FromLe(s) / 256 == FromLe(s[1..])
    ensures Pow256(|s|) == 256 * Pow256(|s| - 1)
  {
  }

  lemma {:induction false} ToFromLe(s: seq<Byte>)
    ensures FromLe(s) < Pow256(|s|)
    ensures ToLe(FromLe(s), |s|) == s
  {
    if s != [] {
      ToFromLe(s[1..]);
      assert s == [s[0]] + s[1..];
      hide FromLe, Pow256;
      FirstByte(s);
    }
  }

  /** Four bytes, least significant first. */
  lemma WordBytes(v: nat, a: Byte, b: Byte, c: Byte, d: Byte)
    requires v == a as int + 256 * (b as int + 256 * (c as int + 256 * d as int))
    ensures ToLe(v, 4) == [a, b, c, d]
  {
    hide ToLe;
    var w2 := c as int + 256 * d as int;
    var w1 := b as int + 256 * w2;
    LowByte(v, a, w1, 3);
    LowByte(w1, b, w2, 2);
    LowByte(w2, c, d, 1);
    LowByte(d, d, 0, 0);
    assert ToLe(0, 0) == [];
  }

  lemma LowByte(v: nat, low: Byte, rest: nat, n: nat)
    requires v == low as int + 256 * rest
    ensures ToLe(v, n + 1) == [low] + ToLe(rest, n)
  {
  }
}
