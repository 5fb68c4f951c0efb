/** The obfuscation of Kad datagrams: `src/kad/udp_crypto.rs`. MD5 and the random bytes are
    parameters; verify keys are 32-bit numbers. */
module UdpCrypto {
  import opened Wrappers
  import opened Bits
  import opened LittleEndian
  import opened Rc4s
  import Xors

  const HEADER_WITHOUT_PADDING: nat := 8
  const MAGIC: nat := 0x395F2EC1
  const U32: nat := 0x1_0000_0000

  /** The first bytes of plain packets. */
  const PLAIN: set<Byte> := {0x01, 0x02, 0x03, 0x04, 0x05, 0x06, 0xA3, 0xB2}

  /** A 16-byte digest of any input. */
  type Digest = f: seq<Byte> -> seq<Byte> | forall x :: |f(x)| == 16
    witness x => seq(16, _ => 0)

  type Pair = s: seq<Byte> | |s| == 2 witness [0, 0]

  datatype Decrypted = Decrypted(payload: seq<Byte>, receiverKey: nat, senderKey: nat, wasObfuscated: bool)

  /** The generator for a packet keyed by the receiver's node identifier (in wire order). */
  ghost function NodeState(md5: Digest, id: seq<Byte>, part: seq<Byte>): (st: State)
    ensures |st.s| == 256
  {
    Initial(md5(id + part))
  }

  /** The generator for a packet keyed by the receiver's verify key. */
  ghost function ReceiverState(md5: Digest, receiverKey: nat, part: seq<Byte>): (st: State)
    ensures |st.s| == 256
  {
    Initial(md5(ToLe(receiverKey, 4) + part))
  }

  /** What is encrypted: magic value, padding length 0, both verify keys, payload. */
  function Inside(plain: seq<Byte>, receiverKey: nat, senderKey: nat): seq<Byte> {
    ToLe(MAGIC, 4) + ([0] + (ToLe(receiverKey, 4) + (ToLe(senderKey, 4) + plain)))
  }

  function Sealed(st: State, marker: Byte, part: Pair, plain: seq<Byte>, receiverKey: nat, senderKey: nat): seq<Byte>
    requires |st.s| == 256
  {
    [marker] + part + Crypt(st, Inside(plain, receiverKey, senderKey))
  }

  /** The marker the source draws: of at most 128 random bytes, the first that, with its low
      bits fixed, does not look like a plain packet. */
  method ChooseMarker(receiverKeyUsed: bool, draws: seq<Byte>) returns (m: Byte)
    requires |draws| == 128
    ensures m !in PLAIN && m % 2 == 0
    ensures m != 0 ==> (m / 2 % 2 == 1 <==> receiverKeyUsed)
    ensures forall k :: 0 <= k < 128 && FirstUsable(draws, k, receiverKeyUsed) ==> m == Shape(draws[k], receiverKeyUsed)
  {
    for k := 0 to 128
      invariant forall j :: 0 <= j < k ==> Shape(draws[j], receiverKeyUsed) in PLAIN
    {
      m := Shape(draws[k], receiverKeyUsed);
      if m !in PLAIN {
        return;
      }
    }
    return 0;
  }

  ghost predicate FirstUsable(draws: seq<Byte>, k: nat, receiverKeyUsed: bool)
    requires k < |draws|
  {
    && Shape(draws[k], receiverKeyUsed) !in PLAIN
    && forall j :: 0 <= j < k ==> Shape(draws[j], receiverKeyUsed) in PLAIN
  }

  /** Bit 0 cleared; bit 1 says whether the receiver key was used. */
  function Shape(b: Byte, receiverKeyUsed: bool): (m: Byte)
    ensures m % 2 == 0 && (m / 2 % 2 == 1 <==> receiverKeyUsed) && m / 4 == b / 4
  {
    b - b % 4 + if receiverKeyUsed then 2 else 0
  }

  /** One piece of a packet through the cipher, in a buffer of its own. */
  method CryptPiece(rc4: Rc4, piece: seq<Byte>) returns (out: seq<Byte>)
    requires rc4.Valid()
    modifies rc4, rc4.s
    ensures rc4.Valid() && rc4.Now() == After(old(rc4.Now()), |piece|)
    ensures out == Crypt(old(rc4.Now()), piece)
  {
    hide After, Crypt;
    var buffer := new Byte[|piece|](k requires 0 <= k < |piece| => piece[k]);
    assert buffer[..] == piece;
    rc4.Apply(buffer);
    out := buffer[..];
  }

  /** The common part of the two encrypting functions. */
  method SealPacket(key: seq<Byte>, marker: Byte, part: Pair, plain: seq<Byte>, receiverKey: nat, senderKey: nat)
    returns (out: seq<Byte>)
    requires |key| == 16
    ensures out == Sealed(Initial(key), marker, part, plain, receiverKey, senderKey)
  {
    hide Initial, After, Crypt, ToLe;
    var rc4 := new Rc4(key);
    ghost var st := rc4.Now();
    var magic := CryptPiece(rc4, ToLe(MAGIC, 4));
    var pad := CryptPiece(rc4, [0]);
    var rvk := CryptPiece(rc4, ToLe(receiverKey, 4));
    var svk := CryptPiece(rc4, ToLe(senderKey, 4));
    var payload := CryptPiece(rc4, plain);
    CryptInside(st, plain, receiverKey, senderKey);
    var crypted := magic + (pad + (rvk + (svk + payload)));
    out := [marker] + part + crypted;
  }

  method EncryptKadPacket(md5: Digest, plain: seq<Byte>, id: seq<Byte>, receiverKey: nat, senderKey: nat, part: Pair, draws: seq<Byte>)
    returns (out: seq<Byte>, ghost marker: Byte)
    requires |draws| == 128
    ensures marker !in PLAIN
    ensures out == Sealed(NodeState(md5, id, part), marker, part, plain, receiverKey, senderKey)
  {
    hide Initial, Sealed;
    var m := ChooseMarker(false, draws);
    marker := m;
    out := SealPacket(md5(id + part), m, part, plain, receiverKey, senderKey);
  }

  method EncryptKadPacketWithReceiverKey(md5: Digest, plain: seq<Byte>, receiverKey: nat, senderKey: nat, part: Pair, draws: seq<Byte>)
    returns (out: seq<Byte>, ghost marker: Byte)
    requires |draws| == 128
    ensures marker !in PLAIN
    ensures out == Sealed(ReceiverState(md5, receiverKey, part), marker, part, plain, receiverKey, senderKey)
  {
    hide Initial, Sealed, ToLe;
    var m := ChooseMarker(true, draws);
    marker := m;
    out := SealPacket(md5(ToLe(receiverKey, 4) + part), m, part, plain, receiverKey, senderKey);
  }

  /** The encrypted pieces one after the other. */
  function Pieces(st: State, plain: seq<Byte>, receiverKey: nat, senderKey: nat): seq<Byte>
    requires |st.s| == 256
  {
    var st1 := After(st, 4);
    var st2 := After(st1, 1);
    var st3 := After(st2, 4);
    var st4 := After(st3, 4);
    Crypt(st, ToLe(MAGIC, 4))
    + (Crypt(st1, [0]) + (Crypt(st2, ToLe(receiverKey, 4)) + (Crypt(st3, ToLe(senderKey, 4)) + Crypt(st4, plain))))
  }

  lemma CryptInside(st: State, plain: seq<Byte>, receiverKey: nat, senderKey: nat)
    requires |st.s| == 256
    ensures Crypt(st, Inside(plain, receiverKey, senderKey)) == Pieces(st, plain, receiverKey, senderKey)
  {
    hide Crypt, After, ToLe;
    var st1 := After(st, 4);
    var st2 := After(st1, 1);
    var st3 := After(st2, 4);
    var r, s := ToLe(receiverKey, 4), ToLe(senderKey, 4);
    CryptConcat(st, ToLe(MAGIC, 4), [0] + (r + (s + plain)));
    CryptConcat(st1, [0], r + (s + plain));
    CryptConcat(st2, r, s + plain);
    CryptConcat(st3, s, plain);
  }

  /** `decrypt_kad_with_key`. */
  function DecryptWithState(st: State, buf: seq<Byte>): Option<Decrypted>
    requires |st.s| == 256
  {
    if |buf| < HEADER_WITHOUT_PADDING + 8 then None
    else if FromLe(Crypt(st, buf[3..7])) != MAGIC then None
    else
      var pad: nat := Crypt(After(st, 4), [buf[7]])[0];
      var at, offset := After(After(st, 5), pad), HEADER_WITHOUT_PADDING + pad;
      if |buf| < offset + 8 then None
      else
        Some(Decrypted(
               Crypt(After(at, 8), buf[offset + 8..]),
               FromLe(Crypt(at, buf[offset..offset + 4])),
               FromLe(Crypt(After(at, 4), buf[offset + 4..offset + 8])),
               true))
  }

  method DecryptKadWithKey(buf: seq<Byte>, key: seq<Byte>) returns (r: Option<Decrypted>)
    requires |key| == 16
    ensures r == DecryptWithState(Initial(key), buf)
  {
    hide Initial, After, Crypt, FromLe;
    if |buf| < HEADER_WITHOUT_PADDING + 8 {
      return None;
    }
    var rc4 := new Rc4(key);
    ghost var st := rc4.Now();
    var magic := CryptPiece(rc4, buf[3..7]);
    if FromLe(magic) != MAGIC {
      return None;
    }
    var padByte := CryptPiece(rc4, [buf[7]]);
    AfterAdd(st, 4, 1);
    var pad: nat := padByte[0];
    if pad > 0 {
      rc4.Discard(pad);
    }
    AfterNone(After(st, 5));
    var offset := HEADER_WITHOUT_PADDING + pad;
    if |buf| < offset + 8 {
      return None;
    }
    ghost var at := rc4.Now();
    var rvk := CryptPiece(rc4, buf[offset..offset + 4]);
    var svk := CryptPiece(rc4, buf[offset + 4..offset + 8]);
    AfterAdd(at, 4, 4);
    var payload := CryptPiece(rc4, buf[offset + 8..]);
    return Some(Decrypted(payload, FromLe(rvk), FromLe(svk), true));
  }

  lemma AfterAdd(st: State, m: nat, n: nat)
    requires |st.s| == 256
    ensures After(After(st, m), n) == After(st, m + n)
  {
    hide *;
    StreamConcat(st, m, n);
  }

  lemma AfterNone(st: State)
    requires |st.s| == 256
    ensures After(st, 0) == st
  {
  }

  /** One key stream undoes another exactly when the two are equal. */
  lemma UndoneExactlyWhen(a: State, b: State, data: seq<Byte>)
    requires |a.s| == 256 && |b.s| == 256
    ensures Crypt(a, Crypt(b, data)) == data <==> KeyStream(a, |data|) == KeyStream(b, |data|)
  {
    hide KeyStream, Xors.XorByte;
    var ka, kb, crypted := KeyStream(a, |data|), KeyStream(b, |data|), Crypt(b, data);
    CryptTwice(b, data);
    if Crypt(a, crypted) == data {
      forall k | 0 <= k < |data|
        ensures ka[k] == kb[k]
      {
        assert Crypt(a, crypted)[k] == Crypt(b, crypted)[k];
        Xors.XorByteCancels(crypted[k], ka[k], kb[k]);
      }
    }
  }

  lemma NumberUndoneExactlyWhen(a: State, b: State, v: nat)
    requires |a.s| == 256 && |b.s| == 256 && v < U32
    ensures FromLe(Crypt(a, Crypt(b, ToLe(v, 4)))) == v <==> KeyStream(a, 4) == KeyStream(b, 4)
  {
    hide Crypt, KeyStream, ToLe, FromLe, Pow256;
    UndoneExactlyWhen(a, b, ToLe(v, 4));
    Pow256Values();
    FromToLe(v, 4);
    ToFromLe(Crypt(a, Crypt(b, ToLe(v, 4))));
  }

  /** The stretches of a key stream that magic, padding length, keys and payload fall into. */
  lemma StreamParts(st: State, n: nat)
    requires |st.s| == 256
    ensures
        var whole := KeyStream(st, 13 + n);
        && whole[..4] == KeyStream(st, 4) && [whole[4]] == KeyStream(After(st, 4), 1)
        && whole[5..9] == KeyStream(After(st, 5), 4) && whole[9..13] == KeyStream(After(st, 9), 4)
        && whole[13..] == KeyStream(After(st, 13), n)
  {
    hide After, KeyStream;
    StreamConcat(st, 4, 1);
    StreamConcat(st, 5, 4);
    StreamConcat(st, 9, 4);
    StreamConcat(st, 13, n);
  }

  /** Where the encrypted pieces stand in a packet. */
  lemma SealedPieces(st: State, marker: Byte, part: Pair, plain: seq<Byte>, receiverKey: nat, senderKey: nat)
    requires |st.s| == 256
    ensures
        var buf := Sealed(st, marker, part, plain, receiverKey, senderKey);
        && |buf| == 16 + |plain|
        && buf[3..7] == Crypt(st, ToLe(MAGIC, 4)) && [buf[7]] == Crypt(After(st, 4), [0])
        && buf[8..12] == Crypt(After(st, 5), ToLe(receiverKey, 4))
        && buf[12..16] == Crypt(After(st, 9), ToLe(senderKey, 4)) && buf[16..] == Crypt(After(st, 13), plain)
  {
    hide Crypt, After, ToLe;
    CryptInside(st, plain, receiverKey, senderKey);
    AfterAdd(st, 4, 1);
    AfterAdd(st, 5, 4);
    AfterAdd(st, 9, 4);
  }

  /** The padding length read with generator `a` in a packet sealed with `b`. */
  lemma PaddingRead(a: State, b: State)
    requires |a.s| == 256 && |b.s| == 256
    ensures Crypt(a, Crypt(b, [0])) == [Xors.XorByte(KeyStream(b, 1)[0], KeyStream(a, 1)[0])]
  {
    hide KeyStream, Xors.XorByte;
    Xors.XorByteZero(KeyStream(b, 1)[0]);
  }

  lemma SameParts(s: seq<Byte>, t: seq<Byte>)
    requires |s| == |t| >= 13
    ensures s == t <==>
        s[..4] == t[..4] && s[4] == t[4] && s[5..9] == t[5..9] && s[9..13] == t[9..13] && s[13..] == t[13..]
  {
    assert s == s[..4] + [s[4]] + s[5..9] + s[9..13] + s[13..];
    assert t == t[..4] + [t[4]] + t[5..9] + t[9..13] + t[13..];
  }

  /** Two key streams are equal exactly when they are in all of these stretches. */
  lemma SameStreams(a: State, b: State, n: nat)
    requires |a.s| == 256 && |b.s| == 256
    ensures
        var ka, kb := KeyStream(a, 13 + n), KeyStream(b, 13 + n);
        && ka[..4] == KeyStream(a, 4) && kb[..4] == KeyStream(b, 4)
        && ka[4] == KeyStream(After(a, 4), 1)[0] && kb[4] == KeyStream(After(b, 4), 1)[0]
        && (ka == kb <==>
              && KeyStream(a, 4) == KeyStream(b, 4) && ka[4] == kb[4]
              && KeyStream(After(a, 5), 4) == KeyStream(After(b, 5), 4)
              && KeyStream(After(a, 9), 4) == KeyStream(After(b, 9), 4)
              && KeyStream(After(a, 13), n) == KeyStream(After(b, 13), n))
  {
    hide After, KeyStream;
    StreamParts(a, n);
    StreamParts(b, n);
    SameParts(KeyStream(a, 13 + n), KeyStream(b, 13 + n));
  }

  /** What is read from a packet: nothing for a wrong magic value or too much padding, and a
      payload shorter by the padding. */
  lemma ReadPieces(a: State, buf: seq<Byte>)
    requires |a.s| == 256 && |buf| >= 16
    ensures
        var r := DecryptWithState(a, buf);
        var pad: nat := Crypt(After(a, 4), [buf[7]])[0];
        && (r == None <==> FromLe(Crypt(a, buf[3..7])) != MAGIC || |buf| < 16 + pad)
        && (r.Some? ==> |r.value.payload| == |buf| - 16 - pad)
        && (r.Some? && pad == 0 ==>
              r.value == Decrypted(Crypt(After(a, 13), buf[16..]), FromLe(Crypt(After(a, 5), buf[8..12])),
                                   FromLe(Crypt(After(a, 9), buf[12..16])), true))
  {
    hide Crypt, After, FromLe;
    AfterAdd(a, 4, 1);
    AfterNone(After(a, 5));
    AfterAdd(a, 5, 4);
    AfterAdd(a, 5, 8);
  }

  /** What reading with generator `a` makes of a packet sealed with `b`, by the two key
      streams alone: it is refused when they differ under the magic value or when they make
      the padding too long, and read as it was written exactly when they are equal. */
  lemma TrialExactlyWhen(a: State, b: State, marker: Byte, part: Pair, plain: seq<Byte>, receiverKey: nat, senderKey: nat)
    requires |a.s| == 256 && |b.s| == 256 && receiverKey < U32 && senderKey < U32
    ensures
        var trial := DecryptWithState(a, Sealed(b, marker, part, plain, receiverKey, senderKey));
        var ka, kb := KeyStream(a, 13 + |plain|), KeyStream(b, 13 + |plain|);
        && (trial == None <==> ka[..4] != kb[..4] || Xors.XorByte(kb[4], ka[4]) > |plain|)
        && (trial == Some(Decrypted(plain, receiverKey, senderKey, true)) <==> ka == kb)
  {
    hide Crypt, After, ToLe, FromLe, Sealed, KeyStream, Xors.XorByte, DecryptWithState;
    var n := |plain|;
    var ka, kb := KeyStream(a, 13 + n), KeyStream(b, 13 + n);
    var buf := Sealed(b, marker, part, plain, receiverKey, senderKey);
    SealedPieces(b, marker, part, plain, receiverKey, senderKey);
    SameStreams(a, b, n);
    NumberUndoneExactlyWhen(a, b, MAGIC);
    PaddingRead(After(a, 4), After(b, 4));
    var pad: nat := Crypt(After(a, 4), [buf[7]])[0];
    assert pad == Xors.XorByte(kb[4], ka[4]);
    Xors.XorByteSame(kb[4], ka[4]);
    ReadPieces(a, buf);
    NumberUndoneExactlyWhen(After(a, 5), After(b, 5), receiverKey);
    NumberUndoneExactlyWhen(After(a, 9), After(b, 9), senderKey);
    UndoneExactlyWhen(After(a, 13), After(b, 13), plain);
  }

  /** Decrypting with the key used for encrypting gives back the payload and both keys. */
  lemma SealedOpens(st: State, marker: Byte, part: Pair, plain: seq<Byte>, receiverKey: nat, senderKey: nat)
    requires |st.s| == 256 && receiverKey < U32 && senderKey < U32
    ensures DecryptWithState(st, Sealed(st, marker, part, plain, receiverKey, senderKey))
         == Some(Decrypted(plain, receiverKey, senderKey, true))
  {
    hide *;
    TrialExactlyWhen(st, st, marker, part, plain, receiverKey, senderKey);
  }

  /** `udp_verify_key`: a digest of the two numbers, folded to 32 bits and never zero. */
  ghost function UdpVerifyKey(md5: Digest, secret: nat, target: nat): (key: nat)
    ensures 1 <= key < U32 - 1
  {
    var h := md5(ToLe(target, 4) + ToLe(secret, 4));
    var folded := Xors.Xor(Xors.Xor(Xors.Xor(FromLe(h[0..4]), FromLe(h[4..8]), 32), FromLe(h[8..12]), 32), FromLe(h[12..16]), 32);
    folded % 0xFFFF_FFFE + 1
  }

  ghost predicate LooksPlain(buf: seq<Byte>) {
    |buf| <= HEADER_WITHOUT_PADDING || buf[0] in PLAIN
  }

  /** What `decrypt_kad_packet` makes of a datagram: plain packets as they are, then the key
      of our identifier is tried, then our receiver key for that sender. */
  ghost function Opened(md5: Digest, buf: seq<Byte>, id: seq<Byte>, secret: nat, from: nat): Option<Decrypted> {
    if LooksPlain(buf) then Some(Decrypted(buf, 0, 0, false))
    else
      var trial := DecryptWithState(NodeState(md5, id, buf[1..3]), buf);
      if trial.Some? then trial
      else DecryptWithState(ReceiverState(md5, UdpVerifyKey(md5, secret, from), buf[1..3]), buf)
  }

  method VerifyKey(md5: Digest, secret: nat, target: nat) returns (key: nat)
    ensures key == UdpVerifyKey(md5, secret, target)
  {
    hide FromLe, ToLe, Xors.Xor;
    var h := md5(ToLe(target, 4) + ToLe(secret, 4));
    var a, b, c, d := FromLe(h[0..4]), FromLe(h[4..8]), FromLe(h[8..12]), FromLe(h[12..16]);
    key := Xors.Xor(Xors.Xor(Xors.Xor(a, b, 32), c, 32), d, 32) % 0xFFFF_FFFE + 1;
  }

  method DecryptKadPacket(md5: Digest, buf: seq<Byte>, id: seq<Byte>, secret: nat, from: nat) returns (r: Option<Decrypted>)
    ensures r == Opened(md5, buf, id, secret, from)
  {
    hide DecryptWithState, ToLe, Initial, UdpVerifyKey;
    if |buf| <= HEADER_WITHOUT_PADDING || buf[0] in PLAIN {
      return Some(Decrypted(buf, 0, 0, false));
    }
    var part := buf[1..3];
    r := DecryptKadWithKey(buf, md5(id + part));
    if r.Some? {
      return;
    }
    var receiverKey := VerifyKey(md5, secret, from);
    r := DecryptKadWithKey(buf, md5(ToLe(receiverKey, 4) + part));
  }

  lemma SealedShape(st: State, marker: Byte, part: Pair, plain: seq<Byte>, receiverKey: nat, senderKey: nat)
    requires |st.s| == 256 && marker !in PLAIN
    ensures
        var buf := Sealed(st, marker, part, plain, receiverKey, senderKey);
        !LooksPlain(buf) && buf[1..3] == part
  {
    hide Crypt, ToLe;
  }

  /** A packet encrypted to our identifier is opened, whatever its payload and keys are and
      whoever sends it. */
  lemma NodeRoundTrip(md5: Digest, plain: seq<Byte>, id: seq<Byte>, receiverKey: nat, senderKey: nat, part: Pair,
                      marker: Byte, secret: nat, from: nat)
    requires marker !in PLAIN && receiverKey < U32 && senderKey < U32
    ensures Opened(md5, Sealed(NodeState(md5, id, part), marker, part, plain, receiverKey, senderKey), id, secret, from)
         == Some(Decrypted(plain, receiverKey, senderKey, true))
  {
    hide Sealed, DecryptWithState, NodeState, ReceiverState, UdpVerifyKey;
    var st := NodeState(md5, id, part);
    SealedShape(st, marker, part, plain, receiverKey, senderKey);
    SealedOpens(st, marker, part, plain, receiverKey, senderKey);
  }

  /** A packet encrypted with our verify key for its sender is opened exactly when the key
      stream of our identifier, which is tried first, differs from its own in the first four
      bytes, or makes the padding look longer than the payload, or is equal throughout. */
  lemma ReceiverRoundTrip(md5: Digest, plain: seq<Byte>, id: seq<Byte>, senderKey: nat, part: Pair,
                          marker: Byte, secret: nat, from: nat)
    requires marker !in PLAIN && senderKey < U32
    ensures
        var receiverKey := UdpVerifyKey(md5, secret, from);
        var buf := Sealed(ReceiverState(md5, receiverKey, part), marker, part, plain, receiverKey, senderKey);
        var ours := KeyStream(NodeState(md5, id, part), 13 + |plain|);
        var theirs := KeyStream(ReceiverState(md5, receiverKey, part), 13 + |plain|);
        Opened(md5, buf, id, secret, from) == Some(Decrypted(plain, receiverKey, senderKey, true)) <==>
          || ours[..4] != theirs[..4]
          || Xors.XorByte(theirs[4], ours[4]) > |plain|
          || ours == theirs
  {
    hide Sealed, DecryptWithState, NodeState, ReceiverState, UdpVerifyKey, KeyStream, Xors.XorByte;
    var receiverKey := UdpVerifyKey(md5, secret, from);
    var st := ReceiverState(md5, receiverKey, part);
    SealedShape(st, marker, part, plain, receiverKey, senderKey);
    SealedOpens(st, marker, part, plain, receiverKey, senderKey);
    TrialExactlyWhen(NodeState(md5, id, part), st, marker, part, plain, receiverKey, senderKey);
  }
}
