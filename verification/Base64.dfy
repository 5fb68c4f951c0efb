/** The base64 variant of I2P (`src/i2p/b64.rs`): the bit packing of RFC 4648 section 4 with
    `-` and `~` as the last two letters. Texts are sequences of ASCII codes. */
module Base64 {
  import opened Wrappers
  import opened Bits

  const PAD: Byte := 61

  datatype B64Error = InvalidLength | InvalidCharacter

  /** `ALPHABET[v]`. */
  function Letter(v: nat): (b: Byte)
    requires v < 64
    ensures b != PAD && !Blank(b)
  {
    if v < 26 then 65 + v else if v < 52 then 97 + (v - 26) else if v < 62 then 48 + (v - 52)
    else if v == 62 then 45 else 126
  }

  /** The value of a letter, or 255. */
  function ValueOf(b: Byte): (v: Byte)
    ensures v < 64 || v == 255
  {
    if 65 <= b <= 90 then b - 65 else if 97 <= b <= 122 then b - 97 + 26 else if 48 <= b <= 57 then b - 48 + 52
    else if b == 45 then 62 else if b == 126 then 63 else 255
  }

  lemma LetterValue(v: nat)
    requires v < 64
    ensures ValueOf(Letter(v)) == v
  {
  }

  lemma ValueLetter(b: Byte, v: nat)
    requires v < 64
    ensures ValueOf(b) == v <==> b == Letter(v)
  {
  }

  predicate Blank(b: Byte) {
    b == 32 || b == 9 || b == 10 || b == 12 || b == 13
  }

  function Encode3(b0: Byte, b1: Byte, b2: Byte): seq<Byte> {
    [Letter(b0 / 4), Letter(b0 % 4 * 16 + b1 / 16), Letter(b1 % 16 * 4 + b2 / 64), Letter(b2 % 64)]
  }

  function Encode(s: seq<Byte>): seq<Byte> {
    if s == [] then []
    else if |s| == 1 then [Letter(s[0] / 4), Letter(s[0] % 4 * 16), PAD, PAD]
    else if |s| == 2 then [Letter(s[0] / 4), Letter(s[0] % 4 * 16 + s[1] / 16), Letter(s[1] % 16 * 4), PAD]
    else Encode3(s[0], s[1], s[2]) + Encode(s[3..])
  }

  /** `encode`. */
  method EncodeText(input: seq<Byte>) returns (out: seq<Byte>)
    ensures out == Encode(input)
  {
    hide Encode3, Letter;
    if input == [] {
      return [];
    }
    out := [];
    var i := 0;
    assert input[0..] == input;
    while i + 3 <= |input|
      invariant i <= |input| && out + Encode(input[i..]) == Encode(input)
      decreases |input| - i
    {
      var rest := input[i..];
      assert rest[3..] == input[i + 3..];
      var group := Encode3(input[i], input[i + 1], input[i + 2]);
      assert out + (group + Encode(rest[3..])) == out + group + Encode(rest[3..]);
      out := out + group;
      i := i + 3;
    }
    var rem := |input| - i;
    if rem == 1 {
      var b0 := input[i];
      out := out + [Letter(b0 / 4), Letter(b0 % 4 * 16), PAD, PAD];
    } else if rem == 2 {
      var b0, b1 := input[i], input[i + 1];
      out := out + [Letter(b0 / 4), Letter(b0 % 4 * 16 + b1 / 16), Letter(b1 % 16 * 4), PAD];
    } else {
      assert out + [] == out;
    }
  }

  /** `decode_char`: padding counts as zero wherever it stands. */
  function DecodeChar(b: Byte): Option<Byte> {
    if b == PAD then Some(0) else if ValueOf(b) == 255 then None else Some(ValueOf(b))
  }

  function First(v0: Byte, v1: Byte): Byte {
    v0 % 64 * 4 + v1 / 16 % 4
  }

  function Second(v1: Byte, v2: Byte): Byte {
    v1 % 16 * 16 + v2 / 4 % 16
  }

  function Third(v2: Byte, v3: Byte): Byte {
    v2 % 4 * 64 + v3 % 64
  }

  /** A group of four characters: unreadable, the padded end, or three bytes. */
  datatype Group = Unreadable | End(bytes: seq<Byte>) | Full(bytes: seq<Byte>)

  function GroupOf(c0: Byte, c1: Byte, c2: Byte, c3: Byte): Group {
    var d0, d1, d2, d3 := DecodeChar(c0), DecodeChar(c1), DecodeChar(c2), DecodeChar(c3);
    if d0.None? || d1.None? then Unreadable
    else if c2 == PAD && c3 == PAD then End([First(d0.value, d1.value)])
    else if d2.None? then Unreadable
    else if c3 == PAD then End([First(d0.value, d1.value), Second(d1.value, d2.value)])
    else if d3.None? then Unreadable
    else Full([First(d0.value, d1.value), Second(d1.value, d2.value), Third(d2.value, d3.value)])
  }

  /** Groups of four; a padded group ends the text, whatever follows. */
  function DecodeGroups(c: seq<Byte>): Option<seq<Byte>> {
    if |c| < 4 then Some([])
    else
      match GroupOf(c[0], c[1], c[2], c[3])
      case Unreadable => None
      case End(bytes) => Some(bytes)
      case Full(bytes) =>
        match DecodeGroups(c[4..])
        case None => None
        case Some(rest) => Some(bytes + rest)
  }

  function Cleaned(s: seq<Byte>): seq<Byte> {
    if s == [] then [] else Cleaned(s[..|s| - 1]) + if Blank(s[|s| - 1]) then [] else [s[|s| - 1]]
  }

  function Decode(s: seq<Byte>): Result<seq<Byte>, B64Error> {
    if |Cleaned(s)| % 4 != 0 then Failure(InvalidLength)
    else
      match DecodeGroups(Cleaned(s))
      case None => Failure(InvalidCharacter)
      case Some(out) => Success(out)
  }

  /** The reverse table, filled from the alphabet. */
  method ReverseTable() returns (rev: array<Byte>)
    ensures rev.Length == 256 && fresh(rev)
    ensures forall b: Byte :: rev[b] == ValueOf(b)
  {
    rev := new Byte[256](_ => 255);
    for v := 0 to 64
      invariant forall b: Byte :: rev[b] == if ValueOf(b) < v then ValueOf(b) else 255
    {
      forall b: Byte
        ensures ValueOf(b) == v <==> b == Letter(v)
      {
        ValueLetter(b, v);
      }
      rev[Letter(v)] := v;
    }
  }

  method CleanText(s: seq<Byte>) returns (cleaned: seq<Byte>)
    ensures cleaned == Cleaned(s)
  {
    cleaned := [];
    for i := 0 to |s|
      invariant cleaned == Cleaned(s[..i])
    {
      assert s[..i + 1][..i] == s[..i];
      if !Blank(s[i]) {
        cleaned := cleaned + [s[i]];
      }
    }
    assert s[..|s|] == s;
  }

  method DecodeOne(rev: array<Byte>, b: Byte) returns (r: Result<Byte, B64Error>)
    requires rev.Length == 256 && forall c: Byte :: rev[c] == ValueOf(c)
    ensures r.Success? <==> DecodeChar(b).Some?
    ensures r.Success? ==> r.value == DecodeChar(b).value
    ensures r.Failure? ==> r.error == InvalidCharacter
  {
    if b == PAD {
      return Success(0);
    }
    if rev[b] == 255 {
      return Failure(InvalidCharacter);
    }
    return Success(rev[b]);
  }

  /** Reading on from here gives the whole. */
  ghost predicate Resumes(whole: Option<seq<Byte>>, out: seq<Byte>, rest: Option<seq<Byte>>) {
    (whole.Some? <==> rest.Some?) && (whole.Some? ==> whole.value == out + rest.value)
  }

  method DecodeGroup(rev: array<Byte>, c0: Byte, c1: Byte, c2: Byte, c3: Byte) returns (g: Group)
    requires rev.Length == 256 && forall c: Byte :: rev[c] == ValueOf(c)
    ensures g == GroupOf(c0, c1, c2, c3)
  {
    hide ValueOf, First, Second, Third, DecodeChar;
    var v0 := DecodeOne(rev, c0);
    if v0.Failure? {
      return Unreadable;
    }
    var v1 := DecodeOne(rev, c1);
    if v1.Failure? {
      return Unreadable;
    }
    if c2 == PAD && c3 == PAD {
      return End([First(v0.value, v1.value)]);
    }
    var v2 := DecodeOne(rev, c2);
    if v2.Failure? {
      return Unreadable;
    }
    if c3 == PAD {
      return End([First(v0.value, v1.value), Second(v1.value, v2.value)]);
    }
    var v3 := DecodeOne(rev, c3);
    if v3.Failure? {
      return Unreadable;
    }
    return Full([First(v0.value, v1.value), Second(v1.value, v2.value), Third(v2.value, v3.value)]);
  }

  /** `decode`. */
  method DecodeText(input: seq<Byte>) returns (r: Result<seq<Byte>, B64Error>)
    ensures r == Decode(input)
  {
    hide ValueOf, Cleaned, GroupOf;
    var rev := ReverseTable();
    var c := CleanText(input);
    if |c| % 4 != 0 {
      return Failure(InvalidLength);
    }
    var out: seq<Byte> := [];
    var i := 0;
    ghost var groups := |c| / 4;
    ghost var k := 0;
    assert c[0..] == c;
    assert DecodeGroups(c).Some? ==> [] + DecodeGroups(c).value == DecodeGroups(c).value;
    while i < |c|
      invariant k <= groups && i == 4 * k && |c| == 4 * groups
      invariant Resumes(DecodeGroups(c), out, DecodeGroups(c[i..]))
      invariant forall b: Byte :: rev[b] == ValueOf(b)
      decreases |c| - i
    {
      ghost var rest := c[i..];
      assert rest[4..] == c[i + 4..];
      var g := DecodeGroup(rev, c[i], c[i + 1], c[i + 2], c[i + 3]);
      if g.Unreadable? {
        return Failure(InvalidCharacter);
      }
      if g.End? {
        return Success(out + g.bytes);
      }
      assert DecodeGroups(rest[4..]).Some? ==>
        out + (g.bytes + DecodeGroups(rest[4..]).value) == out + g.bytes + DecodeGroups(rest[4..]).value;
      out := out + g.bytes;
      i := i + 4;
      k := k + 1;
    }
    assert out + [] == out;
    return Success(out);
  }

  lemma {:induction false} EncodedIsClean(s: seq<Byte>)
    ensures |Encode(s)| % 4 == 0
    ensures forall k :: 0 <= k < |Encode(s)| ==> !Blank(Encode(s)[k])
  {
    hide Letter;
    if |s| > 2 {
      EncodedIsClean(s[3..]);
    }
  }

  lemma {:induction false} CleanIsCleaned(s: seq<Byte>)
    requires forall k :: 0 <= k < |s| ==> !Blank(s[k])
    ensures Cleaned(s) == s
  {
    if s != [] {
      CleanIsCleaned(s[..|s| - 1]);
    }
  }

  lemma FirstBack(b0: Byte, b1: Byte)
    ensures First(b0 / 4, b0 % 4 * 16 + b1 / 16) == b0
  {
    var v1 := b0 % 4 * 16 + b1 / 16;
    assert b1 / 16 < 16 && v1 / 16 == b0 % 4;
  }

  lemma SecondBack(b0: Byte, b1: Byte, b2: Byte)
    ensures Second(b0 % 4 * 16 + b1 / 16, b1 % 16 * 4 + b2 / 64) == b1
  {
    var v1, v2 := b0 % 4 * 16 + b1 / 16, b1 % 16 * 4 + b2 / 64;
    assert b1 / 16 < 16 && v1 % 16 == b1 / 16;
    assert b2 / 64 < 4 && v2 / 4 == b1 % 16;
  }

  lemma ThirdBack(b1: Byte, b2: Byte)
    ensures Third(b1 % 16 * 4 + b2 / 64, b2 % 64) == b2
  {
    var v2 := b1 % 16 * 4 + b2 / 64;
    assert b2 / 64 < 4 && v2 % 4 == b2 / 64;
  }

  lemma CharBack(v: nat)
    requires v < 64
    ensures DecodeChar(Letter(v)) == Some(v)
  {
    LetterValue(v);
  }

  lemma Decode3(b0: Byte, b1: Byte, b2: Byte)
    ensures
        var v0, v1, v2, v3 := b0 / 4, b0 % 4 * 16 + b1 / 16, b1 % 16 * 4 + b2 / 64, b2 % 64;
        && First(v0, v1) == b0 && Second(v1, v2) == b1 && Third(v2, v3) == b2
        && DecodeChar(Letter(v0)) == Some(v0) && DecodeChar(Letter(v1)) == Some(v1)
        && DecodeChar(Letter(v2)) == Some(v2) && DecodeChar(Letter(v3)) == Some(v3)
  {
    hide First, Second, Third, DecodeChar, Letter;
    FirstBack(b0, b1);
    SecondBack(b0, b1, b2);
    ThirdBack(b1, b2);
    CharBack(b0 / 4);
    CharBack(b0 % 4 * 16 + b1 / 16);
    CharBack(b1 % 16 * 4 + b2 / 64);
    CharBack(b2 % 64);
  }

  lemma OneByteGroup(b0: Byte)
    ensures GroupOf(Letter(b0 / 4), Letter(b0 % 4 * 16), PAD, PAD) == End([b0])
  {
    hide Letter, First, Second, Third, DecodeChar;
    Decode3(b0, 0, 0);
    assert b0 % 4 * 16 + 0 / 16 == b0 % 4 * 16;
  }

  lemma TwoByteGroup(b0: Byte, b1: Byte)
    ensures GroupOf(Letter(b0 / 4), Letter(b0 % 4 * 16 + b1 / 16), Letter(b1 % 16 * 4), PAD) == End([b0, b1])
  {
    hide Letter, First, Second, Third, DecodeChar;
    Decode3(b0, b1, 0);
    assert b1 % 16 * 4 + 0 / 64 == b1 % 16 * 4;
    LetterIsNoPad(b1 % 16 * 4);
  }

  lemma ThreeByteGroup(b0: Byte, b1: Byte, b2: Byte)
    ensures
        var g := Encode3(b0, b1, b2);
        |g| == 4 && GroupOf(g[0], g[1], g[2], g[3]) == Full([b0, b1, b2])
  {
    hide Letter, First, Second, Third, DecodeChar;
    Decode3(b0, b1, b2);
    LetterIsNoPad(b1 % 16 * 4 + b2 / 64);
    LetterIsNoPad(b2 % 64);
  }

  lemma LetterIsNoPad(v: nat)
    requires v < 64
    ensures Letter(v) != PAD
  {
  }

  /** The first group of an encoding, and the others. */
  lemma FirstGroup(s: seq<Byte>)
    requires s != []
    ensures
        var e, n := Encode(s), if |s| < 3 then |s| else 3;
        && |e| >= 4 && e[4..] == Encode(s[n..])
        && GroupOf(e[0], e[1], e[2], e[3]) == if n < 3 then End(s) else Full(s[..3])
  {
    hide Letter, GroupOf, Encode, Encode3;
    EncodeUnfolds(s);
    if |s| == 1 {
      OneByteGroup(s[0]);
      assert s == [s[0]] && s[1..] == [];
    } else if |s| == 2 {
      TwoByteGroup(s[0], s[1]);
      assert s == [s[0], s[1]] && s[2..] == [];
    } else {
      ThreeByteGroup(s[0], s[1], s[2]);
      FourThenRest(Encode3(s[0], s[1], s[2]), Encode(s[3..]));
      assert s[..3] == [s[0], s[1], s[2]];
    }
  }

  lemma EncodeUnfolds(s: seq<Byte>)
    ensures s == [] ==> Encode(s) == []
    ensures |s| == 1 ==> Encode(s) == [Letter(s[0] / 4), Letter(s[0] % 4 * 16), PAD, PAD]
    ensures |s| == 2 ==> Encode(s) == [Letter(s[0] / 4), Letter(s[0] % 4 * 16 + s[1] / 16), Letter(s[1] % 16 * 4), PAD]
    ensures |s| >= 3 ==> Encode(s) == Encode3(s[0], s[1], s[2]) + Encode(s[3..])
    ensures Encode([]) == []
  {
    hide Letter, Encode3;
  }

  lemma FourThenRest(a: seq<Byte>, b: seq<Byte>)
    requires |a| == 4
    ensures (a + b)[4..] == b && forall i :: 0 <= i < 4 ==> (a + b)[i] == a[i]
  {
  }

  lemma {:induction false} GroupsRoundTrip(s: seq<Byte>)
    ensures |Encode(s)| % 4 == 0
    ensures DecodeGroups(Encode(s)) == Some(s)
  {
    hide Encode, GroupOf;
    EncodedIsClean(s);
    if s == [] {
      EncodeUnfolds(s);
    } else {
      FirstGroup(s);
      if |s| >= 3 {
        GroupsRoundTrip(s[3..]);
        assert s == s[..3] + s[3..];
      }
    }
  }

  /** Decoding undoes encoding, also when blanks are strewn in. */
  lemma RoundTrip(s: seq<Byte>, text: seq<Byte>)
    requires Cleaned(text) == Encode(s)
    ensures Decode(text) == Success(s)
  {
    hide DecodeGroups, Encode;
    GroupsRoundTrip(s);
  }

  lemma EncodeDecode(s: seq<Byte>)
    ensures Decode(Encode(s)) == Success(s)
  {
    hide Encode, Decode;
    EncodedIsClean(s);
    CleanIsCleaned(Encode(s));
    RoundTrip(s, Encode(s));
  }

  /** Texts identify what they encode. */
  lemma EncodeInjective(s: seq<Byte>, t: seq<Byte>)
    requires Encode(s) == Encode(t)
    ensures s == t
  {
    hide Encode, Decode;
    EncodeDecode(s);
    EncodeDecode(t);
  }

  /** The letters in order, and that nothing else is one. */
  lemma Alphabet(v: nat, b: Byte)
    requires v < 64
    ensures v < 26 ==> Letter(v) == 'A' as int + v
    ensures 26 <= v < 52 ==> Letter(v) == 'a' as int + (v - 26)
    ensures 52 <= v < 62 ==> Letter(v) == '0' as int + (v - 52)
    ensures Letter(62) == '-' as int && Letter(63) == '~' as int
    ensures ValueOf(b) != 255 <==> exists w: nat :: w < 64 && Letter(w) == b
  {
    if ValueOf(b) != 255 {
      ValueLetter(b, ValueOf(b));
    }
  }

  /** Texts of section 10 of RFC 4648: of "f", "fo" and "foo". */
  lemma KnownTexts()
    ensures Encode(['f' as int]) == ['Z' as int, 'g' as int, '=' as int, '=' as int]
    ensures Encode(['f' as int, 'o' as int]) == ['Z' as int, 'm' as int, '8' as int, '=' as int]
    ensures Encode(['f' as int, 'o' as int, 'o' as int]) == ['Z' as int, 'm' as int, '9' as int, 'v' as int]
  {
    KnownLetters();
    hide Letter;
    EncodeUnfolds([102]);
    EncodeUnfolds([102, 111]);
    EncodeUnfolds([102, 111, 111]);
    hide Encode;
    assert [102, 111, 111][3..] == [];
  }

  lemma KnownLetters()
    ensures Letter(25) == 'Z' as int && Letter(32) == 'g' as int && Letter(38) == 'm' as int
    ensures Letter(60) == '8' as int && Letter(61) == '9' as int && Letter(47) == 'v' as int
  {
  }

  /** What is different in the variant of I2P: the last two letters. */
  lemma KnownVariant()
    ensures Encode([0xFB, 0xEF, 0xBE]) == ['-' as int, '-' as int, '-' as int, '-' as int]
    ensures Encode([0xFF, 0xFF, 0xFF]) == ['~' as int, '~' as int, '~' as int, '~' as int]
  {
    Alphabet(0, 0);
    hide Letter;
    EncodeUnfolds([0xFB, 0xEF, 0xBE]);
    EncodeUnfolds([0xFF, 0xFF, 0xFF]);
    hide Encode;
    assert [0xFB, 0xEF, 0xBE][3..] == [] && [0xFF, 0xFF, 0xFF][3..] == [];
  }

  /** What decoding forgives: a misplaced padding counts as zero. */
  lemma MisplacedPadding()
    ensures Decode(['A' as int, 'A' as int, '=' as int, 'A' as int]) == Success([0, 0, 0])
  {
    hide Cleaned;
    CleanIsCleaned([65, 65, PAD, 65]);
    ZeroGroup();
    hide GroupOf;
    OneGroup([65, 65, PAD, 65], [0, 0, 0]);
    hide DecodeGroups;
  }

  lemma ZeroGroup()
    ensures GroupOf(65, 65, PAD, 65) == Full([0, 0, 0])
  {
    hide DecodeChar, First, Second, Third;
    ZeroLetters();
    ZeroValues();
    var zeros: seq<Byte> := [First(0, 0), Second(0, 0), Third(0, 0)];
    assert GroupOf(65, 65, PAD, 65) == Full(zeros);
    hide GroupOf;
    assert zeros == [0, 0, 0];
  }

  lemma ZeroLetters()
    ensures DecodeChar(65) == Some(0) && DecodeChar(PAD) == Some(0)
  {
  }

  lemma ZeroValues()
    ensures First(0, 0) == 0 && Second(0, 0) == 0 && Third(0, 0) == 0
  {
    hide First, Second, Third;
    FirstBack(0, 0);
    SecondBack(0, 0, 0);
    ThirdBack(0, 0);
  }

  lemma OneGroup(c: seq<Byte>, bytes: seq<Byte>)
    requires |c| == 4 && GroupOf(c[0], c[1], c[2], c[3]) == Full(bytes)
    ensures DecodeGroups(c) == Some(bytes)
  {
    hide GroupOf;
    assert c[4..] == [] && bytes + [] == bytes;
  }

  /** What follows a padded group is not read. */
  lemma EndedByPadding()
    ensures Decode(['Z' as int, 'g' as int, '=' as int, '=' as int, '!' as int, '!' as int, '!' as int, '!' as int]) == Success(['f' as int])
  {
    hide Cleaned;
    CleanIsCleaned([90, 103, PAD, PAD, 33, 33, 33, 33]);
    assert GroupOf(90, 103, PAD, PAD) == End([102]);
    hide GroupOf;
  }

  /** Blanks of every kind are skipped: "Zg==" with all five of them. */
  lemma BlanksAreSkipped()
    ensures Decode([10, 'Z' as int, 13, 'g' as int, 9, '=' as int, 32, '=' as int, 12]) == Success(['f' as int])
  {
    hide Cleaned;
    BlanksGo();
    assert GroupOf(90, 103, PAD, PAD) == End([102]);
    hide GroupOf;
  }

  lemma BlanksGo()
    ensures Cleaned([10, 90, 13, 103, 9, PAD, 32, PAD, 12]) == [90, 103, PAD, PAD]
  {
    hide Cleaned;
    CleanIsCleaned([]);
    BlankGoes([], 10, [10]);
    LetterStays([10], 90, [10, 90]);
    BlankGoes([10, 90], 13, [10, 90, 13]);
    LetterStays([10, 90, 13], 103, [10, 90, 13, 103]);
    BlankGoes([10, 90, 13, 103], 9, [10, 90, 13, 103, 9]);
    LetterStays([10, 90, 13, 103, 9], PAD, [10, 90, 13, 103, 9, PAD]);
    BlankGoes([10, 90, 13, 103, 9, PAD], 32, [10, 90, 13, 103, 9, PAD, 32]);
    LetterStays([10, 90, 13, 103, 9, PAD, 32], PAD, [10, 90, 13, 103, 9, PAD, 32, PAD]);
    BlankGoes([10, 90, 13, 103, 9, PAD, 32, PAD], 12, [10, 90, 13, 103, 9, PAD, 32, PAD, 12]);
  }

  lemma BlankGoes(s: seq<Byte>, b: Byte, more: seq<Byte>)
    requires Blank(b) && more == s + [b]
    ensures Cleaned(more) == Cleaned(s)
  {
    assert more[..|s|] == s;
  }

  lemma LetterStays(s: seq<Byte>, b: Byte, more: seq<Byte>)
    requires !Blank(b) && more == s + [b]
    ensures Cleaned(more) == Cleaned(s) + [b]
  {
    assert more[..|s|] == s;
  }

  /** What it refuses: a length that is no multiple of four, and anything else than a letter, also
      the last two letters of RFC 4648. */
  lemma Refused()
    ensures Decode(['Z' as int, 'g' as int, '=' as int]) == Failure(InvalidLength)
    ensures Decode(['A' as int, 'A' as int, '+' as int, 'A' as int]) == Failure(InvalidCharacter)
    ensures Decode(['A' as int, 'A' as int, 'A' as int, '/' as int]) == Failure(InvalidCharacter)
  {
    hide Cleaned;
    CleanIsCleaned([90, 103, PAD]);
    CleanIsCleaned([65, 65, 43, 65]);
    CleanIsCleaned([65, 65, 65, 47]);
  }
}
