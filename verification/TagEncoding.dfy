/** The tags the encoders of `src/kad/wire.rs` write, and that both parsers read them back. */
module TagEncoding {
  import opened Wrappers
  import opened Bits
  import opened LittleEndian
  import opened Tags

  /** The `write_tag_*` calls. */
  datatype Written =
    | U8(id: Byte, v: nat)
    | U32(id: Byte, v: nat)
    | U64(id: Byte, v: nat)
    | Str(id: Byte, s: seq<Byte>)
    | Addr(id: Byte, d: seq<Byte>)

  predicate Writable(w: Written) {
    match w
    case U8(_, v) => v < 0x100
    case U32(_, v) => v < 0x1_0000_0000
    case U64(_, v) => v < 0x1_0000_0000_0000_0000
    case Str(_, _) => true
    case Addr(_, d) => |d| == DEST_LEN
  }

  function Capped(n: nat, cap: nat): nat {
    if n < cap then n else cap
  }

  function WriteTag(w: Written): seq<Byte> {
    match w
    case U8(id, v) => [0x89, id] + ToLe(v, 1)
    case U32(id, v) => [0x83, id] + ToLe(v, 4)
    case U64(id, v) => [0xA9, id] + ToLe(v, 8)
    case Str(id, s) => var n := Capped(|s|, 0xFFFF); [0x82, id] + (ToLe(n, 2) + s[..n])
    case Addr(id, d) => [0xA7, id] + d
  }

  /** What a reader makes of a written tag: a text of more than 4096 bytes is lost. */
  function Meaning(w: Written): Tag {
    match w
    case U8(id, v) => Tag(Some(id), Number(1, v))
    case U32(id, v) => Tag(Some(id), Number(4, v))
    case U64(id, v) => Tag(Some(id), Number(8, v))
    case Str(id, s) => Tag(Some(id), if |s| <= MAX_STRING_LEN then Text(s) else Skipped)
    case Addr(id, d) => Tag(Some(id), Dest(d))
  }

  function WriteTags(ws: seq<Written>): seq<Byte> {
    if ws == [] then [] else WriteTag(ws[0]) + WriteTags(ws[1..])
  }

  function Meanings(ws: seq<Written>): (ts: seq<Tag>)
    ensures |ts| == |ws|
  {
    if ws == [] then [] else [Meaning(ws[0])] + Meanings(ws[1..])
  }

  function WriteTagList(ws: seq<Written>): seq<Byte>
    requires |ws| < 0x100
  {
    [|ws|] + WriteTags(ws)
  }

  ghost predicate AllWritable(ws: seq<Written>) {
    forall i :: 0 <= i < |ws| ==> Writable(ws[i])
  }

  /** The bytes from i on start with s. */
  predicate At(b: seq<Byte>, i: nat, s: seq<Byte>) {
    i + |s| <= |b| && b[i..i + |s|] == s
  }

  lemma AtConcat(b: seq<Byte>, i: nat, s: seq<Byte>, t: seq<Byte>)
    ensures At(b, i, s + t) <==> At(b, i, s) && At(b, i + |s|, t)
  {
    if At(b, i, s + t) {
      assert b[i..i + |s|] == b[i..i + |s + t|][..|s|] == s;
      assert b[i + |s|..i + |s| + |t|] == b[i..i + |s + t|][|s|..] == t;
    }
    if At(b, i, s) && At(b, i + |s|, t) {
      assert b[i..i + |s + t|] == s + t;
    }
  }

  lemma NumberReadsBack(b: seq<Byte>, i: nat, v: nat, n: nat)
    requires At(b, i, ToLe(v, n)) && v < Pow256(n)
    ensures NumberAt(b, i, n) == Some((v, i + n))
  {
    hide ToLe, FromLe, Pow256;
    FromToLe(v, n);
  }

  lemma NameReadsBack(b: seq<Byte>, i: nat, tagType: Byte, id: Byte)
    requires At(b, i, [tagType, id]) && tagType >= 0x80
    ensures HeaderAt(b, i, false) == Some(Header(tagType - 0x80, Some(id), i + 2))
  {
    assert b[i] == b[i..i + 2][0] && b[i + 1] == b[i..i + 2][1];
  }

  lemma TagReadsBack(b: seq<Byte>, i: nat, w: Written)
    requires At(b, i, WriteTag(w)) && Writable(w)
    ensures TagAt(b, i, false) == Some((Meaning(w), i + |WriteTag(w)|))
  {
    hide ToLe, FromLe, Pow256, HeaderAt, NumberAt, At;
    Pow256Values();
    match w {
      case U8(id, v) =>
        AtConcat(b, i, [0x89, id], ToLe(v, 1));
        NameReadsBack(b, i, 0x89, id);
        NumberReadsBack(b, i + 2, v, 1);
      case U32(id, v) =>
        AtConcat(b, i, [0x83, id], ToLe(v, 4));
        NameReadsBack(b, i, 0x83, id);
        NumberReadsBack(b, i + 2, v, 4);
      case U64(id, v) =>
        AtConcat(b, i, [0xA9, id], ToLe(v, 8));
        NameReadsBack(b, i, 0xA9, id);
        NumberReadsBack(b, i + 2, v, 8);
      case Str(id, s) =>
        var n := Capped(|s|, 0xFFFF);
        AtConcat(b, i, [0x82, id], ToLe(n, 2) + s[..n]);
        AtConcat(b, i + 2, ToLe(n, 2), s[..n]);
        NameReadsBack(b, i, 0x82, id);
        NumberReadsBack(b, i + 2, n, 2);
        BytesReadBack(b, i + 4, s[..n]);
        assert |s| <= MAX_STRING_LEN ==> s[..n] == s;
      case Addr(id, d) =>
        AtConcat(b, i, [0xA7, id], d);
        NameReadsBack(b, i, 0xA7, id);
        BytesReadBack(b, i + 2, d);
    }
  }

  lemma BytesReadBack(b: seq<Byte>, i: nat, s: seq<Byte>)
    requires At(b, i, s)
    ensures BytesAt(b, i, |s|) == Some((s, i + |s|))
  {
  }

  lemma {:induction false} TagsReadBack(b: seq<Byte>, i: nat, ws: seq<Written>)
    requires At(b, i, WriteTags(ws)) && AllWritable(ws)
    ensures TagsAt(b, i, |ws|, false) == Some((Meanings(ws), i + |WriteTags(ws)|))
    decreases ws
  {
    hide At, TagAt, WriteTag, Meaning, Writable;
    if ws != [] {
      AtConcat(b, i, WriteTag(ws[0]), WriteTags(ws[1..]));
      TagReadsBack(b, i, ws[0]);
      TagsReadBack(b, i + |WriteTag(ws[0])|, ws[1..]);
    }
  }

  /** A written tag list is read back in its normal layout: the debug layout is not tried. */
  lemma TagListReadsBack(b: seq<Byte>, i: nat, ws: seq<Written>)
    requires |ws| < 0x100 && At(b, i, WriteTagList(ws)) && AllWritable(ws)
    ensures CountedTagsAt(b, i, false).Some?
    ensures TagListAt(b, i) == Some((Meanings(ws), i + |WriteTagList(ws)|))
  {
    hide TagsAt, WriteTags;
    AtConcat(b, i, [|ws|], WriteTags(ws));
    assert b[i] == b[i..i + 1][0];
    TagsReadBack(b, i + 1, ws);
  }
}
