/** What the encoders put on the wire, byte by byte, and what the parsers take from a tag of each
    kind, by the numbers of the tags and of their types. */
module WireSamples {
  import opened Wrappers
  import opened Bits
  import opened LittleEndian
  import opened Tags
  import opened TagEncoding
  import opened WireReader
  import opened Messages
  import opened MessageEncoding
  import opened ContactEncoding

  /** An identifier: the bytes of each of its four words in reverse. */
  lemma IdLayout(id: KadId)
    ensures SwapWords(id) == [id[3], id[2], id[1], id[0], id[7], id[6], id[5], id[4],
                              id[11], id[10], id[9], id[8], id[15], id[14], id[13], id[12]]
  {
  }

  /** A number of one or two bytes. */
  lemma SmallNumbers(v: Byte, n: nat)
    requires n <= 0xFFFF
    ensures ToLe(v, 1) == [v] && ToLe(n, 2) == [n % 256, n / 256]
  {
    hide ToLe;
    LowByte(v, v, 0, 0);
    LowByte(n, n % 256, n / 256, 1);
    LowByte(n / 256, n / 256, 0, 0);
    assert ToLe(0, 0) == [];
  }

  /** The bytes of every kind of tag. */
  lemma TagLayout(id: Byte, v: Byte, n: nat, s: seq<Byte>, dest: DestBytes)
    ensures WriteTag(U8(id, v)) == [0x89, id, v]
    ensures WriteTag(U32(id, n)) == [0x83, id] + ToLe(n, 4)
    ensures WriteTag(U64(id, n)) == [0xA9, id] + ToLe(n, 8)
    ensures |s| <= 0xFFFF ==> WriteTag(Str(id, s)) == [0x82, id, |s| % 256, |s| / 256] + s
    ensures WriteTag(Addr(id, dest)) == [0xA7, id] + dest
  {
    hide ToLe;
    SmallNumbers(v, 0);
    assert WriteTag(U8(id, v)) == [0x89, id] + [v];
    if |s| <= 0xFFFF {
      TextLayout(id, s);
    }
  }

  lemma TextLayout(id: Byte, s: seq<Byte>)
    requires |s| <= 0xFFFF
    ensures WriteTag(Str(id, s)) == [0x82, id, |s| % 256, |s| / 256] + s
  {
    SmallNumbers(0, |s|);
    hide ToLe;
    var low, high := |s| % 256, |s| / 256;
    assert s[..|s|] == s && Capped(|s|, 0xFFFF) == |s|;
    assert WriteTag(Str(id, s)) == [0x82, id] + ([low, high] + s);
    hide WriteTag;
    assert [0x82, id] + ([low, high] + s) == [0x82, id, low, high] + s;
  }

  lemma ListOf1(a: Written)
    ensures WriteTagList([a]) == [1] + WriteTag(a)
  {
    hide WriteTag;
    assert [a][1..] == [] && WriteTags([]) == [];
  }

  lemma {:induction false} TagsOf(a: Written, rest: seq<Written>)
    ensures WriteTags([a] + rest) == WriteTag(a) + WriteTags(rest) && WriteTags([]) == []
  {
    hide WriteTag;
    assert ([a] + rest)[1..] == rest;
  }

  /** HELLO: version, identifier, destination, one tag with the agent; HELLO_REQ has no tags. */
  lemma HelloLayout(version: Byte, id: KadId, dest: DestBytes, agent: seq<Byte>)
    requires |agent| <= 0xFFFF
    ensures EncodeHello(version, id, dest, agent)
         == [version] + SwapWords(id) + dest + [1] + [0x82, 0xFE, |agent| % 256, |agent| / 256] + agent
    ensures EncodeHelloReq(version, id, dest) == [version] + SwapWords(id) + dest + [0]
  {
    hide SwapWords, WriteTag, WriteTags;
    TextLayout(TAG_AGENT, agent);
    var a := Str(TAG_AGENT, agent);
    ListOf1(a);
    assert WriteTags([]) == [] by { TagsOf(a, []); }
    HelloIs(version, id, dest, [a]);
    HelloIs(version, id, dest, []);
    hide WriteTagList, HelloBytes;
    Parts([version], SwapWords(id), dest, [1] + WriteTag(a));
    Parts([version], SwapWords(id), dest, [0]);
    assert WriteTagList([]) == [0] by { NoTagsListed(); }
    var front, head := [version] + SwapWords(id) + dest, [0x82, 0xFE, |agent| % 256, |agent| / 256];
    assert front + ([1] + (head + agent)) == front + [1] + head + agent;
  }

  lemma NoTagsListed()
    ensures WriteTagList([]) == [0]
  {
  }

  lemma Parts(a: seq<Byte>, b: seq<Byte>, c: seq<Byte>, d: seq<Byte>)
    ensures a + (b + (c + d)) == a + b + c + d
  {
  }

  /** HELLO_RES asking for an acknowledgement: two tags, the second one the options. */
  lemma AckLayout(version: Byte, id: KadId, dest: DestBytes, agent: seq<Byte>)
    requires |agent| <= 0xFFFF
    ensures |EncodeHello(version, id, dest, agent)| > 404
    ensures AskForAck(EncodeHello(version, id, dest, agent))
         == [version] + SwapWords(id) + dest + [2] + [0x82, 0xFE, |agent| % 256, |agent| / 256] + agent + [0x89, 0x58, 0x04]
  {
    hide SwapWords, EncodeHello;
    HelloLayout(version, id, dest, agent);
    var front, rest := [version] + SwapWords(id) + dest, [0x82, 0xFE, |agent| % 256, |agent| / 256] + agent;
    assert EncodeHello(version, id, dest, agent) == front + [1] + rest;
    PatchAfter(front, rest, [0x89, 0x58, 0x04]);
    assert |front| == 404;
    assert front + ([2] + rest + [0x89, 0x58, 0x04]) == front + [2] + rest + [0x89, 0x58, 0x04];
  }

  /** A source: identifier, three tags: source type 1, its destination, its destination for
      datagrams. */
  lemma SourceLayout(id: KadId, tcp: DestBytes, udp: DestBytes)
    ensures EntryBytes(SourceEntry(FoundSource(id, tcp, udp)))
         == SwapWords(id) + [3, 0x89, 0x54, 0x01, 0xA7, 0x53] + tcp + [0xA7, 0x52] + udp
  {
    hide SwapWords, WriteTag, WriteTags;
    var a, b, c := U8(TAG_SOURCETYPE, 1), Addr(TAG_SOURCEDEST, tcp), Addr(TAG_SOURCEUDEST, udp);
    TagLayout(TAG_SOURCETYPE, 1, 0, [], tcp);
    TagLayout(TAG_SOURCEDEST, 1, 0, [], tcp);
    TagLayout(TAG_SOURCEUDEST, 1, 0, [], udp);
    SourceAndSize(a, b, c, c);
  }

  /** The tags of a file: its name, its size in eight bytes, one complete source, one source. */
  function FileTagBytes(name: seq<Byte>, size: nat): seq<Byte>
    requires |name| <= 0xFFFF
  {
    [0x82, 0x23, |name| % 256, |name| / 256] + name + ([0xA9, 0x24] + ToLe(size, 8))
    + [0x83, 0x42, 1, 0, 0, 0] + [0x83, 0x35, 1, 0, 0, 0]
  }

  /** A file: identifier, its tags, and one with its type if it has one. */
  lemma FileLayout(id: KadId, name: seq<Byte>, size: nat, fileType: seq<Byte>)
    requires |name| <= 0xFFFF && |fileType| <= 0xFFFF
    ensures EntryBytes(FileEntry(FoundFile(id, name, size, None))) == SwapWords(id) + [4] + FileTagBytes(name, size)
    ensures EntryBytes(FileEntry(FoundFile(id, name, size, Some(fileType))))
         == SwapWords(id) + [5] + FileTagBytes(name, size) + ([0x82, 0x25, |fileType| % 256, |fileType| / 256] + fileType)
  {
    hide SwapWords, WriteTag, WriteTags, FileTagBytes;
    var a, b, c, d, e := Str(TAG_FILENAME, name), U64(TAG_FILESIZE, size), U32(TAG_COMPLETE_SOURCES, 1), U32(TAG_SOURCES, 1), Str(TAG_FILETYPE, fileType);
    FourTags(name, size);
    TextLayout(TAG_FILETYPE, fileType);
    FileTags(a, b, c, d, e);
    assert KeywordTags(name, size, None) == [a, b, c, d];
    assert KeywordTags(name, size, Some(fileType)) == [a, b, c, d, e];
    assert EntryBytes(FileEntry(FoundFile(id, name, size, None))) == SwapWords(id) + ([4] + WriteTags([a, b, c, d]));
    assert EntryBytes(FileEntry(FoundFile(id, name, size, Some(fileType)))) == SwapWords(id) + ([5] + WriteTags([a, b, c, d, e]));
  }

  lemma FourTags(name: seq<Byte>, size: nat)
    requires |name| <= 0xFFFF
    ensures WriteTag(Str(TAG_FILENAME, name)) + WriteTag(U64(TAG_FILESIZE, size)) + WriteTag(U32(TAG_COMPLETE_SOURCES, 1))
            + WriteTag(U32(TAG_SOURCES, 1)) == FileTagBytes(name, size)
  {
    hide WriteTag, ToLe;
    var dest: DestBytes := seq(387, _ => 0);
    TextLayout(TAG_FILENAME, name);
    TagLayout(TAG_FILESIZE, 0, size, [], dest);
    TagLayout(TAG_COMPLETE_SOURCES, 0, 1, [], dest);
    TagLayout(TAG_SOURCES, 0, 1, [], dest);
    WordBytes(1, 1, 0, 0, 0);
    assert [0x83, 0x42] + [1, 0, 0, 0] == [0x83, 0x42, 1, 0, 0, 0] && [0x83, 0x35] + [1, 0, 0, 0] == [0x83, 0x35, 1, 0, 0, 0];
  }

  lemma FileTags(a: Written, b: Written, c: Written, d: Written, e: Written)
    ensures WriteTags([a, b, c, d]) == WriteTag(a) + WriteTag(b) + WriteTag(c) + WriteTag(d)
    ensures WriteTags([a, b, c, d, e]) == WriteTag(a) + WriteTag(b) + WriteTag(c) + WriteTag(d) + WriteTag(e)
  {
    hide WriteTag, WriteTags;
    TagsOf(a, [b, c, d]);
    TagsOf(b, [c, d]);
    TagsOf(c, [d]);
    TagsOf(d, []);
    TagsOf(a, [b, c, d, e]);
    TagsOf(b, [c, d, e]);
    TagsOf(c, [d, e]);
    TagsOf(d, [e]);
    TagsOf(e, []);
    assert [a, b, c, d] == [a] + [b, c, d] && [b, c, d] == [b] + [c, d] && [c, d] == [c] + [d] && [d] == [d] + [];
    assert [a, b, c, d, e] == [a] + [b, c, d, e] && [b, c, d, e] == [b] + [c, d, e] && [c, d, e] == [c] + [d, e];
    assert [d, e] == [d] + [e] && [e] == [e] + [];
  }

  /** The lists: a count of two bytes behind one or two identifiers, and the entries in order. */
  lemma ListLayout(sender: KadId, key: KadId, a: Outgoing, b: Outgoing)
    ensures SearchResBytes(sender, key, [a, b]) == SwapWords(sender) + SwapWords(key) + [2, 0] + EntryBytes(a) + EntryBytes(b)
    ensures PublishKeyBytes(key, [a, b]) == SwapWords(key) + [2, 0] + EntryBytes(a) + EntryBytes(b)
  {
    hide SwapWords, EntryBytes, ToLe;
    SmallNumbers(0, 2);
    assert [a, b][1..] == [b] && [b][1..] == [];
    assert EntriesBytes([a, b]) == EntryBytes(a) + EntriesBytes([b]) && EntriesBytes([b]) == EntryBytes(b) + EntriesBytes([]);
  }

  /** The contacts: version, identifier, destination; RES counts them in one byte, BOOTSTRAP_RES
      in two; REQ has no tags at all. */
  lemma ContactLayout(id: KadId, c: Contact, d: Contact, version: Byte, tcp: DestBytes)
    ensures
        var contacts := [c.version] + SwapWords(c.id) + c.udpDest + [d.version] + SwapWords(d.id) + d.udpDest;
        && ResBytes(id, [c, d]) == SwapWords(id) + [2] + contacts
        && BootstrapResBytes(id, version, tcp, [c, d]) == SwapWords(id) + [version] + tcp + [2, 0] + contacts
  {
    hide SwapWords, ToLe;
    SmallNumbers(0, 2);
    assert [c, d][1..] == [d] && [d][1..] == [];
    assert ContactsBytes([c, d]) == ContactBytes(c) + ContactsBytes([d]) && ContactsBytes([d]) == ContactBytes(d) + ContactsBytes([]);
  }

  /** REQ: how many contacts are wanted, and three identifiers. */
  lemma ReqLayout(contacts: Byte, target: KadId, check: KadId, sender: KadId)
    requires 1 <= contacts <= 31
    ensures EncodeReq(contacts, target, check, sender) == [contacts] + SwapWords(target) + SwapWords(check) + SwapWords(sender)
    ensures EncodeReq(0, target, check, sender)[0] == 1 && EncodeReq(32, target, check, sender)[0] == 31
  {
    hide SwapWords;
  }

  /** How many bytes a value takes, by the number of its type, and which numbers are no types. */
  lemma TypeLengths(b: seq<Byte>, i: nat, t: nat)
    ensures ValueAt(b, i, t).Some? ==>
      var n := ValueAt(b, i, t).value.1 - i;
      && (t == 0x01 ==> n == 16) && (t == 0x03 || t == 0x04 ==> n == 4) && (t == 0x05 || t == 0x09 ==> n == 1)
      && (t == 0x08 ==> n == 2) && (t == 0x29 ==> n == 8) && (t == 0x27 ==> n == 387)
      && (t == 0x02 ==> n == 2 + FromLe(b[i..i + 2]))
      && (t == 0x06 ==> n == 2 + (FromLe(b[i..i + 2]) + 7) / 8)
      && (t == 0x07 ==> n == 4 + FromLe(b[i..i + 4]))
      && (t == 0x0A ==> n == 1 + FromLe(b[i..i + 1]))
      && (0x11 <= t <= 0x20 ==> n == t - 0x10)
    ensures !(1 <= t <= 10 || 0x11 <= t <= 0x20 || t == 0x27 || t == 0x29) ==> ValueAt(b, i, t) == None
  {
    hide FromLe;
  }

  /** What is kept of a value. */
  lemma TypeValues(b: seq<Byte>, i: nat, t: nat)
    requires ValueAt(b, i, t).Some?
    ensures
        var v := ValueAt(b, i, t).value.0;
        && (t == 0x09 ==> v == Number(1, FromLe(b[i..i + 1]))) && (t == 0x08 ==> v == Number(2, FromLe(b[i..i + 2])))
        && (t == 0x03 ==> v == Number(4, FromLe(b[i..i + 4]))) && (t == 0x29 ==> v == Number(8, FromLe(b[i..i + 8])))
        && (t == 0x27 ==> v == Dest(b[i..i + 387]))
        && (t == 0x02 ==>
              var n := FromLe(b[i..i + 2]);
              v == if n <= 4096 then Text(b[i + 2..i + 2 + n]) else Skipped)
        && (0x11 <= t <= 0x20 ==> v == Text(b[i..i + (t - 0x10)]))
        && (t in {1, 4, 5, 6, 7, 10} ==> v == Skipped)
  {
    hide FromLe;
  }

  /** What a single tag says, by its number: a name, a type, a size, destinations, the type of a
      source, publish info, or nothing. The lenient parser takes sizes and publish info of one
      byte as well. */
  lemma TagSays(id: Byte, v: Value, lenient: bool)
    ensures
        var said := InfoOf([Tag(Some(id), v)], lenient);
        && (v.Text? && id == 0x23 ==> said == NO_INFO.(fileName := Some(v.text)))
        && (v.Text? && id == 0x25 ==> said == NO_INFO.(fileType := Some(v.text)))
        && (v.Text? && id != 0x23 && id != 0x25 ==> said == NO_INFO)
        && (v.Dest? && id == 0x53 ==> said == NO_INFO.(sourceDest := Some(v.dest)))
        && (v.Dest? && id == 0x52 ==> said == NO_INFO.(sourceUdpDest := Some(v.dest)))
        && (v.Dest? && id != 0x53 && id != 0x52 ==> said == NO_INFO.(fallbackDest := Some(v.dest)))
        && (v.Number? && id == 0x24 ==> said == if v.width > 1 || lenient then NO_INFO.(fileSize := Some(v.v)) else NO_INFO)
        && (v.Number? && id == 0x54 ==> said == if v.width <= 1 then NO_INFO.(sourceType := Some(v.v)) else NO_INFO)
        && (v.Number? && id == 0x55 ==>
              said == if v.width > 2 then NO_INFO.(publishInfo := Some(v.v % 0x1_0000_0000))
                      else if v.width <= 1 && lenient then NO_INFO.(publishInfo := Some(v.v))
                      else NO_INFO)
        && (v.Number? && id !in {0x24, 0x54, 0x55} ==> said == NO_INFO)
        && (v.Skipped? ==> said == NO_INFO)
  {
    Fold1(Tag(Some(id), v), NO_INFO, lenient);
  }

  /** The three forms of a tag's head, and the serial number of the debug layout. */
  lemma HeadForms(t: Byte, id: Byte, more: seq<Byte>, name: seq<Byte>)
    requires t < 0x80 && |name| <= 0xFFFF && |name| != 1
    ensures HeaderAt([t + 0x80, id] + more, 0, false) == Some(Header(t, Some(id), 2))
    ensures HeaderAt([t, 1, 0, id] + more, 0, false) == Some(Header(t, Some(id), 4))
    ensures HeaderAt([t, |name| % 256, |name| / 256] + name + more, 0, false) == Some(Header(t, None, 3 + |name|))
    ensures HeaderAt([t + 0x80, id] + more, 0, true) == if |more| >= 4 then Some(Header(t, Some(id), 6)) else None
  {
    hide FromLe;
    var one, counted := [t, 1, 0, id] + more, [t, |name| % 256, |name| / 256] + name + more;
    assert one[1..3] == [1, 0] && counted[1..3] == [|name| % 256, |name| / 256];
    TwoByteNumber(1, 0);
    TwoByteNumber(|name| % 256, |name| / 256);
  }

  lemma TwoByteNumber(a: Byte, b: Byte)
    ensures FromLe([a, b]) == a as int + 256 * (b as int)
  {
    assert [a, b][1..] == [b] && [b][1..] == [] && FromLe([]) == 0;
    assert FromLe([b]) == b;
  }

  /** A published source: two identifiers, the tags of a source, and its size if it has one. */
  lemma PublishSourceLayout(file: KadId, source: KadId, tcp: DestBytes, udp: DestBytes, size: nat)
    ensures
        var tags := [0x89, 0x54, 0x01, 0xA7, 0x53] + tcp + [0xA7, 0x52] + udp;
        && PublishSourceBytes(file, source, tcp, udp, None) == SwapWords(file) + SwapWords(source) + [3] + tags
        && PublishSourceBytes(file, source, tcp, udp, Some(size))
             == SwapWords(file) + SwapWords(source) + [4] + tags + [0xA9, 0x24] + ToLe(size, 8)
  {
    hide SwapWords, WriteTag, WriteTags, ToLe;
    var a, b, c, d := U8(TAG_SOURCETYPE, 1), Addr(TAG_SOURCEDEST, tcp), Addr(TAG_SOURCEUDEST, udp), U64(TAG_FILESIZE, size);
    TagLayout(TAG_SOURCETYPE, 1, 0, [], tcp);
    TagLayout(TAG_SOURCEDEST, 1, 0, [], tcp);
    TagLayout(TAG_SOURCEUDEST, 1, 0, [], udp);
    TagLayout(TAG_FILESIZE, 1, size, [], udp);
    SourceAndSize(a, b, c, d);
    assert PublishSourceTags(tcp, udp, None) == [a, b, c] && PublishSourceTags(tcp, udp, Some(size)) == [a, b, c, d];
  }

  lemma SourceAndSize(a: Written, b: Written, c: Written, d: Written)
    ensures WriteTags([a, b, c]) == WriteTag(a) + WriteTag(b) + WriteTag(c)
    ensures WriteTags([a, b, c, d]) == WriteTag(a) + WriteTag(b) + WriteTag(c) + WriteTag(d)
  {
    hide WriteTag, WriteTags;
    TagsOf(a, [b, c]);
    TagsOf(b, [c]);
    TagsOf(c, []);
    assert [a, b, c] == [a] + [b, c] && [b, c] == [b] + [c] && [c] == [c] + [];
    FileTags(a, b, c, d, d);
  }

  /** What is read of a REQ: the low five bits of the first byte, which may not be zero, two
      identifiers, and a third one when 16 more bytes are there. */
  lemma ReqReads(first: Byte, target: KadId, check: KadId, sender: KadId, tail: seq<Byte>)
    requires |tail| < 16
    ensures ReqOf([first] + SwapWords(target) + SwapWords(check) + tail)
         == if first % 32 == 0 then None else Some(Req(first % 32, target, check, None))
    ensures ReqOf([first] + SwapWords(target) + SwapWords(check) + SwapWords(sender) + tail)
         == if first % 32 == 0 then None else Some(Req(first % 32, target, check, Some(sender)))
  {
    hide SwapWords;
    var short := [first] + SwapWords(target) + SwapWords(check) + tail;
    var long := [first] + SwapWords(target) + SwapWords(check) + SwapWords(sender) + tail;
    SwapTwice(target);
    SwapTwice(check);
    SwapTwice(sender);
    assert short[1..17] == SwapWords(target) && short[17..33] == SwapWords(check);
    assert long[1..17] == SwapWords(target) && long[17..33] == SwapWords(check) && long[33..49] == SwapWords(sender);
  }
}
