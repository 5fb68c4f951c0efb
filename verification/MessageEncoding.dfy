/** The encoders of `src/kad/wire.rs`, and that the decoders give back what they were given. */
module MessageEncoding {
  import opened Wrappers
  import opened Bits
  import opened Collections
  import opened LittleEndian
  import opened Tags
  import opened TagEncoding
  import opened WireReader
  import opened Messages

  const U16_MAX: nat := 0xFFFF

  type DestBytes = s: seq<Byte> | |s| == 387 witness seq(387, _ => 0)

  type FewTags = ws: seq<Written> | |ws| < 0x100

  /** An identifier with the tags to be written after it. */
  datatype Outgoing = Outgoing(id: KadId, tags: FewTags)

  ghost predicate Sendable(es: seq<Outgoing>) {
    forall i :: 0 <= i < |es| ==> AllWritable(es[i].tags)
  }

  function EntryBytes(e: Outgoing): seq<Byte> {
    SwapWords(e.id) + WriteTagList(e.tags)
  }

  function EntriesBytes(es: seq<Outgoing>): seq<Byte> {
    if es == [] then [] else EntryBytes(es[0]) + EntriesBytes(es[1..])
  }

  lemma {:induction false} EntriesBytesAppend(es: seq<Outgoing>, e: Outgoing)
    ensures EntriesBytes(es + [e]) == EntriesBytes(es) + EntryBytes(e)
  {
    hide EntryBytes;
    if es == [] {
      assert [e][1..] == [];
      assert EntriesBytes([e]) == EntryBytes(e) + EntriesBytes([e][1..]);
      assert es + [e] == [e];
    } else {
      assert (es + [e])[0] == es[0] && (es + [e])[1..] == es[1..] + [e];
      EntriesBytesAppend(es[1..], e);
    }
  }

  function RawsOf(es: seq<Outgoing>): (r: seq<Raw>)
    ensures |r| == |es|
  {
    if es == [] then [] else [Raw(es[0].id, Meanings(es[0].tags))] + RawsOf(es[1..])
  }

  lemma IdReadsBack(b: seq<Byte>, i: nat, id: KadId)
    requires At(b, i, SwapWords(id))
    ensures KadIdAt(b, i) == Some((id, i + 16))
  {
    hide SwapWords;
    SwapTwice(id);
  }

  lemma EntryReadsBack(b: seq<Byte>, i: nat, e: Outgoing)
    requires AllWritable(e.tags) && At(b, i, EntryBytes(e))
    ensures RawAt(b, i) == Some((Raw(e.id, Meanings(e.tags)), i + |EntryBytes(e)|))
  {
    hide SwapWords, WriteTagList, At, KadIdAt, TagListAt;
    AtConcat(b, i, SwapWords(e.id), WriteTagList(e.tags));
    IdReadsBack(b, i, e.id);
    TagListReadsBack(b, i + 16, e.tags);
  }

  /** Any list of entries is read back whole. */
  lemma {:induction false} EntriesReadBack(b: seq<Byte>, i: nat, es: seq<Outgoing>)
    requires Sendable(es) && At(b, i, EntriesBytes(es))
    ensures RawsAt(b, i, |es|) == (RawsOf(es), true)
    decreases es
  {
    hide At, RawAt, EntryBytes;
    if es != [] {
      AtConcat(b, i, EntryBytes(es[0]), EntriesBytes(es[1..]));
      EntryReadsBack(b, i, es[0]);
      EntriesReadBack(b, i + |EntryBytes(es[0])|, es[1..]);
    }
  }

  function SourceTags(tcp: DestBytes, udp: DestBytes): seq<Written> {
    [U8(TAG_SOURCETYPE, 1), Addr(TAG_SOURCEDEST, tcp), Addr(TAG_SOURCEUDEST, udp)]
  }

  function PublishSourceTags(tcp: DestBytes, udp: DestBytes, fileSize: Option<nat>): seq<Written> {
    SourceTags(tcp, udp) + (if fileSize.Some? then [U64(TAG_FILESIZE, fileSize.value)] else [])
  }

  function KeywordTags(name: seq<Byte>, fileSize: nat, fileType: Option<seq<Byte>>): seq<Written> {
    [Str(TAG_FILENAME, name), U64(TAG_FILESIZE, fileSize), U32(TAG_COMPLETE_SOURCES, 1), U32(TAG_SOURCES, 1)]
    + (if fileType.Some? then [Str(TAG_FILETYPE, fileType.value)] else [])
  }

  /** A text as it arrives: whole up to 4096 bytes, lost beyond. */
  function Carried(s: Option<seq<Byte>>): Option<seq<Byte>> {
    if s.Some? && |s.value| <= MAX_STRING_LEN then s else None
  }

  lemma SourceTagsSay(tcp: DestBytes, udp: DestBytes, fileSize: Option<nat>, lenient: bool)
    ensures InfoOf(Meanings(PublishSourceTags(tcp, udp, fileSize)), lenient)
         == NO_INFO.(sourceType := Some(1), sourceDest := Some(tcp), sourceUdpDest := Some(udp), fileSize := fileSize)
  {
    var base := SourceTags(tcp, udp);
    var ts := [Meaning(base[0]), Meaning(base[1]), Meaning(base[2])];
    assert Meanings(base) == ts by { Meanings3(base); }
    Fold3(ts, NO_INFO, lenient);
    if fileSize.Some? {
      MeaningsConcat(base, [U64(TAG_FILESIZE, fileSize.value)]);
      One(U64(TAG_FILESIZE, fileSize.value));
      FoldConcat(ts, [Meaning(U64(TAG_FILESIZE, fileSize.value))], NO_INFO, lenient);
      Fold1(Meaning(U64(TAG_FILESIZE, fileSize.value)), ApplyAll(NO_INFO, ts, lenient), lenient);
    } else {
      assert base + [] == base;
    }
  }

  lemma KeywordTagsSay(name: seq<Byte>, fileSize: nat, fileType: Option<seq<Byte>>, lenient: bool)
    ensures InfoOf(Meanings(KeywordTags(name, fileSize, fileType)), lenient)
         == NO_INFO.(fileName := Carried(Some(name)), fileSize := Some(fileSize), fileType := Carried(fileType))
  {
    var three := [Str(TAG_FILENAME, name), U64(TAG_FILESIZE, fileSize), U32(TAG_COMPLETE_SOURCES, 1)];
    var ts := [Meaning(three[0]), Meaning(three[1]), Meaning(three[2])];
    Meanings3(three);
    Fold3(ts, NO_INFO, lenient);
    var sources := U32(TAG_SOURCES, 1);
    MeaningsConcat(three, [sources]);
    One(sources);
    FoldConcat(ts, [Meaning(sources)], NO_INFO, lenient);
    Fold1(Meaning(sources), ApplyAll(NO_INFO, ts, lenient), lenient);
    var four := three + [sources];
    assert KeywordTags(name, fileSize, None) == four + [] == four;
    if fileType.Some? {
      var last := Str(TAG_FILETYPE, fileType.value);
      MeaningsConcat(four, [last]);
      One(last);
      FoldConcat(Meanings(four), [Meaning(last)], NO_INFO, lenient);
      Fold1(Meaning(last), ApplyAll(NO_INFO, Meanings(four), lenient), lenient);
      assert KeywordTags(name, fileSize, fileType) == four + [last];
    }
  }

  lemma One(w: Written)
    ensures Meanings([w]) == [Meaning(w)]
  {
    assert [w][1..] == [] && Meanings([]) == [];
  }

  lemma Meanings3(ws: seq<Written>)
    requires |ws| == 3
    ensures Meanings(ws) == [Meaning(ws[0]), Meaning(ws[1]), Meaning(ws[2])]
  {
    assert ws == [ws[0]] + ([ws[1]] + [ws[2]]);
    MeaningsConcat([ws[0]], [ws[1]] + [ws[2]]);
    MeaningsConcat([ws[1]], [ws[2]]);
    One(ws[0]);
    One(ws[1]);
    One(ws[2]);
  }

  lemma {:induction false} MeaningsConcat(a: seq<Written>, b: seq<Written>)
    ensures Meanings(a + b) == Meanings(a) + Meanings(b)
  {
    if a == [] {
      assert a + b == b;
    } else {
      assert (a + b)[0] == a[0] && (a + b)[1..] == a[1..] + b;
      MeaningsConcat(a[1..], b);
    }
  }

  lemma {:induction false} FoldConcat(a: seq<Tag>, b: seq<Tag>, info: Info, lenient: bool)
    ensures ApplyAll(info, a + b, lenient) == ApplyAll(ApplyAll(info, a, lenient), b, lenient)
    decreases a
  {
    hide Apply;
    if a == [] {
      assert a + b == b;
    } else {
      assert (a + b)[0] == a[0] && (a + b)[1..] == a[1..] + b;
      FoldConcat(a[1..], b, Apply(info, a[0], lenient), lenient);
    }
  }

  lemma Fold1(t: Tag, info: Info, lenient: bool)
    ensures ApplyAll(info, [t], lenient) == Apply(info, t, lenient)
  {
    hide Apply;
    assert [t][1..] == [];
    assert ApplyAll(Apply(info, t, lenient), [], lenient) == Apply(info, t, lenient);
  }

  lemma Fold3(ts: seq<Tag>, info: Info, lenient: bool)
    requires |ts| == 3
    ensures ApplyAll(info, ts, lenient) == Apply(Apply(Apply(info, ts[0], lenient), ts[1], lenient), ts[2], lenient)
  {
    hide Apply;
    var i1 := Apply(info, ts[0], lenient);
    var i2 := Apply(i1, ts[1], lenient);
    assert ts[1..][0] == ts[1] && ts[1..][1..] == [ts[2]];
    assert ApplyAll(info, ts, lenient) == ApplyAll(i1, ts[1..], lenient) == ApplyAll(i2, ts[1..][1..], lenient);
    Fold1(ts[2], i2, lenient);
  }

  /** A 16-bit count and the entries. */
  function ListBytes(es: seq<Outgoing>): seq<Byte> {
    ToLe(|es|, 2) + EntriesBytes(es)
  }

  /** The container of search results. */
  function SearchResBytes(sender: KadId, key: KadId, es: seq<Outgoing>): seq<Byte> {
    SwapWords(sender) + (SwapWords(key) + ListBytes(es))
  }

  lemma SearchResReadsBack(sender: KadId, key: KadId, es: seq<Outgoing>)
    requires Sendable(es) && |es| <= U16_MAX
    ensures SearchResOf(SearchResBytes(sender, key, es)) == Some(SearchRes(sender, key, EntriesOf(RawsOf(es), false)))
  {
    hide *;
    var b := SearchResBytes(sender, key, es);
    Whole(b);
    SearchResIs(sender, key, es);
    AtConcat(b, 0, SwapWords(sender), SwapWords(key) + ListBytes(es));
    AtConcat(b, 16, SwapWords(key), ListBytes(es));
    IdReadsBack(b, 0, sender);
    IdReadsBack(b, 16, key);
    ListReadsBack(b, 32, es);
    SearchResFrom(b, sender, key, |es|, RawsOf(es));
  }

  lemma SearchResIs(sender: KadId, key: KadId, es: seq<Outgoing>)
    ensures SearchResBytes(sender, key, es) == SwapWords(sender) + (SwapWords(key) + ListBytes(es))
    ensures |SwapWords(sender)| == 16 == |SwapWords(key)|
  {
  }

  lemma SearchResFrom(b: seq<Byte>, sender: KadId, key: KadId, n: nat, raws: seq<Raw>)
    requires KadIdAt(b, 0) == Some((sender, 16)) && KadIdAt(b, 16) == Some((key, 32))
    requires NumberAt(b, 32, 2) == Some((n, 34)) && RawsAt(b, 34, n) == (raws, true)
    ensures SearchResOf(b) == Some(SearchRes(sender, key, EntriesOf(raws, false)))
  {
    hide KadIdAt, NumberAt, RawsAt, EntriesOf;
  }

  lemma ListReadsBack(b: seq<Byte>, i: nat, es: seq<Outgoing>)
    requires Sendable(es) && |es| <= U16_MAX && At(b, i, ListBytes(es))
    ensures NumberAt(b, i, 2) == Some((|es|, i + 2))
    ensures RawsAt(b, i + 2, |es|) == (RawsOf(es), true)
  {
    hide NumberAt, RawsAt, At, EntriesBytes, ToLe, Pow256, RawsOf;
    Pow256Values();
    AtConcat(b, i, ToLe(|es|, 2), EntriesBytes(es));
    NumberReadsBack(b, i, |es|, 2);
    EntriesReadBack(b, i + 2, es);
  }

  lemma Whole(b: seq<Byte>)
    ensures At(b, 0, b)
  {
    assert b[0..0 + |b|] == b;
  }

  datatype FoundSource = FoundSource(id: KadId, tcp: DestBytes, udp: DestBytes)
  datatype FoundFile = FoundFile(id: KadId, name: seq<Byte>, size: nat, fileType: Option<seq<Byte>>)

  function SourceEntry(s: FoundSource): Outgoing {
    Outgoing(s.id, SourceTags(s.tcp, s.udp))
  }

  function FileEntry(f: FoundFile): Outgoing {
    Outgoing(f.id, KeywordTags(f.name, f.size, f.fileType))
  }

  function SourceEntries(rs: seq<FoundSource>): (es: seq<Outgoing>)
    ensures |es| == |rs| && forall i :: 0 <= i < |rs| ==> es[i] == SourceEntry(rs[i])
  {
    if rs == [] then [] else [SourceEntry(rs[0])] + SourceEntries(rs[1..])
  }

  function FileEntries(fs: seq<FoundFile>): (es: seq<Outgoing>)
    ensures |es| == |fs| && forall i :: 0 <= i < |fs| ==> es[i] == FileEntry(fs[i])
  {
    if fs == [] then [] else [FileEntry(fs[0])] + FileEntries(fs[1..])
  }

  lemma OneMoreSource(rs: seq<FoundSource>, i: nat, front: seq<Byte>)
    requires i < |rs|
    ensures front + EntriesBytes(SourceEntries(rs[..i])) + SwapWords(rs[i].id) + WriteTagList(SourceTags(rs[i].tcp, rs[i].udp))
         == front + EntriesBytes(SourceEntries(rs[..i + 1]))
  {
    hide EntryBytes, EntriesBytes, SourceEntries, SwapWords, SourceTags, WriteTagList;
    var e := SourceEntry(rs[i]);
    SourceEntriesGrow(rs, i);
    OneMoreEntry(SourceEntries(rs[..i]), e, front);
  }

  lemma SourceEntriesGrow(rs: seq<FoundSource>, i: nat)
    requires i < |rs|
    ensures SourceEntries(rs[..i + 1]) == SourceEntries(rs[..i]) + [SourceEntry(rs[i])]
  {
    hide SourceEntry, SourceEntries;
    var more := SourceEntries(rs[..i + 1]);
    forall k | 0 <= k < i
      ensures more[k] == SourceEntries(rs[..i])[k]
    {
    }
  }

  lemma FileEntriesGrow(fs: seq<FoundFile>, i: nat)
    requires i < |fs|
    ensures FileEntries(fs[..i + 1]) == FileEntries(fs[..i]) + [FileEntry(fs[i])]
  {
    hide FileEntry, FileEntries;
    var more := FileEntries(fs[..i + 1]);
    forall k | 0 <= k < i
      ensures more[k] == FileEntries(fs[..i])[k]
    {
    }
  }

  lemma OneMoreEntry(es: seq<Outgoing>, e: Outgoing, front: seq<Byte>)
    ensures front + EntriesBytes(es) + SwapWords(e.id) + WriteTagList(e.tags) == front + EntriesBytes(es + [e])
  {
    hide EntryBytes, EntriesBytes, SwapWords, WriteTagList;
    EntriesBytesAppend(es, e);
    EntryParts(e, front + EntriesBytes(es));
    assert front + EntriesBytes(es) + EntryBytes(e) == front + (EntriesBytes(es) + EntryBytes(e));
  }

  lemma OneMoreFile(fs: seq<FoundFile>, i: nat, front: seq<Byte>)
    requires i < |fs|
    ensures front + EntriesBytes(FileEntries(fs[..i])) + SwapWords(fs[i].id)
            + WriteTagList(KeywordTags(fs[i].name, fs[i].size, fs[i].fileType))
         == front + EntriesBytes(FileEntries(fs[..i + 1]))
  {
    hide EntryBytes, EntriesBytes, FileEntries, SwapWords, KeywordTags, WriteTagList;
    var e := FileEntry(fs[i]);
    FileEntriesGrow(fs, i);
    OneMoreEntry(FileEntries(fs[..i]), e, front);
  }

  /** `encode_kad2_search_res_sources`. */
  method EncodeSearchResSources(sender: KadId, key: KadId, results: seq<FoundSource>) returns (out: seq<Byte>)
    ensures out == SearchResBytes(sender, key, SourceEntries(results[..Capped(|results|, U16_MAX)]))
  {
    hide EntriesBytes, SourceEntries, SwapWords, ToLe, SourceTags, WriteTagList;
    var count := Capped(|results|, U16_MAX);
    out := SwapWords(sender) + SwapWords(key);
    out := out + ToLe(count, 2);
    ghost var front := out;
    NothingFound();
    assert results[..0] == [] && front + [] == front;
    for i := 0 to count
      invariant out == front + EntriesBytes(SourceEntries(results[..i]))
    {
      OneMoreSource(results, i, front);
      out := out + SwapWords(results[i].id);
      out := out + WriteTagList(SourceTags(results[i].tcp, results[i].udp));
    }
    SearchResParts(sender, key, SourceEntries(results[..count]), front);
  }

  lemma NothingFound()
    ensures EntriesBytes(SourceEntries([])) == [] && EntriesBytes(FileEntries([])) == []
  {
  }

  lemma EntryParts(e: Outgoing, out: seq<Byte>)
    ensures out + SwapWords(e.id) + WriteTagList(e.tags) == out + EntryBytes(e)
  {
    hide SwapWords, WriteTagList;
  }

  lemma SearchResParts(sender: KadId, key: KadId, es: seq<Outgoing>, front: seq<Byte>)
    requires front == SwapWords(sender) + SwapWords(key) + ToLe(|es|, 2)
    ensures front + EntriesBytes(es) == SearchResBytes(sender, key, es)
  {
    hide *;
    SearchResIs(sender, key, es);
    ListIs(es);
    var a: seq<Byte>, b: seq<Byte> := SwapWords(sender), SwapWords(key);
    var c, d := ToLe(|es|, 2), EntriesBytes(es);
    Associative(a + b, c, d);
    Associative(a, b, c + d);
  }

  lemma ListIs(es: seq<Outgoing>)
    ensures ListBytes(es) == ToLe(|es|, 2) + EntriesBytes(es)
  {
  }

  /** `encode_kad2_search_res_keyword`. */
  method EncodeSearchResKeyword(sender: KadId, key: KadId, results: seq<FoundFile>) returns (out: seq<Byte>)
    ensures out == SearchResBytes(sender, key, FileEntries(results[..Capped(|results|, U16_MAX)]))
  {
    hide EntriesBytes, FileEntries, SwapWords, ToLe, KeywordTags, WriteTagList;
    var count := Capped(|results|, U16_MAX);
    out := SwapWords(sender) + SwapWords(key);
    out := out + ToLe(count, 2);
    ghost var front := out;
    NothingFound();
    assert results[..0] == [] && front + [] == front;
    for i := 0 to count
      invariant out == front + EntriesBytes(FileEntries(results[..i]))
    {
      OneMoreFile(results, i, front);
      out := out + SwapWords(results[i].id);
      out := out + WriteTagList(KeywordTags(results[i].name, results[i].size, results[i].fileType));
    }
    SearchResParts(sender, key, FileEntries(results[..count]), front);
  }

  lemma RawsOfAt(es: seq<Outgoing>, i: nat)
    requires i < |es|
    ensures RawsOf(es)[i] == Raw(es[i].id, Meanings(es[i].tags))
  {
    if i > 0 {
      RawsOfAt(es[1..], i - 1);
    }
  }

  lemma SourceEntriesSendable(rs: seq<FoundSource>)
    ensures Sendable(SourceEntries(rs))
  {
  }

  predicate Small(fs: seq<FoundFile>) {
    forall i :: 0 <= i < |fs| ==> fs[i].size < 0x1_0000_0000_0000_0000
  }

  lemma FileEntriesSendable(fs: seq<FoundFile>)
    requires Small(fs)
    ensures Sendable(FileEntries(fs))
  {
  }

  /** Source results survive the wire, as many as the 16-bit count can hold. */
  lemma SourcesRoundTrip(sender: KadId, key: KadId, results: seq<FoundSource>)
    ensures
        var sent := results[..Capped(|results|, U16_MAX)];
        var got := SearchResOf(SearchResBytes(sender, key, SourceEntries(sent)));
        && got.Some? && got.value.sender == sender && got.value.key == key
        && |got.value.results| == |sent|
        && forall i :: 0 <= i < |sent| ==>
             SourceOf(got.value.results[i]) == Source(sent[i].id, Some(sent[i].tcp), Some(sent[i].udp), Some(1))
  {
    hide SearchResOf, SearchResBytes, RawsOf, Meanings, InfoOf, SourceTags;
    var sent := results[..Capped(|results|, U16_MAX)];
    var es := SourceEntries(sent);
    SourceEntriesSendable(sent);
    SearchResReadsBack(sender, key, es);
    forall i | 0 <= i < |sent|
      ensures SourceOf(EntriesOf(RawsOf(es), false)[i]) == Source(sent[i].id, Some(sent[i].tcp), Some(sent[i].udp), Some(1))
    {
      RawsOfAt(es, i);
      SourceTagsSay(sent[i].tcp, sent[i].udp, None, false);
      assert PublishSourceTags(sent[i].tcp, sent[i].udp, None) == SourceTags(sent[i].tcp, sent[i].udp);
    }
  }

  /** What a keyword entry says after the wire: a name or type of more than 4096 bytes is
      lost, everything else arrives. */
  predicate Says(e: Entry, f: FoundFile) {
    && e.id == f.id
    && e.info == NO_INFO.(fileName := Carried(Some(f.name)), fileSize := Some(f.size), fileType := Carried(f.fileType))
  }

  lemma FilesSay(fs: seq<FoundFile>, lenient: bool)
    ensures forall i :: 0 <= i < |fs| ==> Says(EntriesOf(RawsOf(FileEntries(fs)), lenient)[i], fs[i])
  {
    hide RawsOf, Meanings, InfoOf, KeywordTags;
    var es := FileEntries(fs);
    forall i | 0 <= i < |fs|
      ensures Says(EntriesOf(RawsOf(es), lenient)[i], fs[i])
    {
      RawsOfAt(es, i);
      KeywordTagsSay(fs[i].name, fs[i].size, fs[i].fileType, lenient);
    }
  }

  lemma KeywordsRoundTrip(sender: KadId, key: KadId, results: seq<FoundFile>)
    requires Small(results)
    ensures
        var sent := results[..Capped(|results|, U16_MAX)];
        var got := SearchResOf(SearchResBytes(sender, key, FileEntries(sent)));
        && got.Some? && got.value.sender == sender && got.value.key == key
        && |got.value.results| == |sent|
        && forall i :: 0 <= i < |sent| ==> Says(got.value.results[i], sent[i])
  {
    hide SearchResOf, SearchResBytes, RawsOf, Says;
    var sent := results[..Capped(|results|, U16_MAX)];
    FileEntriesSendable(sent);
    SearchResReadsBack(sender, key, FileEntries(sent));
    FilesSay(sent, false);
  }

  function PublishKeyBytes(keyword: KadId, es: seq<Outgoing>): seq<Byte> {
    SwapWords(keyword) + ListBytes(es)
  }

  /** `encode_kad2_publish_key_req`. */
  method EncodePublishKeyReq(keyword: KadId, entries: seq<FoundFile>) returns (out: seq<Byte>)
    ensures out == PublishKeyBytes(keyword, FileEntries(entries[..Capped(|entries|, U16_MAX)]))
  {
    hide EntriesBytes, FileEntries, SwapWords, ToLe, KeywordTags, WriteTagList;
    var count := Capped(|entries|, U16_MAX);
    out := SwapWords(keyword);
    out := out + ToLe(count, 2);
    ghost var front := out;
    NothingFound();
    assert entries[..0] == [] && front + [] == front;
    for i := 0 to count
      invariant out == front + EntriesBytes(FileEntries(entries[..i]))
    {
      OneMoreFile(entries, i, front);
      out := out + SwapWords(entries[i].id);
      out := out + WriteTagList(KeywordTags(entries[i].name, entries[i].size, entries[i].fileType));
    }
  }

  lemma PublishKeyReadsBack(keyword: KadId, es: seq<Outgoing>)
    requires Sendable(es) && |es| <= U16_MAX
    ensures PublishKeyOf(PublishKeyBytes(keyword, es)) == Some(PublishKey(keyword, |es|, RawsOf(es), true))
  {
    hide *;
    var b := PublishKeyBytes(keyword, es);
    Whole(b);
    PublishKeyIs(keyword, es);
    AtConcat(b, 0, SwapWords(keyword), ListBytes(es));
    IdReadsBack(b, 0, keyword);
    ListReadsBack(b, 16, es);
    PublishKeyFrom(b, keyword, |es|, RawsOf(es));
  }

  lemma PublishKeyIs(keyword: KadId, es: seq<Outgoing>)
    ensures PublishKeyBytes(keyword, es) == SwapWords(keyword) + ListBytes(es)
  {
  }

  lemma PublishKeyFrom(b: seq<Byte>, keyword: KadId, n: nat, raws: seq<Raw>)
    requires KadIdAt(b, 0) == Some((keyword, 16))
    requires NumberAt(b, 16, 2) == Some((n, 18)) && RawsAt(b, 18, n) == (raws, true)
    ensures PublishKeyOf(b) == Some(PublishKey(keyword, n, raws, true))
  {
    hide KadIdAt, NumberAt, RawsAt;
  }

  /** A published keyword survives the wire, and both decoders report it alike. */
  lemma PublishKeyRoundTrip(keyword: KadId, entries: seq<FoundFile>)
    requires Small(entries)
    ensures
        var sent := entries[..Capped(|entries|, U16_MAX)];
        var b := PublishKeyBytes(keyword, FileEntries(sent));
        && Strict(b).Some? && Strict(b).value.keyword == keyword && |Strict(b).value.entries| == |sent|
        && (forall i :: 0 <= i < |sent| ==> Says(Strict(b).value.entries[i], sent[i]))
        && Lenient(b) == Some(PublishKeyReqLenient(keyword, |sent|, true, Strict(b).value.entries))
  {
    hide PublishKeyOf, PublishKeyBytes, RawsOf;
    var sent := entries[..Capped(|entries|, U16_MAX)];
    FileEntriesSendable(sent);
    PublishKeyReadsBack(keyword, FileEntries(sent));
    FilesSay(sent, false);
    FilesSay(sent, true);
    var strict, lenient := EntriesOf(RawsOf(FileEntries(sent)), false), EntriesOf(RawsOf(FileEntries(sent)), true);
    forall i | 0 <= i < |sent|
      ensures strict[i] == lenient[i]
    {
      assert Says(strict[i], sent[i]) && Says(lenient[i], sent[i]);
    }
    assert strict == lenient;
  }

  /** `encode_kad2_publish_source_req`. */
  function PublishSourceBytes(file: KadId, source: KadId, tcp: DestBytes, udp: DestBytes, fileSize: Option<nat>): seq<Byte> {
    SwapWords(file) + (SwapWords(source) + WriteTagList(PublishSourceTags(tcp, udp, fileSize)))
  }

  lemma PublishSourceRoundTrip(file: KadId, source: KadId, tcp: DestBytes, udp: DestBytes, fileSize: Option<nat>)
    requires fileSize.Some? ==> fileSize.value < 0x1_0000_0000_0000_0000
    ensures PublishSourceOf(PublishSourceBytes(file, source, tcp, udp, fileSize))
         == Some(PublishSource(file, source,
              NO_INFO.(sourceType := Some(1), sourceDest := Some(tcp), sourceUdpDest := Some(udp), fileSize := fileSize)))
  {
    hide SwapWords, KadIdAt, At, WriteTagList, TagListAt, InfoOf, Meanings;
    var b, tags := PublishSourceBytes(file, source, tcp, udp, fileSize), PublishSourceTags(tcp, udp, fileSize);
    Whole(b);
    AtConcat(b, 0, SwapWords(file), SwapWords(source) + WriteTagList(tags));
    AtConcat(b, 16, SwapWords(source), WriteTagList(tags));
    IdReadsBack(b, 0, file);
    IdReadsBack(b, 16, source);
    assert AllWritable(tags);
    TagListReadsBack(b, 32, tags);
    SourceTagsSay(tcp, udp, fileSize, false);
  }
}
