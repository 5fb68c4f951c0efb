/** The Kad messages that carry lists: their formats, and the decoders of `src/kad/wire.rs`. */
module Messages {
  import opened Wrappers
  import opened Collections
  import opened Bits
  import opened LittleEndian
  import opened Tags
  import opened WireReader
  import opened TagLists

  /** A result of a search or a published file: an identifier and its tags. */
  datatype Raw = Raw(id: KadId, tags: seq<Tag>)

  function RawAt(b: seq<Byte>, i: nat): Option<(Raw, nat)> {
    match KadIdAt(b, i)
    case None => None
    case Some((id, j)) =>
      match TagListAt(b, j)
      case None => None
      case Some((tags, k)) => Some((Raw(id, tags), k))
  }

  /** The longest readable prefix of n such entries, and whether it is all of them. */
  function RawsAt(b: seq<Byte>, i: nat, n: nat): (r: (seq<Raw>, bool))
    ensures |r.0| <= n
    ensures r.1 <==> |r.0| == n
    decreases n
  {
    if n == 0 then ([], true)
    else
      match RawAt(b, i)
      case None => ([], false)
      case Some((raw, j)) =>
        var (rest, complete) := RawsAt(b, j, n - 1);
        ([raw] + rest, complete)
  }

  /** An entry as one of the two parsers reports it. */
  datatype Entry = Entry(id: KadId, info: Info)

  function EntryOf(raw: Raw, lenient: bool): Entry {
    Entry(raw.id, InfoOf(raw.tags, lenient))
  }

  function EntriesOf(raws: seq<Raw>, lenient: bool): (r: seq<Entry>)
    ensures |r| == |raws| && forall i :: 0 <= i < |raws| ==> r[i] == EntryOf(raws[i], lenient)
    decreases raws
  {
    if raws == [] then [] else [EntryOf(raws[0], lenient)] + EntriesOf(raws[1..], lenient)
  }

  /** One more entry read, or the first one that cannot be. */
  lemma NextRaw(b: seq<Byte>, i: nat, n: nat)
    requires n > 0
    ensures RawAt(b, i).None? ==> RawsAt(b, i, n) == ([], false)
    ensures RawAt(b, i).Some? ==>
      var rest := RawsAt(b, RawAt(b, i).value.1, n - 1);
      RawsAt(b, i, n) == ([RawAt(b, i).value.0] + rest.0, rest.1)
  {
    hide RawAt;
  }

  method ReadStrictEntry(rd: Reader) returns (r: Result<Entry, WireError>)
    modifies rd
    ensures r.Success? <==> RawAt(rd.b, old(rd.i)).Some?
    ensures r.Success? ==>
      var (raw, j) := RawAt(rd.b, old(rd.i)).value;
      r.value == EntryOf(raw, false) && rd.i == j
  {
    hide TagListAt, InfoOf, SwapWords;
    var id :- rd.ReadKadId();
    var info :- ReadStrictInfo(rd);
    return Success(Entry(id, info));
  }

  /** The strict loop over entries: the first unreadable one is an error. */
  method ReadStrictEntries(rd: Reader, n: nat) returns (r: Result<seq<Entry>, WireError>)
    modifies rd
    ensures r.Success? <==> RawsAt(rd.b, old(rd.i), n).1
    ensures r.Success? ==> r.value == EntriesOf(RawsAt(rd.b, old(rd.i), n).0, false)
  {
    hide RawAt, RawsAt, InfoOf;
    var out: seq<Entry> := [];
    ghost var whole := RawsAt(rd.b, rd.i, n);
    ghost var done: seq<Raw> := [];
    assert [] + whole.0 == whole.0;
    for k := 0 to n
      invariant
          var rest := RawsAt(rd.b, rd.i, n - k);
          whole == (done + rest.0, rest.1)
      invariant out == EntriesOf(done, false)
    {
      NextRaw(rd.b, rd.i, n - k);
      ghost var raw := RawAt(rd.b, rd.i);
      var entry :- ReadStrictEntry(rd);
      EntriesAppend(done, raw.value.0, false);
      assert done + ([raw.value.0] + RawsAt(rd.b, rd.i, n - k - 1).0) == done + [raw.value.0] + RawsAt(rd.b, rd.i, n - k - 1).0;
      done := done + [raw.value.0];
      out := out + [entry];
    }
    NoRaws(rd.b, rd.i);
    assert done + [] == done;
    return Success(out);
  }

  lemma NoRaws(b: seq<Byte>, i: nat)
    ensures RawsAt(b, i, 0) == ([], true)
  {
  }

  /** The lenient loop: it keeps what it could read. */
  method ReadLenientEntries(rd: Reader, n: nat) returns (out: seq<Entry>, complete: bool)
    modifies rd
    ensures out == EntriesOf(RawsAt(rd.b, old(rd.i), n).0, true)
    ensures complete == RawsAt(rd.b, old(rd.i), n).1
  {
    NoEntries(true);
    hide TagListAt, RawsAt, InfoOf, SwapWords, EntriesOf;
    out, complete := [], true;
    ghost var whole := RawsAt(rd.b, rd.i, n);
    ghost var done: seq<Raw> := [];
    assert [] + whole.0 == whole.0;
    for k := 0 to n
      invariant complete
      invariant
          var rest := RawsAt(rd.b, rd.i, n - k);
          whole == (done + rest.0, rest.1)
      invariant out == EntriesOf(done, true)
    {
      assert done + [] == done;
      NextRaw(rd.b, rd.i, n - k);
      ghost var raw := RawAt(rd.b, rd.i);
      var id := rd.ReadKadId();
      if id.Failure? {
        complete := false;
        break;
      }
      var info := ReadLenientInfo(rd);
      if info.Failure? {
        complete := false;
        break;
      }
      EntriesAppend(done, raw.value.0, true);
      Associative(done, [raw.value.0], RawsAt(rd.b, rd.i, n - k - 1).0);
      done := done + [raw.value.0];
      out := out + [Entry(id.value, info.value)];
    }
    NoRaws(rd.b, rd.i);
    assert done + [] == done;
  }

  lemma NoEntries(lenient: bool)
    ensures EntriesOf([], lenient) == []
  {
  }

  lemma {:induction false} EntriesAppend(raws: seq<Raw>, raw: Raw, lenient: bool)
    ensures EntriesOf(raws + [raw], lenient) == EntriesOf(raws, lenient) + [EntryOf(raw, lenient)]
  {
  }

  /** A publish-key message: keyword, declared number of entries, what is readable of them. */
  datatype PublishKey = PublishKey(keyword: KadId, declared: nat, raws: seq<Raw>, complete: bool)

  function PublishKeyOf(payload: seq<Byte>): Option<PublishKey> {
    match (KadIdAt(payload, 0), NumberAt(payload, 16, 2))
    case (Some((keyword, _)), Some((n, j))) =>
      var (raws, complete) := RawsAt(payload, j, n);
      Some(PublishKey(keyword, n, raws, complete))
    case _ => None
  }

  datatype PublishKeyReq = PublishKeyReq(keyword: KadId, entries: seq<Entry>)
  datatype PublishKeyReqLenient = PublishKeyReqLenient(keyword: KadId, declared: nat, complete: bool, entries: seq<Entry>)

  /** What the strict and the lenient decoder return on a payload. */
  function Strict(payload: seq<Byte>): Option<PublishKeyReq> {
    match PublishKeyOf(payload)
    case None => None
    case Some(m) => if m.complete then Some(PublishKeyReq(m.keyword, EntriesOf(m.raws, false))) else None
  }

  function Lenient(payload: seq<Byte>): Option<PublishKeyReqLenient> {
    match PublishKeyOf(payload)
    case None => None
    case Some(m) => Some(PublishKeyReqLenient(m.keyword, m.declared, m.complete, EntriesOf(m.raws, true)))
  }

  method DecodePublishKeyReq(payload: seq<Byte>) returns (r: Result<PublishKeyReq, WireError>)
    ensures r.Success? <==> Strict(payload).Some?
    ensures r.Success? ==> r.value == Strict(payload).value
  {
    hide RawsAt, EntriesOf, SwapWords, FromLe;
    var rd := new Reader(payload);
    var keyword :- rd.ReadKadId();
    var n :- rd.ReadLe(2);
    var entries :- ReadStrictEntries(rd, n);
    return Success(PublishKeyReq(keyword, entries));
  }

  method DecodePublishKeyReqLenient(payload: seq<Byte>) returns (r: Result<PublishKeyReqLenient, WireError>)
    ensures r.Success? <==> Lenient(payload).Some?
    ensures r.Success? ==> r.value == Lenient(payload).value
  {
    hide RawsAt, EntriesOf, SwapWords, FromLe;
    var rd := new Reader(payload);
    var keyword :- rd.ReadKadId();
    var n :- rd.ReadLe(2);
    var entries, complete := ReadLenientEntries(rd, n);
    return Success(PublishKeyReqLenient(keyword, n, complete, entries));
  }

  /** The strict decoder succeeds exactly when the lenient one reports the message complete;
      then they agree on the keyword and, in order, on every file, name and type, and on
      every file size where no one-byte file size tag occurs. */
  lemma DecodersAgree(payload: seq<Byte>)
    ensures Strict(payload).Some? <==> Lenient(payload).Some? && Lenient(payload).value.complete
    ensures Strict(payload).Some? ==>
      var strict, lenient := Strict(payload).value, Lenient(payload).value;
      && strict.keyword == lenient.keyword
      && |strict.entries| == |lenient.entries| == lenient.declared == |PublishKeyOf(payload).value.raws|
      && forall i :: 0 <= i < |strict.entries| ==>
           && strict.entries[i].id == lenient.entries[i].id
           && SameBesidesNumbers(strict.entries[i].info, lenient.entries[i].info)
           && (NoByteSize(PublishKeyOf(payload).value.raws[i].tags) ==>
                 strict.entries[i].info.fileSize == lenient.entries[i].info.fileSize)
  {
    hide InfoOf, SameBesidesNumbers, NoByteSize, RawsAt, KadIdAt, NumberAt;
    if Strict(payload).Some? {
      var raws := PublishKeyOf(payload).value.raws;
      forall i | 0 <= i < |raws|
        ensures SameBesidesNumbers(InfoOf(raws[i].tags, false), InfoOf(raws[i].tags, true))
        ensures NoByteSize(raws[i].tags) ==> InfoOf(raws[i].tags, false).fileSize == InfoOf(raws[i].tags, true).fileSize
      {
        EntriesAgree(raws[i].tags);
      }
    }
  }

  lemma EntriesAgree(tags: seq<Tag>)
    ensures SameBesidesNumbers(InfoOf(tags, false), InfoOf(tags, true))
    ensures NoByteSize(tags) ==> InfoOf(tags, false).fileSize == InfoOf(tags, true).fileSize
  {
    ParsersAgree(NO_INFO, NO_INFO, tags);
    if NoByteSize(tags) {
      SameSizeWithoutByteSize(tags);
    }
  }

  /** The entry after the last one the lenient parser keeps cannot be read: where the
      first k entries end, the next one fails. */
  lemma {:induction false} LongestPrefix(b: seq<Byte>, i: nat, n: nat)
    requires !RawsAt(b, i, n).1
    ensures
        var k := |RawsAt(b, i, n).0|;
        && k < n && RawsAt(b, i, k) == (RawsAt(b, i, n).0, true)
        && RawAt(b, EndAfter(b, i, k)).None?
    decreases n
  {
    if RawAt(b, i).Some? {
      LongestPrefix(b, RawAt(b, i).value.1, n - 1);
    }
  }

  /** The position after k readable entries. */
  function EndAfter(b: seq<Byte>, i: nat, k: nat): nat
    requires RawsAt(b, i, k).1
    decreases k
  {
    if k == 0 then i else EndAfter(b, RawAt(b, i).value.1, k - 1)
  }

  datatype SearchRes = SearchRes(sender: KadId, key: KadId, results: seq<Entry>)

  function SearchResOf(payload: seq<Byte>): Option<SearchRes> {
    match (KadIdAt(payload, 0), KadIdAt(payload, 16), NumberAt(payload, 32, 2))
    case (Some((sender, _)), Some((key, _)), Some((n, j))) =>
      var (raws, complete) := RawsAt(payload, j, n);
      if complete then Some(SearchRes(sender, key, EntriesOf(raws, false))) else None
    case _ => None
  }

  method DecodeSearchRes(payload: seq<Byte>) returns (r: Result<SearchRes, WireError>)
    ensures r.Success? <==> SearchResOf(payload).Some?
    ensures r.Success? ==> r.value == SearchResOf(payload).value
  {
    hide RawsAt, EntriesOf, SwapWords, FromLe;
    var rd := new Reader(payload);
    var sender :- rd.ReadKadId();
    var key :- rd.ReadKadId();
    var n :- rd.ReadLe(2);
    var entries :- ReadStrictEntries(rd, n);
    return Success(SearchRes(sender, key, entries));
  }

  /** One source out of a search result; the best datagram destination is the first known of
      the datagram, the stream and the unnamed one. */
  datatype Source = Source(id: KadId, tcpDest: Option<seq<Byte>>, udpDest: Option<seq<Byte>>, sourceType: Option<nat>)

  function Or<T>(a: Option<T>, b: Option<T>): Option<T> {
    if a.Some? then a else b
  }

  function SourceOf(e: Entry): Source {
    Source(e.id, e.info.sourceDest, Or(Or(e.info.sourceUdpDest, e.info.sourceDest), e.info.fallbackDest), e.info.sourceType)
  }

  datatype PublishSource = PublishSource(file: KadId, source: KadId, info: Info)

  function PublishSourceOf(payload: seq<Byte>): Option<PublishSource> {
    match (KadIdAt(payload, 0), KadIdAt(payload, 16), InfoAt(payload, 32, false))
    case (Some((file, _)), Some((source, _)), Some((info, _))) => Some(PublishSource(file, source, info))
    case _ => None
  }

  method DecodePublishSourceReq(payload: seq<Byte>) returns (r: Result<PublishSource, WireError>)
    ensures r.Success? <==> PublishSourceOf(payload).Some?
    ensures r.Success? ==> r.value == PublishSourceOf(payload).value
  {
    hide TagListAt, SwapWords;
    var rd := new Reader(payload);
    var file :- rd.ReadKadId();
    var source :- rd.ReadKadId();
    var info :- ReadStrictInfo(rd);
    return Success(PublishSource(file, source, info));
  }

  datatype Hello = Hello(version: Byte, id: KadId, udpDest: seq<Byte>, info: HelloInfo)

  function HelloOf(payload: seq<Byte>): Option<Hello> {
    if |payload| < 1 then None
    else
      match (KadIdAt(payload, 1), BytesAt(payload, 17, DEST_LEN), HelloAt(payload, 17 + DEST_LEN))
      case (Some((id, _)), Some((dest, _)), Some((info, _))) => Some(Hello(payload[0], id, dest, info))
      case _ => None
  }

  method DecodeHello(payload: seq<Byte>) returns (r: Result<Hello, WireError>)
    ensures r.Success? <==> HelloOf(payload).Some?
    ensures r.Success? ==> r.value == HelloOf(payload).value
  {
    hide HelloAt, SwapWords, FromLe;
    var rd := new Reader(payload);
    OneByteNumber(payload, 0);
    var version :- rd.ReadLe(1);
    var id :- rd.ReadKadId();
    var dest :- rd.ReadBytes(DEST_LEN);
    var info :- ReadHelloInfo(rd);
    return Success(Hello(payload[0], id, dest, info));
  }

  datatype Contact = Contact(version: Byte, id: KadId, udpDest: seq<Byte>)

  function ContactAt(b: seq<Byte>, i: nat): Option<(Contact, nat)> {
    if i >= |b| then None
    else
      match (KadIdAt(b, i + 1), BytesAt(b, i + 17, DEST_LEN))
      case (Some((id, _)), Some((dest, j))) => Some((Contact(b[i], id, dest), j))
      case _ => None
  }

  function ContactsAt(b: seq<Byte>, i: nat, n: nat): Option<seq<Contact>>
    decreases n
  {
    if n == 0 then Some([])
    else
      match ContactAt(b, i)
      case None => None
      case Some((c, j)) =>
        match ContactsAt(b, j, n - 1)
        case None => None
        case Some(cs) => Some([c] + cs)
  }

  lemma NextContact(b: seq<Byte>, i: nat, n: nat)
    requires n > 0
    ensures ContactAt(b, i).None? ==> ContactsAt(b, i, n).None?
    ensures ContactAt(b, i).Some? ==>
      var (c, j) := ContactAt(b, i).value;
      var rest := ContactsAt(b, j, n - 1);
      ContactsAt(b, i, n) == if rest.None? then None else Some([c] + rest.value)
  {
    hide ContactAt;
  }

  lemma NoContacts(b: seq<Byte>, i: nat)
    ensures ContactsAt(b, i, 0) == Some([])
  {
  }

  method ReadContacts(rd: Reader, n: nat) returns (r: Result<seq<Contact>, WireError>)
    modifies rd
    ensures r.Success? <==> ContactsAt(rd.b, old(rd.i), n).Some?
    ensures r.Success? ==> r.value == ContactsAt(rd.b, old(rd.i), n).value
  {
    hide SwapWords, FromLe, ContactsAt;
    var out: seq<Contact> := [];
    ghost var whole := ContactsAt(rd.b, rd.i, n);
    assert whole.Some? ==> [] + whole.value == whole.value;
    for k := 0 to n
      invariant
          var rest := ContactsAt(rd.b, rd.i, n - k);
          && (whole.Some? <==> rest.Some?)
          && (whole.Some? ==> whole.value == out + rest.value)
    {
      var start := rd.i;
      OneByteNumber(rd.b, start);
      NextContact(rd.b, start, n - k);
      var version :- rd.ReadLe(1);
      var id :- rd.ReadKadId();
      var dest :- rd.ReadBytes(DEST_LEN);
      var c := Contact(rd.b[start], id, dest);
      ghost var rest := ContactsAt(rd.b, rd.i, n - k - 1);
      if rest.Some? {
        Associative(out, [c], rest.value);
      }
      out := out + [c];
    }
    NoContacts(rd.b, rd.i);
    assert out + [] == out;
    return Success(out);
  }

  datatype Res = Res(target: KadId, contacts: seq<Contact>)

  function ResOf(payload: seq<Byte>): Option<Res> {
    if |payload| < 17 then None
    else
      match ContactsAt(payload, 17, payload[16])
      case None => None
      case Some(cs) => Some(Res(SwapWords(payload[..16]), cs))
  }

  method DecodeRes(payload: seq<Byte>) returns (r: Result<Res, WireError>)
    ensures r.Success? <==> ResOf(payload).Some?
    ensures r.Success? ==> r.value == ResOf(payload).value
  {
    hide ContactsAt, SwapWords, FromLe;
    var rd := new Reader(payload);
    var target :- rd.ReadKadId();
    OneByteNumber(payload, 16);
    assert payload[0..16] == payload[..16];
    var n :- rd.ReadLe(1);
    var contacts :- ReadContacts(rd, n);
    return Success(Res(target, contacts));
  }

  datatype BootstrapRes = BootstrapRes(sender: KadId, version: Byte, tcpDest: seq<Byte>, contacts: seq<Contact>)

  function BootstrapResOf(payload: seq<Byte>): Option<BootstrapRes> {
    match (ContactFirst(payload), NumberAt(payload, 17 + DEST_LEN, 2))
    case (Some((sender, version, dest)), Some((n, j))) =>
      (match ContactsAt(payload, j, n)
       case None => None
       case Some(cs) => Some(BootstrapRes(sender, version, dest, cs)))
    case _ => None
  }

  function ContactFirst(b: seq<Byte>): Option<(KadId, Byte, seq<Byte>)> {
    if |b| < 17 + DEST_LEN then None else Some((SwapWords(b[..16]), b[16], b[17..17 + DEST_LEN]))
  }

  method DecodeBootstrapRes(payload: seq<Byte>) returns (r: Result<BootstrapRes, WireError>)
    ensures r.Success? <==> BootstrapResOf(payload).Some?
    ensures r.Success? ==> r.value == BootstrapResOf(payload).value
  {
    hide ContactsAt, SwapWords, FromLe;
    var rd := new Reader(payload);
    var sender :- rd.ReadKadId();
    OneByteNumber(payload, 16);
    assert payload[0..16] == payload[..16];
    var version :- rd.ReadLe(1);
    var dest :- rd.ReadBytes(DEST_LEN);
    var n :- rd.ReadLe(2);
    var contacts :- ReadContacts(rd, n);
    return Success(BootstrapRes(sender, payload[16], dest, contacts));
  }

  datatype Req = Req(contacts: nat, target: KadId, check: KadId, sender: Option<KadId>)

  function ReqOf(payload: seq<Byte>): Option<Req> {
    if |payload| < 33 || payload[0] % 32 == 0 then None
    else
      Some(Req(payload[0] % 32, SwapWords(payload[1..17]), SwapWords(payload[17..33]),
               if |payload| >= 49 then Some(SwapWords(payload[33..49])) else None))
  }

  method DecodeReq(payload: seq<Byte>) returns (r: Result<Req, WireError>)
    ensures r.Success? <==> ReqOf(payload).Some?
    ensures r.Success? ==> r.value == ReqOf(payload).value
  {
    hide SwapWords, FromLe;
    var rd := new Reader(payload);
    OneByteNumber(payload, 0);
    var first :- rd.ReadLe(1);
    var contacts := first % 32;
    if contacts == 0 {
      return Failure(InvalidFormat);
    }
    var target :- rd.ReadKadId();
    var check :- rd.ReadKadId();
    var sender := None;
    if |payload| - rd.i >= 16 {
      var id := rd.ReadKadId();
      sender := Some(id.value);
    }
    return Success(Req(contacts, target, check, sender));
  }
}
