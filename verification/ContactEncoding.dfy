/** HELLO, REQ, RES and BOOTSTRAP_RES: their encoders and round trips. */
module ContactEncoding {
  import opened Wrappers
  import opened Bits
  import opened LittleEndian
  import opened Tags
  import opened TagEncoding
  import opened WireReader
  import opened Messages
  import opened MessageEncoding

  function HelloBytes(version: Byte, id: KadId, dest: DestBytes, tags: FewTags): seq<Byte> {
    [version] + (SwapWords(id) + (dest + WriteTagList(tags)))
  }

  /** `encode_kad2_hello`: the only tag is our agent. */
  function EncodeHello(version: Byte, id: KadId, dest: DestBytes, agent: seq<Byte>): seq<Byte> {
    HelloBytes(version, id, dest, [Str(TAG_AGENT, agent)])
  }

  /** `encode_kad2_hello_req`: no tags. */
  function EncodeHelloReq(version: Byte, id: KadId, dest: DestBytes): seq<Byte> {
    HelloBytes(version, id, dest, [])
  }

  /** The change made to an encoded HELLO_RES to ask for an acknowledgement: the tag count is
      overwritten in place and an options tag is pushed at the end. */
  function AskForAck(hello: seq<Byte>): seq<Byte>
    requires |hello| > 17 + DEST_LEN
  {
    hello[17 + DEST_LEN := 2] + [0x89, TAG_KADMISCOPTIONS, 0x04]
  }

  lemma HelloFrom(b: seq<Byte>, id: KadId, dest: DestBytes, tags: seq<Tag>, end: nat)
    requires |b| > 0 && KadIdAt(b, 1) == Some((id, 17)) && BytesAt(b, 17, DEST_LEN) == Some((dest, 17 + DEST_LEN))
    requires TagListAt(b, 17 + DEST_LEN) == Some((tags, end))
    ensures HelloOf(b) == Some(Hello(b[0], id, dest, ApplyHelloAll(HelloInfo(map[], None), tags)))
  {
    hide KadIdAt, BytesAt, TagListAt, ApplyHelloAll;
  }

  lemma HelloReadsBack(version: Byte, id: KadId, dest: DestBytes, tags: FewTags)
    requires AllWritable(tags)
    ensures HelloOf(HelloBytes(version, id, dest, tags))
         == Some(Hello(version, id, dest, ApplyHelloAll(HelloInfo(map[], None), Meanings(tags))))
  {
    var b := HelloBytes(version, id, dest, tags);
    hide *;
    HelloIs(version, id, dest, tags);
    Whole(b);
    AtConcat(b, 0, [version], SwapWords(id) + (dest + WriteTagList(tags)));
    AtConcat(b, 1, SwapWords(id), dest + WriteTagList(tags));
    AtConcat(b, 17, dest, WriteTagList(tags));
    IdReadsBack(b, 1, id);
    BytesReadBack(b, 17, dest);
    TagListReadsBack(b, 17 + DEST_LEN, tags);
    HelloFrom(b, id, dest, Meanings(tags), 17 + DEST_LEN + |WriteTagList(tags)|);
  }

  lemma HelloIs(version: Byte, id: KadId, dest: DestBytes, tags: FewTags)
    ensures HelloBytes(version, id, dest, tags) == [version] + (SwapWords(id) + (dest + WriteTagList(tags)))
    ensures |SwapWords(id)| == 16 && |dest| == DEST_LEN
    ensures |HelloBytes(version, id, dest, tags)| > 0 && HelloBytes(version, id, dest, tags)[0] == version
  {
    hide SwapWords, WriteTagList;
  }

  /** HELLO arrives with its version, identity, destination and agent. */
  lemma HelloRoundTrip(version: Byte, id: KadId, dest: DestBytes, agent: seq<Byte>)
    ensures HelloOf(EncodeHello(version, id, dest, agent))
         == Some(Hello(version, id, dest, HelloInfo(map[], Carried(Some(agent)))))
    ensures HelloOf(EncodeHelloReq(version, id, dest)) == Some(Hello(version, id, dest, HelloInfo(map[], None)))
  {
    hide HelloOf, HelloBytes;
    var w := Str(TAG_AGENT, agent);
    HelloReadsBack(version, id, dest, [w]);
    HelloReadsBack(version, id, dest, []);
    One(w);
    HelloFold1(Meaning(w), HelloInfo(map[], None));
  }

  lemma HelloFold1(t: Tag, h: HelloInfo)
    ensures ApplyHelloAll(h, [t]) == ApplyHello(h, t)
  {
    hide ApplyHello;
    assert [t][1..] == [];
    assert ApplyHelloAll(ApplyHello(h, t), []) == ApplyHello(h, t);
  }

  lemma HelloFold2(t: Tag, u: Tag, h: HelloInfo)
    ensures ApplyHelloAll(h, [t, u]) == ApplyHello(ApplyHello(h, t), u)
  {
    hide ApplyHello;
    assert [t, u][1..] == [u];
    HelloFold1(u, ApplyHello(h, t));
  }

  /** The patched HELLO_RES is exactly the HELLO with the options tag as a second tag... */
  lemma PatchIsSecondTag(version: Byte, id: KadId, dest: DestBytes, agent: seq<Byte>)
    ensures |EncodeHello(version, id, dest, agent)| > 17 + DEST_LEN
    ensures AskForAck(EncodeHello(version, id, dest, agent))
         == HelloBytes(version, id, dest, [Str(TAG_AGENT, agent), U8(TAG_KADMISCOPTIONS, 4)])
  {
    hide SwapWords, ToLe;
    var a, o := Str(TAG_AGENT, agent), U8(TAG_KADMISCOPTIONS, 4);
    OptionBytes();
    assert [a, o][1..] == [o] && [o][1..] == [] && [a][1..] == [];
    assert WriteTags([a, o]) == WriteTag(a) + WriteTags([o]);
    assert WriteTags([o]) == WriteTag(o) + WriteTags([]);
    assert WriteTags([a]) == WriteTag(a) + WriteTags([]);
    assert WriteTagList([a, o]) == [2] + WriteTag(a) + WriteTag(o);
    assert WriteTagList([a]) == [1] + WriteTag(a);
    PatchAfter([version] + (SwapWords(id) + dest), WriteTag(a), WriteTag(o));
    assert [version] + (SwapWords(id) + dest) + [1] + WriteTag(a) == EncodeHello(version, id, dest, agent);
  }

  lemma OptionBytes()
    ensures WriteTag(U8(TAG_KADMISCOPTIONS, 4)) == [0x89, TAG_KADMISCOPTIONS, 0x04]
  {
    assert ToLe(4, 1) == [4] + ToLe(0, 0);
  }

  lemma PatchAfter(front: seq<Byte>, tag: seq<Byte>, more: seq<Byte>)
    ensures (front + [1] + tag)[|front| := 2] + more == front + ([2] + tag + more)
  {
  }

  /** ... so it arrives with the option set and everything else as before. */
  lemma AskForAckRoundTrip(version: Byte, id: KadId, dest: DestBytes, agent: seq<Byte>)
    ensures |EncodeHello(version, id, dest, agent)| > 17 + DEST_LEN
    ensures HelloOf(AskForAck(EncodeHello(version, id, dest, agent)))
         == Some(Hello(version, id, dest, HelloInfo(map[TAG_KADMISCOPTIONS := 4], Carried(Some(agent)))))
  {
    PatchIsSecondTag(version, id, dest, agent);
    hide HelloOf, HelloBytes, EncodeHello, AskForAck;
    var a, o := Str(TAG_AGENT, agent), U8(TAG_KADMISCOPTIONS, 4);
    HelloReadsBack(version, id, dest, [a, o]);
    MeaningsConcat([a], [o]);
    One(a);
    One(o);
    assert [a] + [o] == [a, o] && [Meaning(a)] + [Meaning(o)] == [Meaning(a), Meaning(o)];
    HelloFold2(Meaning(a), Meaning(o), HelloInfo(map[], None));
  }

  predicate WellFormed(c: Contact) {
    |c.udpDest| == DEST_LEN
  }

  predicate AllWellFormed(cs: seq<Contact>) {
    forall i :: 0 <= i < |cs| ==> WellFormed(cs[i])
  }

  function ContactBytes(c: Contact): seq<Byte> {
    [c.version] + (SwapWords(c.id) + c.udpDest)
  }

  function ContactsBytes(cs: seq<Contact>): seq<Byte> {
    if cs == [] then [] else ContactBytes(cs[0]) + ContactsBytes(cs[1..])
  }

  lemma {:induction false} ContactsBytesAppend(cs: seq<Contact>, c: Contact)
    ensures ContactsBytes(cs + [c]) == ContactsBytes(cs) + ContactBytes(c)
  {
    hide ContactBytes;
    if cs == [] {
      assert [c][1..] == [] && cs + [c] == [c];
      assert ContactsBytes([c]) == ContactBytes(c) + ContactsBytes([c][1..]);
    } else {
      assert (cs + [c])[0] == cs[0] && (cs + [c])[1..] == cs[1..] + [c];
      ContactsBytesAppend(cs[1..], c);
    }
  }

  lemma ContactReadsBack(b: seq<Byte>, i: nat, c: Contact)
    requires WellFormed(c) && At(b, i, ContactBytes(c))
    ensures ContactAt(b, i) == Some((c, i + |ContactBytes(c)|))
  {
    hide SwapWords, KadIdAt, BytesAt;
    AtConcat(b, i, [c.version], SwapWords(c.id) + c.udpDest);
    AtConcat(b, i + 1, SwapWords(c.id), c.udpDest);
    assert b[i] == b[i..i + 1][0];
    IdReadsBack(b, i + 1, c.id);
    BytesReadBack(b, i + 17, c.udpDest);
  }

  lemma {:induction false} ContactsReadBack(b: seq<Byte>, i: nat, cs: seq<Contact>)
    requires AllWellFormed(cs) && At(b, i, ContactsBytes(cs))
    ensures ContactsAt(b, i, |cs|) == Some(cs)
    decreases cs
  {
    hide At, ContactAt, ContactBytes, WellFormed;
    if cs != [] {
      AtConcat(b, i, ContactBytes(cs[0]), ContactsBytes(cs[1..]));
      ContactReadsBack(b, i, cs[0]);
      ContactsReadBack(b, i + |ContactBytes(cs[0])|, cs[1..]);
      assert cs == [cs[0]] + cs[1..];
    }
  }

  function ResBytes(target: KadId, cs: seq<Contact>): seq<Byte>
    requires |cs| < 0x100
  {
    SwapWords(target) + ([|cs|] + ContactsBytes(cs))
  }

  /** The writing loop shared by the two encoders: the first n contacts. */
  method WriteContacts(front: seq<Byte>, contacts: seq<Contact>, n: nat) returns (out: seq<Byte>)
    requires n <= |contacts|
    ensures out == front + ContactsBytes(contacts[..n])
  {
    hide SwapWords, ContactsBytes;
    out := front;
    NoContacts();
    for i := 0 to n
      invariant out == front + ContactsBytes(contacts[..i])
    {
      var c := contacts[i];
      assert contacts[..i + 1] == contacts[..i] + [c];
      ContactsBytesAppend(contacts[..i], c);
      assert out + [c.version] + SwapWords(c.id) + c.udpDest == out + ContactBytes(c);
      out := out + [c.version];
      out := out + SwapWords(c.id);
      out := out + c.udpDest;
    }
  }

  lemma NoContacts()
    ensures ContactsBytes([]) == []
  {
  }

  /** `encode_kad2_res`: at most 255 contacts. */
  method EncodeRes(target: KadId, contacts: seq<Contact>) returns (out: seq<Byte>)
    ensures out == ResBytes(target, contacts[..Capped(|contacts|, 255)])
  {
    hide SwapWords, ContactsBytes;
    var n := Capped(|contacts|, 255);
    out := WriteContacts(SwapWords(target) + [n], contacts, n);
  }

  lemma ResRoundTrip(target: KadId, contacts: seq<Contact>)
    requires AllWellFormed(contacts)
    ensures
        var sent := contacts[..Capped(|contacts|, 255)];
        ResOf(ResBytes(target, sent)) == Some(Res(target, sent))
  {
    var sent := contacts[..Capped(|contacts|, 255)];
    hide SwapWords, ContactsAt, ContactsBytes, WellFormed, At;
    var b := ResBytes(target, sent);
    Whole(b);
    AtConcat(b, 0, SwapWords(target), [|sent|] + ContactsBytes(sent));
    AtConcat(b, 16, [|sent|], ContactsBytes(sent));
    assert b[16] == |sent|;
    assert b[..16] == SwapWords(target);
    SwapTwice(target);
    ContactsReadBack(b, 17, sent);
  }

  function BootstrapResBytes(sender: KadId, version: Byte, tcp: DestBytes, cs: seq<Contact>): seq<Byte> {
    SwapWords(sender) + [version] + tcp + (ToLe(|cs|, 2) + ContactsBytes(cs))
  }

  /** `encode_kad2_bootstrap_res`. */
  method EncodeBootstrapRes(sender: KadId, version: Byte, tcp: DestBytes, contacts: seq<Contact>) returns (out: seq<Byte>)
    ensures out == BootstrapResBytes(sender, version, tcp, contacts[..Capped(|contacts|, U16_MAX)])
  {
    hide SwapWords, ContactsBytes, ToLe;
    var n := Capped(|contacts|, U16_MAX);
    out := WriteContacts(SwapWords(sender) + [version] + tcp + ToLe(n, 2), contacts, n);
  }

  lemma BootstrapResRoundTrip(sender: KadId, version: Byte, tcp: DestBytes, contacts: seq<Contact>)
    requires AllWellFormed(contacts)
    ensures
        var sent := contacts[..Capped(|contacts|, U16_MAX)];
        BootstrapResOf(BootstrapResBytes(sender, version, tcp, sent)) == Some(BootstrapRes(sender, version, tcp, sent))
  {
    var sent := contacts[..Capped(|contacts|, U16_MAX)];
    hide SwapWords, ContactsAt, ContactsBytes, WellFormed, At, ToLe, NumberAt, Pow256, BootstrapResOf;
    var b := BootstrapResBytes(sender, version, tcp, sent);
    Pow256Values();
    Whole(b);
    var front := SwapWords(sender) + [version] + tcp;
    AtConcat(b, 0, front, ToLe(|sent|, 2) + ContactsBytes(sent));
    AtConcat(b, |front|, ToLe(|sent|, 2), ContactsBytes(sent));
    assert b[..16] == SwapWords(sender) && b[16] == version && b[17..17 + DEST_LEN] == tcp;
    SwapTwice(sender);
    NumberReadsBack(b, |front|, |sent|, 2);
    ContactsReadBack(b, |front| + 2, sent);
    BootstrapResFrom(b, sender, sent);
  }

  lemma BootstrapResFrom(b: seq<Byte>, sender: KadId, cs: seq<Contact>)
    requires |b| >= 17 + DEST_LEN && SwapWords(b[..16]) == sender
    requires NumberAt(b, 17 + DEST_LEN, 2) == Some((|cs|, 19 + DEST_LEN)) && ContactsAt(b, 19 + DEST_LEN, |cs|) == Some(cs)
    ensures BootstrapResOf(b) == Some(BootstrapRes(sender, b[16], b[17..17 + DEST_LEN], cs))
  {
    hide SwapWords, ContactsAt, NumberAt;
  }

  /** The requested number of contacts as it is sent: brought into 1..31. */
  function ClampContacts(n: Byte): (r: Byte)
    ensures 1 <= r <= 31
    ensures 1 <= n <= 31 ==> r == n
  {
    if n < 1 then 1 else if n > 31 then 31 else n
  }

  /** `encode_kad2_req`. */
  function EncodeReq(contacts: Byte, target: KadId, check: KadId, sender: KadId): seq<Byte> {
    [ClampContacts(contacts)] + SwapWords(target) + SwapWords(check) + SwapWords(sender)
  }

  /** A request arrives with its count brought into 1..31, so it is never refused. */
  lemma ReqRoundTrip(contacts: Byte, target: KadId, check: KadId, sender: KadId)
    ensures ReqOf(EncodeReq(contacts, target, check, sender))
         == Some(Req(ClampContacts(contacts), target, check, Some(sender)))
  {
    hide SwapWords;
    var b := EncodeReq(contacts, target, check, sender);
    SwapTwice(target);
    SwapTwice(check);
    SwapTwice(sender);
    assert b[1..17] == SwapWords(target) && b[17..33] == SwapWords(check) && b[33..49] == SwapWords(sender);
  }
}
