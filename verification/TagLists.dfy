/** The loops over tag lists, with the second try in the layout of debug builds. */
module TagLists {
  import opened Wrappers
  import opened Bits
  import opened Tags
  import opened WireReader

  /** A tag list and what a parser makes of it. */
  function InfoAt(b: seq<Byte>, i: nat, lenient: bool): Option<(Info, nat)> {
    match TagListAt(b, i)
    case None => None
    case Some((tags, j)) => Some((InfoOf(tags, lenient), j))
  }

  function HelloAt(b: seq<Byte>, i: nat): Option<(HelloInfo, nat)> {
    match TagListAt(b, i)
    case None => None
    case Some((tags, j)) => Some((ApplyHelloAll(HelloInfo(map[], None), tags), j))
  }

  /** Reading `rest` from here on amounts to reading `whole` from the start. */
  ghost predicate Continues(whole: Option<(seq<Tag>, nat)>, rest: Option<(seq<Tag>, nat)>, out: Info, lenient: bool) {
    && (whole.Some? <==> rest.Some?)
    && (whole.Some? ==> whole.value.1 == rest.value.1
                        && InfoOf(whole.value.0, lenient) == ApplyAll(out, rest.value.0, lenient))
  }

  ghost predicate HelloContinues(whole: Option<(seq<Tag>, nat)>, rest: Option<(seq<Tag>, nat)>, out: HelloInfo) {
    && (whole.Some? <==> rest.Some?)
    && (whole.Some? ==> whole.value.1 == rest.value.1
                        && ApplyHelloAll(HelloInfo(map[], None), whole.value.0) == ApplyHelloAll(out, rest.value.0))
  }

  /** One more tag read, or the first one that cannot be. */
  lemma NextTag(b: seq<Byte>, i: nat, n: nat, debug: bool)
    requires n > 0
    ensures TagAt(b, i, debug).None? ==> TagsAt(b, i, n, debug).None?
    ensures TagAt(b, i, debug).Some? ==>
      var (t, j) := TagAt(b, i, debug).value;
      var rest := TagsAt(b, j, n - 1, debug);
      && (TagsAt(b, i, n, debug).Some? <==> rest.Some?)
      && (rest.Some? ==>
            && TagsAt(b, i, n, debug).value.1 == rest.value.1
            && TagsAt(b, i, n, debug).value.0 != [] && TagsAt(b, i, n, debug).value.0[0] == t
            && TagsAt(b, i, n, debug).value.0[1..] == rest.value.0)
  {
  }

  method ReadStrictInfoImpl(rd: Reader, debug: bool) returns (r: Result<Info, WireError>)
    modifies rd
    ensures r.Success? <==> CountedTagsAt(rd.b, old(rd.i), debug).Some?
    ensures r.Success? ==>
      var (tags, j) := CountedTagsAt(rd.b, old(rd.i), debug).value;
      r.value == InfoOf(tags, false) && rd.i == j
  {
    hide TagAt, TagsAt, NumberAt, Apply;
    ghost var start := rd.i;
    assert NumberAt(rd.b, start, 1).Some? <==> start < |rd.b| by { OneByteNumber(rd.b, start); }
    var count :- rd.ReadLe(1);
    OneByteNumber(rd.b, start);
    ghost var whole := TagsAt(rd.b, start + 1, count, debug);
    var out := NO_INFO;
    for k := 0 to count
      invariant Continues(whole, TagsAt(rd.b, rd.i, count - k, debug), out, false)
    {
      NextTag(rd.b, rd.i, count - k, debug);
      ghost var at := rd.i;
      TagFromParts(rd.b, at, debug);
      var name :- rd.ReadHeader(debug);
      out :- rd.ReadStrictValue(name.0, name.1, out);
    }
    NoTags(rd.b, rd.i, debug);
    return Success(out);
  }

  method ReadLenientInfoImpl(rd: Reader, debug: bool) returns (r: Result<Info, WireError>)
    modifies rd
    ensures r.Success? <==> CountedTagsAt(rd.b, old(rd.i), debug).Some?
    ensures r.Success? ==>
      var (tags, j) := CountedTagsAt(rd.b, old(rd.i), debug).value;
      r.value == InfoOf(tags, true) && rd.i == j
  {
    hide TagAt, TagsAt, NumberAt, Apply;
    ghost var start := rd.i;
    assert NumberAt(rd.b, start, 1).Some? <==> start < |rd.b| by { OneByteNumber(rd.b, start); }
    var count :- rd.ReadLe(1);
    OneByteNumber(rd.b, start);
    ghost var whole := TagsAt(rd.b, start + 1, count, debug);
    var out := NO_INFO;
    for k := 0 to count
      invariant Continues(whole, TagsAt(rd.b, rd.i, count - k, debug), out, true)
    {
      NextTag(rd.b, rd.i, count - k, debug);
      ghost var at := rd.i;
      TagFromParts(rd.b, at, debug);
      var name :- rd.ReadHeader(debug);
      out :- rd.ReadLenientValue(name.0, name.1, out);
    }
    NoTags(rd.b, rd.i, debug);
    return Success(out);
  }

  method ReadHelloInfoImpl(rd: Reader, debug: bool) returns (r: Result<HelloInfo, WireError>)
    modifies rd
    ensures r.Success? <==> CountedTagsAt(rd.b, old(rd.i), debug).Some?
    ensures r.Success? ==>
      var (tags, j) := CountedTagsAt(rd.b, old(rd.i), debug).value;
      r.value == ApplyHelloAll(HelloInfo(map[], None), tags) && rd.i == j
  {
    hide TagAt, TagsAt, NumberAt, ApplyHello;
    ghost var start := rd.i;
    assert NumberAt(rd.b, start, 1).Some? <==> start < |rd.b| by { OneByteNumber(rd.b, start); }
    var count :- rd.ReadLe(1);
    OneByteNumber(rd.b, start);
    ghost var whole := TagsAt(rd.b, start + 1, count, debug);
    var out := HelloInfo(map[], None);
    for k := 0 to count
      invariant HelloContinues(whole, TagsAt(rd.b, rd.i, count - k, debug), out)
    {
      NextTag(rd.b, rd.i, count - k, debug);
      ghost var at := rd.i;
      TagFromParts(rd.b, at, debug);
      var name :- rd.ReadHeader(debug);
      out :- rd.ReadHelloValue(name.0, name.1, out);
    }
    NoTags(rd.b, rd.i, debug);
    return Success(out);
  }

  lemma OneByteNumber(b: seq<Byte>, i: nat)
    ensures NumberAt(b, i, 1).Some? <==> i < |b|
    ensures i < |b| ==> NumberAt(b, i, 1) == Some((b[i] as nat, i + 1))
  {
    if i < |b| {
      OneByte(b, i);
    }
  }

  lemma TagFromParts(b: seq<Byte>, i: nat, debug: bool)
    ensures
        var header := HeaderAt(b, i, debug);
        && (header.None? ==> TagAt(b, i, debug).None?)
        && (header.Some? ==>
              var value := ValueAt(b, header.value.next, header.value.tagType);
              && (value.None? ==> TagAt(b, i, debug).None?)
              && (value.Some? ==> TagAt(b, i, debug) == Some((Tag(header.value.id, value.value.0), value.value.1))))
  {
    hide HeaderAt, ValueAt;
  }

  lemma NoTags(b: seq<Byte>, i: nat, debug: bool)
    ensures TagsAt(b, i, 0, debug) == Some(([], i))
  {
  }

  /** `read_taglist_search_info`: the normal layout, then from the same place the other. */
  method ReadStrictInfo(rd: Reader) returns (r: Result<Info, WireError>)
    modifies rd
    ensures r.Success? <==> InfoAt(rd.b, old(rd.i), false).Some?
    ensures r.Success? ==> (r.value, rd.i) == InfoAt(rd.b, old(rd.i), false).value
  {
    hide CountedTagsAt, InfoOf;
    var start := rd.i;
    r := ReadStrictInfoImpl(rd, false);
    if r.Failure? {
      rd.i := start;
      var again := ReadStrictInfoImpl(rd, true);
      if again.Success? {
        return again;
      }
    }
  }

  method ReadLenientInfo(rd: Reader) returns (r: Result<Info, WireError>)
    modifies rd
    ensures r.Success? <==> InfoAt(rd.b, old(rd.i), true).Some?
    ensures r.Success? ==> (r.value, rd.i) == InfoAt(rd.b, old(rd.i), true).value
  {
    hide CountedTagsAt, InfoOf;
    var start := rd.i;
    r := ReadLenientInfoImpl(rd, false);
    if r.Failure? {
      rd.i := start;
      r := ReadLenientInfoImpl(rd, true);
    }
  }

  method ReadHelloInfo(rd: Reader) returns (r: Result<HelloInfo, WireError>)
    modifies rd
    ensures r.Success? <==> HelloAt(rd.b, old(rd.i)).Some?
    ensures r.Success? ==> (r.value, rd.i) == HelloAt(rd.b, old(rd.i)).value
  {
    hide CountedTagsAt, ApplyHelloAll;
    var start := rd.i;
    r := ReadHelloInfoImpl(rd, false);
    if r.Failure? {
      rd.i := start;
      var again := ReadHelloInfoImpl(rd, true);
      if again.Success? {
        return again;
      }
    }
  }
}
