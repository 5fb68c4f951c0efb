/** The tag lists inside Kad messages (`src/kad/wire.rs`): one grammar, the meanings the
    parsers give to it, and the encodings the encoders produce. */
module Tags {
  import opened Wrappers
  import opened Bits
  import opened LittleEndian

  const DEST_LEN: nat := 387
  const MAX_STRING_LEN: nat := 4096

  const TAG_FILENAME: Byte := 35
  const TAG_FILESIZE: Byte := 36
  const TAG_FILETYPE: Byte := 37
  const TAG_SOURCES: Byte := 53
  const TAG_COMPLETE_SOURCES: Byte := 66
  const TAG_SOURCEUDEST: Byte := 82
  const TAG_SOURCEDEST: Byte := 83
  const TAG_SOURCETYPE: Byte := 84
  const TAG_PUBLISHINFO: Byte := 85
  const TAG_KADMISCOPTIONS: Byte := 88
  const TAG_AGENT: Byte := 0xFE

  const T_HASH16: nat := 0x01
  const T_STRING: nat := 0x02
  const T_UINT32: nat := 0x03
  const T_FLOAT32: nat := 0x04
  const T_BOOL: nat := 0x05
  const T_BOOLARRAY: nat := 0x06
  const T_BLOB: nat := 0x07
  const T_UINT16: nat := 0x08
  const T_UINT8: nat := 0x09
  const T_BSOB: nat := 0x0A
  const T_STR1: nat := 0x11
  const T_STR16: nat := 0x20
  const T_ADDRESS: nat := 0x27
  const T_UINT64: nat := 0x29

  /** What a tag carries: a number of 1, 2, 4 or 8 bytes, a destination, a text of at most
      4096 bytes, or something that is only skipped. Texts are the bytes of valid UTF-8. */
  datatype Value = Number(width: nat, v: nat) | Dest(dest: seq<Byte>) | Text(text: seq<Byte>) | Skipped

  datatype Tag = Tag(id: Option<Byte>, value: Value)

  function NumberAt(b: seq<Byte>, i: nat, n: nat): Option<(nat, nat)> {
    if i + n <= |b| then Some((FromLe(b[i..i + n]), i + n)) else None
  }

  function BytesAt(b: seq<Byte>, i: nat, n: nat): Option<(seq<Byte>, nat)> {
    if i + n <= |b| then Some((b[i..i + n], i + n)) else None
  }

  function SkipAt(b: seq<Byte>, i: nat, n: nat): Option<(Value, nat)> {
    if i + n <= |b| then Some((Skipped, i + n)) else None
  }

  function NumberValueAt(b: seq<Byte>, i: nat, n: nat): Option<(Value, nat)> {
    match NumberAt(b, i, n)
    case None => None
    case Some((v, j)) => Some((Number(n, v), j))
  }

  function TextAt(b: seq<Byte>, i: nat, n: nat): Option<(Value, nat)> {
    match BytesAt(b, i, n)
    case None => None
    case Some((s, j)) => Some((Text(s), j))
  }

  /** A value whose length is given by a number of `width` bytes in front of it. */
  function CountedAt(b: seq<Byte>, i: nat, width: nat, bits: bool): Option<(Value, nat)> {
    match NumberAt(b, i, width)
    case None => None
    case Some((n, j)) => SkipAt(b, j, if bits then (n + 7) / 8 else n)
  }

  function StringAt(b: seq<Byte>, i: nat): Option<(Value, nat)> {
    match NumberAt(b, i, 2)
    case None => None
    case Some((n, j)) => if n > MAX_STRING_LEN then SkipAt(b, j, n) else TextAt(b, j, n)
  }

  function DestAt(b: seq<Byte>, i: nat): Option<(Value, nat)> {
    match BytesAt(b, i, DEST_LEN)
    case None => None
    case Some((s, j)) => Some((Dest(s), j))
  }

  function ValueAt(b: seq<Byte>, i: nat, tagType: nat): Option<(Value, nat)> {
    if tagType == T_UINT8 then NumberValueAt(b, i, 1)
    else if tagType == T_UINT16 then NumberValueAt(b, i, 2)
    else if tagType == T_UINT32 then NumberValueAt(b, i, 4)
    else if tagType == T_UINT64 then NumberValueAt(b, i, 8)
    else if tagType == T_ADDRESS then DestAt(b, i)
    else if tagType == T_STRING then StringAt(b, i)
    else if tagType == T_HASH16 then SkipAt(b, i, 16)
    else if tagType == T_FLOAT32 then SkipAt(b, i, 4)
    else if tagType == T_BOOL then SkipAt(b, i, 1)
    else if tagType == T_BOOLARRAY then CountedAt(b, i, 2, true)
    else if tagType == T_BLOB then CountedAt(b, i, 4, false)
    else if tagType == T_BSOB then CountedAt(b, i, 1, false)
    else if T_STR1 <= tagType <= T_STR16 then TextAt(b, i, tagType - T_STR1 + 1)
    else None
  }

  datatype Header = Header(tagType: nat, id: Option<Byte>, next: nat)

  /** The type and name of a tag: one-byte names, or old-style counted names of which only
      those of length one are kept; then, in the debug layout, a four-byte serial number. */
  function HeaderAt(b: seq<Byte>, i: nat, debug: bool): Option<Header> {
    match NameAt(b, i)
    case None => None
    case Some(h) => if !debug then Some(h) else if h.next + 4 <= |b| then Some(h.(next := h.next + 4)) else None
  }

  function NameAt(b: seq<Byte>, i: nat): Option<Header> {
    if i >= |b| then None
    else if b[i] >= 0x80 then
      if i + 1 < |b| then Some(Header(b[i] - 0x80, Some(b[i + 1]), i + 2)) else None
    else
      match NumberAt(b, i + 1, 2)
      case None => None
      case Some((n, j)) =>
        if n == 1 then if j < |b| then Some(Header(b[i], Some(b[j]), j + 1)) else None
        else if j + n <= |b| then Some(Header(b[i], None, j + n))
        else None
  }

  function TagAt(b: seq<Byte>, i: nat, debug: bool): Option<(Tag, nat)> {
    match HeaderAt(b, i, debug)
    case None => None
    case Some(h) =>
      match ValueAt(b, h.next, h.tagType)
      case None => None
      case Some((v, j)) => Some((Tag(h.id, v), j))
  }

  function TagsAt(b: seq<Byte>, i: nat, n: nat, debug: bool): Option<(seq<Tag>, nat)>
    decreases n
  {
    if n == 0 then Some(([], i))
    else
      match TagAt(b, i, debug)
      case None => None
      case Some((t, j)) =>
        match TagsAt(b, j, n - 1, debug)
        case None => None
        case Some((ts, k)) => Some(([t] + ts, k))
  }

  function CountedTagsAt(b: seq<Byte>, i: nat, debug: bool): Option<(seq<Tag>, nat)> {
    if i < |b| then TagsAt(b, i + 1, b[i], debug) else None
  }

  /** A tag list: the normal layout, or else the layout of debug builds. */
  function TagListAt(b: seq<Byte>, i: nat): Option<(seq<Tag>, nat)> {
    if CountedTagsAt(b, i, false).Some? then CountedTagsAt(b, i, false) else CountedTagsAt(b, i, true)
  }

  /** What a search or publish message says about a file or source. */
  datatype Info = Info(
    sourceType: Option<nat>,
    sourceDest: Option<seq<Byte>>,
    sourceUdpDest: Option<seq<Byte>>,
    fileSize: Option<nat>,
    fileName: Option<seq<Byte>>,
    fileType: Option<seq<Byte>>,
    publishInfo: Option<nat>,
    fallbackDest: Option<seq<Byte>>)

  const NO_INFO := Info(None, None, None, None, None, None, None, None)

  function ApplyWide(info: Info, id: Option<Byte>, width: nat, v: nat): Info {
    if id == Some(TAG_FILESIZE) then info.(fileSize := Some(v))
    else if id == Some(TAG_PUBLISHINFO) && width > 2 then info.(publishInfo := Some(v % 0x1_0000_0000))
    else info
  }

  function ApplyDest(info: Info, id: Option<Byte>, d: seq<Byte>): Info {
    if id == Some(TAG_SOURCEDEST) then info.(sourceDest := Some(d))
    else if id == Some(TAG_SOURCEUDEST) then info.(sourceUdpDest := Some(d))
    else info.(fallbackDest := Some(d))
  }

  function ApplyText(info: Info, id: Option<Byte>, s: seq<Byte>): Info {
    if id == Some(TAG_FILENAME) then info.(fileName := Some(s))
    else if id == Some(TAG_FILETYPE) then info.(fileType := Some(s))
    else info
  }

  /** The strict parser takes nothing but the source type from a one-byte number. */
  function StrictByte(info: Info, id: Option<Byte>, v: nat): Info {
    if id == Some(TAG_SOURCETYPE) then info.(sourceType := Some(v)) else info
  }

  /** The lenient parser also takes a file size and publish info from a one-byte number. */
  function LenientByte(info: Info, id: Option<Byte>, v: nat): Info {
    if id == Some(TAG_FILESIZE) then info.(fileSize := Some(v))
    else if id == Some(TAG_PUBLISHINFO) then info.(publishInfo := Some(v))
    else StrictByte(info, id, v)
  }

  function Apply(info: Info, t: Tag, lenient: bool): Info {
    match t.value
    case Number(width, v) =>
      if width > 1 then ApplyWide(info, t.id, width, v)
      else if lenient then LenientByte(info, t.id, v)
      else StrictByte(info, t.id, v)
    case Dest(d) => ApplyDest(info, t.id, d)
    case Text(s) => ApplyText(info, t.id, s)
    case Skipped => info
  }

  function ApplyAll(info: Info, tags: seq<Tag>, lenient: bool): Info
    decreases tags
  {
    if tags == [] then info else ApplyAll(Apply(info, tags[0], lenient), tags[1..], lenient)
  }

  function InfoOf(tags: seq<Tag>, lenient: bool): Info {
    ApplyAll(NO_INFO, tags, lenient)
  }

  /** What a HELLO says: the numbers by tag, and the agent. */
  datatype HelloInfo = HelloInfo(numbers: map<Byte, nat>, agent: Option<seq<Byte>>)

  function ApplyHello(h: HelloInfo, t: Tag): HelloInfo {
    match t.value
    case Number(_, v) => if t.id.Some? then h.(numbers := h.numbers[t.id.value := v]) else h
    case Text(s) => if t.id == Some(TAG_AGENT) then h.(agent := Some(s)) else h
    case _ => h
  }

  function ApplyHelloAll(h: HelloInfo, tags: seq<Tag>): HelloInfo
    decreases tags
  {
    if tags == [] then h else ApplyHelloAll(ApplyHello(h, tags[0]), tags[1..])
  }

  predicate IsSize(t: Tag, width: nat) {
    t.id == Some(TAG_FILESIZE) && t.value.Number? && (width <= 1 || t.value.width >= width)
  }

  /** The two parsers read the same names, types, destinations and source type out of a tag
      list. The lenient file size is that of the last file size tag, the strict one that of
      the last file size tag wider than a byte. */
  lemma {:induction false} ParsersAgree(strict: Info, lenient: Info, tags: seq<Tag>)
    requires SameBesidesNumbers(strict, lenient)
    ensures SameBesidesNumbers(ApplyAll(strict, tags, false), ApplyAll(lenient, tags, true))
    ensures ApplyAll(lenient, tags, true).fileSize == SizeOr(LastSize(tags, 1), lenient.fileSize)
    ensures ApplyAll(strict, tags, false).fileSize == SizeOr(LastSize(tags, 2), strict.fileSize)
    decreases tags
  {
    hide Apply, SameBesidesNumbers;
    if tags != [] {
      var t := tags[0];
      OneTagAgrees(strict, lenient, t);
      ParsersAgree(Apply(strict, t, false), Apply(lenient, t, true), tags[1..]);
    }
  }

  lemma OneTagAgrees(strict: Info, lenient: Info, t: Tag)
    requires SameBesidesNumbers(strict, lenient)
    ensures SameBesidesNumbers(Apply(strict, t, false), Apply(lenient, t, true))
    ensures Apply(lenient, t, true).fileSize == if IsSize(t, 1) then Some(t.value.v) else lenient.fileSize
    ensures Apply(strict, t, false).fileSize == if IsSize(t, 2) then Some(t.value.v) else strict.fileSize
  {
    hide StrictByte, LenientByte, ApplyWide;
    match t.value {
      case Number(width, v) => NumberAgrees(strict, lenient, t.id, width, v);
      case Dest(d) =>
      case Text(s) =>
      case Skipped =>
    }
  }

  lemma NumberAgrees(strict: Info, lenient: Info, id: Option<Byte>, width: nat, v: nat)
    requires SameBesidesNumbers(strict, lenient)
    ensures SameBesidesNumbers(StrictByte(strict, id, v), LenientByte(lenient, id, v))
    ensures SameBesidesNumbers(ApplyWide(strict, id, width, v), ApplyWide(lenient, id, width, v))
    ensures LenientByte(lenient, id, v).fileSize == if id == Some(TAG_FILESIZE) then Some(v) else lenient.fileSize
    ensures StrictByte(strict, id, v).fileSize == strict.fileSize
    ensures ApplyWide(strict, id, width, v).fileSize == if id == Some(TAG_FILESIZE) then Some(v) else strict.fileSize
    ensures ApplyWide(lenient, id, width, v).fileSize == if id == Some(TAG_FILESIZE) then Some(v) else lenient.fileSize
  {
  }

  predicate SameBesidesNumbers(a: Info, b: Info) {
    && a.sourceType == b.sourceType && a.sourceDest == b.sourceDest && a.sourceUdpDest == b.sourceUdpDest
    && a.fileName == b.fileName && a.fileType == b.fileType && a.fallbackDest == b.fallbackDest
  }

  function SizeOr(t: Option<Tag>, otherwise: Option<nat>): Option<nat>
    requires t.Some? ==> IsSize(t.value, 1)
  {
    if t.Some? then Some(t.value.value.v) else otherwise
  }

  /** The last file size tag of at least this width. */
  function LastSize(tags: seq<Tag>, width: nat): (r: Option<Tag>)
    requires width >= 1
    ensures r.Some? ==> IsSize(r.value, width)
    decreases tags
  {
    if tags == [] then None
    else
      match LastSize(tags[1..], width)
      case Some(t) => Some(t)
      case None => if IsSize(tags[0], width) then Some(tags[0]) else None
  }

  predicate NoByteSize(tags: seq<Tag>) {
    forall i :: 0 <= i < |tags| ==> !(IsSize(tags[i], 1) && tags[i].value.width <= 1)
  }

  lemma {:induction false} WideSizesOnly(tags: seq<Tag>)
    requires NoByteSize(tags)
    ensures LastSize(tags, 1) == LastSize(tags, 2)
  {
    if tags != [] {
      WideSizesOnly(tags[1..]);
    }
  }

  /** Without a one-byte file size, both parsers report the same one. */
  lemma SameSizeWithoutByteSize(tags: seq<Tag>)
    requires NoByteSize(tags)
    ensures InfoOf(tags, false).fileSize == InfoOf(tags, true).fileSize
  {
    ParsersAgree(NO_INFO, NO_INFO, tags);
    WideSizesOnly(tags);
  }
}
