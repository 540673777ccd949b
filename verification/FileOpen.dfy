/** Opening a file: its preamble, its header, the payload behind it; and that every written file opens. */
module FileOpen {
  import opened Base
  import opened Source
  import opened Ranges
  import opened HeaderLists
  import opened HeaderDocument
  import opened HeaderEvents
  import HeaderValues
  import HeaderRecords
  import HeaderBindings
  import HeaderTables
  import opened HeaderRun
  import W = Emission

  /** The bytes of a text, whose characters stand for them. */
  function TextOfBytes(bytes: Bytes): string {
    seq(|bytes|, i requires 0 <= i < |bytes| => bytes[i] as char)
  }

  /** `read_le_u32`. */
  function LittleEndianAt(bytes: Bytes, at: int): (n: int)
    requires 0 <= at && at + 4 <= |bytes|
    ensures 0 <= n <= 0xFFFF_FFFF && n == W.NumberAt(bytes, at)
  {
    bytes[at] as int + bytes[at + 1] as int * 0x100 + bytes[at + 2] as int * 0x1_0000 + bytes[at + 3] as int * 0x100_0000
  }

  const SIGNATURE: Bytes := [0x58, 0x49, 0x53, 0x46, 0x30, 0x31, 0x30, 0x30]

  /** This is the header of a file with this content, and a reader with this limit takes it. */
  ghost predicate HasHeader(content: Bytes, header: Bytes, maxHeaderBytes: U64) {
    W.BeginsWith(content, header) && 0 < |header| <= maxHeaderBytes && |header| <= 0xFFFF_FFFF
  }

  /** What the reader tests. */
  predicate PassesTests(content: Bytes, maxHeaderBytes: U64) {
    && |content| >= 16 && content[..8] == SIGNATURE
    && content[12] == 0 && content[13] == 0 && content[14] == 0 && content[15] == 0
    && 0 < LittleEndianAt(content, 8) <= maxHeaderBytes && LittleEndianAt(content, 8) <= |content| - 16
  }

  /** They decide whether the file has a header, and which. */
  lemma TestsDecide(content: Bytes, maxHeaderBytes: U64)
    ensures PassesTests(content, maxHeaderBytes) <==> exists header: Bytes :: HasHeader(content, header, maxHeaderBytes)
    ensures PassesTests(content, maxHeaderBytes) ==> HasHeader(content, content[16..16 + LittleEndianAt(content, 8)], maxHeaderBytes)
  {
    assert |SIGNATURE| == 8 && forall i | 0 <= i < 8 :: SIGNATURE[i] == "XISF0100"[i] as int;
    if header: Bytes :| HasHeader(content, header, maxHeaderBytes) {
      assert content[12..16][0] == content[12] && content[12..16][1] == content[13];
      assert content[12..16][2] == content[14] && content[12..16][3] == content[15];
    }
    if PassesTests(content, maxHeaderBytes) {
      var n := LittleEndianAt(content, 8);
      var header := content[16..16 + n];
      assert forall i | 0 <= i < 8 :: content[i] == content[..8][i];
      assert |header| == n && W.NumberAt(content, 8) == n;
      assert HasHeader(content, header, maxHeaderBytes);
    }
  }

  /** The preamble and the header text, up to the parser. */
  method ReadHeader(source: ByteSource, size: U64, maxHeaderBytes: U64, ghost content: Bytes) returns (r: Result<Bytes>)
    requires |content| == size
    modifies source
    ensures r.Ok? ==> 0 < |r.value| <= 0xFFFF_FFFF && 16 + |r.value| <= size
    ensures Serves(source, content) ==> (r.Ok? <==> exists header: Bytes :: HasHeader(content, header, maxHeaderBytes))
    ensures Serves(source, content) && r.Ok? ==> HasHeader(content, r.value, maxHeaderBytes)
  {
    TestsDecide(content, maxHeaderBytes);
    hide Serves, HasHeader;
    if size < 16 {
      return Err(InvalidPreamble);
    }
    var preamble := new Byte[16](_ => 0);
    var _ :- ReadExact(source, 0, preamble, 16, content);
    ghost var served := Serves(source, content);
    assert served ==> preamble[..] == content[..16];
    assert served ==> forall i | 0 <= i < 16 :: preamble[i] == content[i];
    if preamble[..8] != SIGNATURE {
      return Err(InvalidSignature);
    }
    var length := LittleEndianAt(preamble[..], 8);
    if preamble[12] != 0 || preamble[13] != 0 || preamble[14] != 0 || preamble[15] != 0 {
      return Err(InvalidPreamble);
    }
    if length == 0 || length > maxHeaderBytes {
      return Err(HeaderTooLarge);
    }
    if length > size - 16 {
      return Err(InvalidPreamble);
    }
    var text := new Byte[length](_ => 0);
    var _ :- ReadExact(source, 16, text, length, content);
    assert served ==> text[..] == content[16..16 + length] && length == LittleEndianAt(content, 8);
    return Ok(text[..]);
  }

  // ---------------------------------------------------------------- the whole of it

  /** What opening depends on besides the file. `parser` turns a text into events, if it is well-formed. */
  datatype Opening = Opening(
    parser: string -> Option<seq<Event>>,
    options: HeaderOptions,
    rules: ValueRules,
    maxHeaderBytes: U64,
    maxUnused: U64)

  /** With this header the file is accepted. */
  ghost predicate OpensWith(o: Opening, content: Bytes, header: Bytes) {
    var events := o.parser(TextOfBytes(header));
    && HasHeader(content, header, o.maxHeaderBytes)
    && Locations.StartsWith(TextOfBytes(header), "<?xml")
    && events.Some? && Accepts(events.value, o.options, o.rules, 16 + |header|, |content|)
    && UnusedIsFine(RangesOfEvents(events.value), 16 + |header|, content, o.maxUnused)
  }

  /** The document of a header that is accepted. */
  function DocumentOf(o: Opening, header: Bytes): Option<Document> {
    match o.parser(TextOfBytes(header))
    case None => None
    case Some(events) =>
      match RunOf(events, o.options)
      case None => None
      case Some(end) => Some(Composed(end.draft, Resolved(end.draft.tables), end.extensions.items))
  }

  lemma OneHeader(content: Bytes, a: Bytes, b: Bytes, maxHeaderBytes: U64)
    requires HasHeader(content, a, maxHeaderBytes) && HasHeader(content, b, maxHeaderBytes)
    ensures a == b
  {
  }

  lemma WithThisHeader(o: Opening, content: Bytes, header: Bytes)
    requires HasHeader(content, header, o.maxHeaderBytes)
    ensures (exists h: Bytes :: OpensWith(o, content, h)) <==> OpensWith(o, content, header)
  {
    hide Accepts, UnusedIsFine, HasHeader;
    forall h: Bytes | OpensWith(o, content, h)
      ensures h == header
    {
      OneHeader(content, h, header, o.maxHeaderBytes);
    }
  }

  /** `open_source`: over a source that serves the file, it succeeds exactly if the file is accepted. */
  method Open(source: ByteSource, size: U64, o: Opening, ghost content: Bytes) returns (r: Result<Document>)
    requires |content| == size
    modifies source
    ensures r.Ok? ==> DocumentOk(r.value, o.rules)
    ensures Serves(source, content) ==> (r.Ok? <==> exists header: Bytes :: OpensWith(o, content, header))
    ensures Serves(source, content) && r.Ok? ==>
              exists header: Bytes :: OpensWith(o, content, header) && DocumentOf(o, header) == Some(r.value)
  {
    hide StepTaken, Serves, HasHeader, Accepts, UnusedIsFine, DocumentOk, RunOf, Composed, Resolved;
    hide HeaderValues.ValuesOf, HeaderRecords.RecordsOf, HeaderBindings.BoundAsAsked, HeaderTables.TablesStructured, Given, Acceptable;
    var found := ReadHeader(source, size, o.maxHeaderBytes, content);
    if found.Err? {
      return Err(found.error);
    }
    var header := found.value;
    if Serves(source, content) {
      WithThisHeader(o, content, header);
    }
    var text := TextOfBytes(header);
    if !Locations.StartsWith(text, "<?xml") {
      return Err(InvalidXisf);
    }
    var events := o.parser(text);
    if events.None? {
      return Err(MalformedXml);
    }
    var document, ranges := ParseHeader(events.value, o.options, o.rules, |header|, size);
    if document.Err? {
      return document;
    }
    AcceptedHasRun(o, events.value, |header|, size);
    SameAcceptance(RangesOfEvents(events.value), ranges, 16 + |header|, content, o.maxUnused);
    var unused := ValidateUnusedSpaces(source, 16 + |header|, size, ranges, o.maxUnused, content);
    if unused.Err? {
      return Err(unused.error);
    }
    assert Serves(source, content) ==> OpensWith(o, content, header) && DocumentOf(o, header) == Some(document.value);
    return document;
  }

  lemma AcceptedHasRun(o: Opening, events: seq<Event>, headerLength: nat, size: U64)
    requires Accepts(events, o.options, o.rules, 16 + headerLength, size)
    ensures RunOf(events, o.options).Some?
  {
    hide StepTaken, RunOf;
  }

  lemma SameAcceptance(a: seq<AttachedRange>, b: seq<AttachedRange>, headerEnd: int, content: Bytes, budget: int)
    requires multiset(a) == multiset(b) && Acceptable(a, headerEnd, |content|)
    ensures Acceptable(b, headerEnd, |content|)
    ensures UnusedIsFine(a, headerEnd, content, budget) <==> UnusedIsFine(b, headerEnd, content, budget)
  {
    AcceptableIsOrderFree(a, b, headerEnd, |content|);
    UncoveredIsOrderFree(a, b, headerEnd, |content|);
  }

  import Locations
}
