/** The tags in a text: a small tokenizer, which knows nothing of how the writer prints, and what it finds in a header. */
module HeaderScan {
  import opened Base
  import opened HeaderStack
  import opened HeaderLists
  import opened HeaderEvents
  import opened HeaderSteps
  import opened HeaderPrinted
  import opened Locations
  import L = Layout
  import Text
  import HW = HeaderWritten

  // ---------------------------------------------------------------- the tokenizer

  datatype Attribute = Attribute(key: string, value: string)

  /** A start tag with its attributes, an end tag, or the characters between two tags; an empty element is both tags. */
  datatype Mark = Opened(name: string, attributes: seq<Attribute>) | Closed(name: string) | Said(text: string)

  datatype Mode =
    | Content(said: string)
    | Naming(name: string)
    | Declaration
    | Inside(name: string, attributes: seq<Attribute>, key: string)
    | Quoted(name: string, attributes: seq<Attribute>, key: string, value: string)
    | Ending(name: string, attributes: seq<Attribute>)

  datatype Scan = Scan(mode: Mode, marks: seq<Mark>)

  const Between: Mode := Content("")

  function Step(mode: Mode, c: char): Scan {
    match mode
    case Content(said) =>
      if c == '<' then Scan(Naming(""), if said == "" then [] else [Said(said)]) else Scan(Content(said + [c]), [])
    case Naming(name) =>
      if c == '>' then Scan(Between, if name != "" && name[0] == '/' then [Closed(name[1..])] else [Opened(name, [])])
      else if name == "" && c == '?' then Scan(Declaration, [])
      else if c == ' ' then Scan(Inside(name, [], ""), [])
      else if c == '/' && name != "" then Scan(Ending(name, []), [])
      else Scan(Naming(name + [c]), [])
    case Declaration => Scan(if c == '>' then Between else Declaration, [])
    case Inside(name, attributes, key) =>
      if c == '>' then Scan(Between, [Opened(name, attributes)])
      else if c == '/' then Scan(Ending(name, attributes), [])
      else if c == '"' then Scan(Quoted(name, attributes, key, ""), [])
      else if c == ' ' then Scan(Inside(name, attributes, ""), [])
      else if c == '=' then Scan(mode, [])
      else Scan(Inside(name, attributes, key + [c]), [])
    case Quoted(name, attributes, key, value) =>
      if c == '"' then Scan(Inside(name, attributes + [Attribute(key, value)], ""), [])
      else Scan(Quoted(name, attributes, key, value + [c]), [])
    case Ending(name, attributes) =>
      if c == '>' then Scan(Between, [Opened(name, attributes), Closed(name)]) else Scan(mode, [])
  }

  function ScanFrom(mode: Mode, text: string): Scan {
    if text == "" then Scan(mode, [])
    else
      var before := ScanFrom(mode, text[..|text| - 1]);
      var now := Step(before.mode, text[|text| - 1]);
      Scan(now.mode, before.marks + now.marks)
  }

  /** The tags of a whole text. */
  function MarksIn(text: string): seq<Mark> {
    ScanFrom(Between, text).marks
  }

  lemma {:induction false} ScanJoin(mode: Mode, a: string, b: string)
    ensures var x := ScanFrom(mode, a);
            var y := ScanFrom(x.mode, b);
            ScanFrom(mode, a + b) == Scan(y.mode, x.marks + y.marks)
    decreases |b|
  {
    hide Step;
    if b == "" {
      assert a + b == a;
    } else {
      assert (a + b)[..|a + b| - 1] == a + b[..|b| - 1];
      ScanJoin(mode, a, b[..|b| - 1]);
    }
  }

  /** From mode to mode over this text, with these tags. */
  predicate Passes(from: Mode, text: string, to: Mode, marks: seq<Mark>) {
    ScanFrom(from, text) == Scan(to, marks)
  }

  lemma PassesBoth(from: Mode, a: string, via: Mode, first: seq<Mark>, b: string, to: Mode, second: seq<Mark>)
    requires Passes(from, a, via, first) && Passes(via, b, to, second)
    ensures Passes(from, a + b, to, first + second)
  {
    ScanJoin(from, a, b);
  }

  lemma OneChar(mode: Mode, c: char)
    ensures ScanFrom(mode, [c]) == Step(mode, c)
  {
    assert [c][..0] == "";
  }

  /** The text of a value, up to its closing quote. */
  lemma {:induction false} ValuePasses(name: string, attributes: seq<Attribute>, key: string, value: string, text: string)
    requires Text.Free(text, '"')
    ensures Passes(Quoted(name, attributes, key, value), text, Quoted(name, attributes, key, value + text), [])
    decreases |text|
  {
    if text == "" {
      assert value + text == value;
    } else {
      var front := text[..|text| - 1];
      ValuePasses(name, attributes, key, value, front);
      assert value + front + [text[|text| - 1]] == value + text;
    }
  }

  predicate IsKey(key: string) {
    forall i | 0 <= i < |key| :: key[i] != '>' && key[i] != '/' && key[i] != '"' && key[i] != ' ' && key[i] != '='
  }

  /** The characters of an attribute's name. */
  lemma {:induction false} KeyPasses(name: string, attributes: seq<Attribute>, key: string)
    requires IsKey(key)
    ensures Passes(Inside(name, attributes, ""), key, Inside(name, attributes, key), [])
    decreases |key|
  {
    if key != "" {
      var front := key[..|key| - 1];
      KeyPasses(name, attributes, front);
      assert front + [key[|key| - 1]] == key;
    }
  }

  /** A whole attribute leaves the tokenizer between attributes. */
  lemma AttributePasses(name: string, attributes: seq<Attribute>, key: string, value: string)
    requires IsKey(key) && Text.Free(value, '"')
    ensures Passes(Inside(name, attributes, ""), [' '] + (key + (['=', '"'] + (value + ['"']))),
                   Inside(name, attributes + [Attribute(key, value)], ""), [])
  {
    hide ScanFrom;
    var between, keyed := Inside(name, attributes, ""), Inside(name, attributes, key);
    var after := Inside(name, attributes + [Attribute(key, value)], "");
    OneChar(between, ' ');
    KeyPasses(name, attributes, key);
    OneChar(keyed, '=');
    OneChar(keyed, '"');
    assert ['='] + ['"'] == ['=', '"'];
    PassesBoth(keyed, ['='], keyed, [], ['"'], Quoted(name, attributes, key, ""), []);
    ValuePasses(name, attributes, key, "", value);
    assert "" + value == value;
    OneChar(Quoted(name, attributes, key, value), '"');
    PassesBoth(Quoted(name, attributes, key, ""), value, Quoted(name, attributes, key, value), [], ['"'], after, []);
    PassesBoth(keyed, ['=', '"'], Quoted(name, attributes, key, ""), [], value + ['"'], after, []);
    PassesBoth(between, key, keyed, [], ['=', '"'] + (value + ['"']), after, []);
    PassesBoth(between, [' '], between, [], key + (['=', '"'] + (value + ['"'])), after, []);
  }

  /** The attribute that names the place of a block. */
  function Place(offset: U64, size: U64): Attribute {
    Attribute("location", LocationText(offset, size))
  }

  /** The location that the writer prints is the one that is found. */
  lemma LocationPasses(name: string, attributes: seq<Attribute>, offset: U64, size: U64)
    ensures Passes(Inside(name, attributes, ""), L.LocationAttribute(offset, size),
                   Inside(name, attributes + [Place(offset, size)], ""), [])
  {
    var value := LocationText(offset, size);
    Text.DecimalIsFree(offset, '"');
    Text.DecimalIsFree(size, '"');
    hide Text.ToDecimal;
    assert Text.Free(value, '"');
    assert [' '] + ("location" + (['=', '"'] + (value + ['"']))) == L.LocationAttribute(offset, size);
    AttributePasses(name, attributes, "location", value);
  }

  lemma EmptyEnds(name: string, attributes: seq<Attribute>)
    ensures Passes(Inside(name, attributes, ""), "/>", Between, [Opened(name, attributes), Closed(name)])
  {
    OneChar(Inside(name, attributes, ""), '/');
    OneChar(Ending(name, attributes), '>');
    assert "/" + ">" == "/>";
    PassesBoth(Inside(name, attributes, ""), "/", Ending(name, attributes), [], ">", Between, [Opened(name, attributes), Closed(name)]);
  }

  // ---------------------------------------------------------------- the header of a unit

  predicate NoPlace(attributes: seq<Attribute>) {
    forall i | 0 <= i < |attributes| :: attributes[i].key != "location"
  }

  /** The text up to here leaves the tokenizer inside a start tag with this name, behind these attributes. */
  predicate Begins(text: string, name: string, attributes: seq<Attribute>) {
    Passes(Between, text, Inside(name, attributes, ""), []) && NoPlace(attributes)
  }

  /** The attributes of the start tag that the text begins. */
  function AttributesOf(text: string): seq<Attribute> {
    var mode := ScanFrom(Between, text).mode;
    if mode.Inside? then mode.attributes else []
  }

  /** What the writer's ready texts consist of: the root, attributes of an Image or a Property, or one whole element. */
  predicate Tokenizes(unit: L.Unit) {
    && Passes(Between, unit.prologue, Between, MarksIn(unit.prologue)) && Reported(MarksIn(unit.prologue)) == [Begun(Xisf, None)]
    && (forall i | 0 <= i < |unit.imageAttributes| ::
          Begins("<Image" + unit.imageAttributes[i], "Image", AttributesOf("<Image" + unit.imageAttributes[i])))
    && (forall k | 0 <= k < |unit.entries| :: EntryTokenizes(unit.entries[k]))
    && Passes(Between, unit.metadataProlog, Between, MarksIn(unit.metadataProlog))
    && Reported(MarksIn(unit.metadataProlog)) == MandatoryTold()
  }

  /** The Metadata element and the two Properties that must be there. */
  function MandatoryTold(): seq<Told> {
    [Begun(Metadata, None), Begun(Property, None), Over(Property), Begun(Property, None), Over(Property)]
  }

  predicate EntryTokenizes(e: L.Entry) {
    match e
    case Plain(text, _) =>
      var told := Reported(MarksIn(text));
      && Passes(Between, text, Between, MarksIn(text)) && |told| == 2 && told[0].Begun? && told[1] == Over(told[0].name)
      && !(told[0].location.Some? && ParseLocation(told[0].location.value).kind == Attachment)
    case Block(attributes, _) => Begins(attributes, "Property", AttributesOf(attributes))
  }

  /** The tags of an entry: a block-backed one names the place of its own block. */
  function EntryMarks(unit: L.Unit, sizes: seq<U64>, offsets: seq<U64>, k: nat): seq<Mark>
    requires |sizes| == |offsets| == L.BlockCount(unit) && k < |unit.entries|
  {
    var b := HW.BlockNumber(unit, TheEntry(k));
    match unit.entries[k]
    case Plain(text, _) => MarksIn(text)
    case Block(attributes, _) => [Opened("Property", AttributesOf(attributes) + [Place(offsets[b.value], sizes[b.value])]), Closed("Property")]
  }

  function ChildMarks(unit: L.Unit, sizes: seq<U64>, offsets: seq<U64>, image: Option<nat>, k: nat): seq<Mark>
    requires |sizes| == |offsets| == L.BlockCount(unit)
    decreases |unit.entries| - k
  {
    if k >= |unit.entries| then []
    else if unit.entries[k].image == image then EntryMarks(unit, sizes, offsets, k) + ChildMarks(unit, sizes, offsets, image, k + 1)
    else ChildMarks(unit, sizes, offsets, image, k + 1)
  }

  /** The start tag of an image: its attributes, and behind them the place of its own block. */
  function ImageMark(unit: L.Unit, sizes: seq<U64>, offsets: seq<U64>, i: nat): Mark
    requires |sizes| == |offsets| == L.BlockCount(unit) && i < |unit.imageAttributes|
  {
    Opened("Image", AttributesOf("<Image" + unit.imageAttributes[i]) + [Place(offsets[i], sizes[i])])
  }

  /** An Image with its children inside it. */
  function OneImage(unit: L.Unit, sizes: seq<U64>, offsets: seq<U64>, i: nat): seq<Mark>
    requires |sizes| == |offsets| == L.BlockCount(unit) && i < |unit.imageAttributes|
  {
    [ImageMark(unit, sizes, offsets, i)] + (ChildMarks(unit, sizes, offsets, Some(i), 0) + [Closed("Image")])
  }

  function ImageMarks(unit: L.Unit, sizes: seq<U64>, offsets: seq<U64>, i: nat): seq<Mark>
    requires |sizes| == |offsets| == L.BlockCount(unit)
    decreases |unit.imageAttributes| - i
  {
    if i >= |unit.imageAttributes| then [] else OneImage(unit, sizes, offsets, i) + ImageMarks(unit, sizes, offsets, i + 1)
  }

  function HeaderMarks(unit: L.Unit, sizes: seq<U64>, offsets: seq<U64>): seq<Mark>
    requires |sizes| == |offsets| == L.BlockCount(unit)
  {
    MarksIn(unit.prologue) + ImageMarks(unit, sizes, offsets, 0)
    + (MarksIn(unit.metadataProlog) + (ChildMarks(unit, sizes, offsets, None, 0) + [Closed("Metadata"), Closed("xisf")]))
  }

  lemma EntryScans(unit: L.Unit, sizes: seq<U64>, offsets: seq<U64>, k: nat)
    requires |sizes| == |offsets| == L.BlockCount(unit) && k < |unit.entries| && EntryTokenizes(unit.entries[k])
    ensures Passes(Between, L.EntryText(unit, sizes, offsets, k), Between, EntryMarks(unit, sizes, offsets, k))
  {
    hide ScanFrom, ParseLocation, L.LocationAttribute, L.BlockCount, AttributesOf;
    match unit.entries[k]
    case Plain(text, _) =>
    case Block(text, _) =>
      var b := HW.BlockNumber(unit, TheEntry(k)).value;
      var attributes, location := AttributesOf(text), L.LocationAttribute(offsets[b], sizes[b]);
      var all := attributes + [Place(offsets[b], sizes[b])];
      LocationPasses("Property", attributes, offsets[b], sizes[b]);
      EmptyEnds("Property", all);
      PassesBoth(Between, text, Inside("Property", attributes, ""), [], location, Inside("Property", all, ""), []);
      PassesBoth(Between, text + location, Inside("Property", all, ""), [], "/>", Between, [Opened("Property", all), Closed("Property")]);
  }

  lemma {:induction false} ChildrenScan(unit: L.Unit, sizes: seq<U64>, offsets: seq<U64>, image: Option<nat>, k: nat)
    requires |sizes| == |offsets| == L.BlockCount(unit) && k <= |unit.entries| && Tokenizes(unit)
    ensures Passes(Between, L.Children(unit, sizes, offsets, image, k), Between, ChildMarks(unit, sizes, offsets, image, k))
    decreases |unit.entries| - k
  {
    hide Passes, L.EntryText, L.BlockCount, EntryMarks, EntryTokenizes;
    if k == |unit.entries| {
      PassesNothing();
    } else {
      var rest := L.Children(unit, sizes, offsets, image, k + 1);
      ChildrenScan(unit, sizes, offsets, image, k + 1);
      if unit.entries[k].image == image {
        EntryScans(unit, sizes, offsets, k);
        PassesBoth(Between, L.EntryText(unit, sizes, offsets, k), Between, EntryMarks(unit, sizes, offsets, k),
                   rest, Between, ChildMarks(unit, sizes, offsets, image, k + 1));
      } else {
        assert "" + rest == rest;
      }
    }
  }

  lemma PassesNothing()
    ensures Passes(Between, "", Between, [])
  {
  }

  /** The closing tags. */
  lemma {:induction false} NamePasses(begun: string, name: string)
    requires begun != "" && forall i | 0 <= i < |name| :: name[i] != '>' && name[i] != ' ' && name[i] != '/'
    ensures Passes(Naming(begun), name, Naming(begun + name), [])
    decreases |name|
  {
    if name == "" {
      assert begun + name == begun;
    } else {
      var front := name[..|name| - 1];
      NamePasses(begun, front);
      assert begun + front + [name[|name| - 1]] == begun + name;
    }
  }

  lemma EndPasses(name: string)
    requires forall i | 0 <= i < |name| :: name[i] != '>' && name[i] != ' ' && name[i] != '/'
    ensures Passes(Between, "</" + (name + ">"), Between, [Closed(name)])
  {
    hide ScanFrom;
    OneChar(Between, '<');
    OneChar(Naming(""), '/');
    assert "" + "/" == "/" && "<" + "/" == "</" && ("/" + name)[1..] == name;
    PassesBoth(Between, "<", Naming(""), [], "/", Naming("/"), []);
    NamePasses("/", name);
    OneChar(Naming("/" + name), '>');
    PassesBoth(Naming("/"), name, Naming("/" + name), [], ">", Between, [Closed(name)]);
    PassesBoth(Between, "</", Naming("/"), [], name + ">", Between, [Closed(name)]);
  }

  /** The end of an Image's start tag, and its end tag. */
  lemma OpenEnds(attributes: seq<Attribute>)
    ensures Passes(Inside("Image", attributes, ""), ">", Between, [Opened("Image", attributes)])
    ensures Passes(Between, "</Image>", Between, [Closed("Image")])
  {
    OneChar(Inside("Image", attributes, ""), '>');
    EndPasses("Image");
    assert "</" + ("Image" + ">") == "</Image>";
  }

  /** The end of the header. */
  lemma HeaderEnds()
    ensures Passes(Between, "</Metadata></xisf>", Between, [Closed("Metadata"), Closed("xisf")])
  {
    EndPasses("Metadata");
    EndPasses("xisf");
    hide Passes;
    assert "</" + ("Metadata" + ">") == "</Metadata>" && "</" + ("xisf" + ">") == "</xisf>";
    assert "</Metadata>" + "</xisf>" == "</Metadata></xisf>";
    PassesBoth(Between, "</Metadata>", Between, [Closed("Metadata")], "</xisf>", Between, [Closed("xisf")]);
  }

  lemma ImageBegins(unit: L.Unit, i: nat)
    requires Tokenizes(unit) && i < |unit.imageAttributes|
    ensures var start := "<Image" + unit.imageAttributes[i];
            Passes(Between, start, Inside("Image", AttributesOf(start), ""), []) && NoPlace(AttributesOf(start))
  {
    hide Passes, EntryTokenizes, NoPlace, AttributesOf;
    assert Begins("<Image" + unit.imageAttributes[i], "Image", AttributesOf("<Image" + unit.imageAttributes[i]));
  }

  lemma ImageIsImage()
    ensures NameOf("Image") == Image
  {
  }

  /** An element with something inside it. */
  lemma FullPasses(start: string, location: string, located: Mode, head: Mark, inner: string, marks: seq<Mark>)
    requires Passes(Between, start + location, located, []) && Passes(located, ">", Between, [head])
    requires Passes(Between, inner, Between, marks) && Passes(Between, "</Image>", Between, [Closed("Image")])
    ensures Passes(Between, start + location + (">" + inner + "</Image>"), Between, [head] + (marks + [Closed("Image")]))
  {
    hide Passes;
    PassesBoth(located, ">", Between, [head], inner, Between, marks);
    PassesBoth(located, ">" + inner, Between, [head] + marks, "</Image>", Between, [Closed("Image")]);
    PassesBoth(Between, start + location, located, [], ">" + inner + "</Image>", Between, [head] + marks + [Closed("Image")]);
    assert [] + ([head] + marks + [Closed("Image")]) == [head] + (marks + [Closed("Image")]);
  }

  lemma ImageScans(unit: L.Unit, sizes: seq<U64>, offsets: seq<U64>, i: nat)
    requires |sizes| == |offsets| == L.BlockCount(unit) && i < |unit.imageAttributes| && Tokenizes(unit)
    ensures Passes(Between, L.ImageText(unit, sizes, offsets, i), Between, OneImage(unit, sizes, offsets, i))
  {
    var start, location := "<Image" + unit.imageAttributes[i], L.LocationAttribute(offsets[i], sizes[i]);
    hide Passes, Tokenizes, AttributesOf, L.LocationAttribute, L.BlockCount, L.Children, ChildMarks, LocationText;
    var attributes := AttributesOf(start);
    var all := attributes + [Place(offsets[i], sizes[i])];
    var head, located := Opened("Image", all), Inside("Image", all, "");
    ImageBegins(unit, i);
    OpenEnds(all);
    LocationPasses("Image", attributes, offsets[i], sizes[i]);
    PassesBoth(Between, start, Inside("Image", attributes, ""), [], location, located, []);
    if L.HasChildren(unit, Some(i)) {
      ChildrenScan(unit, sizes, offsets, Some(i), 0);
      FullPasses(start, location, located, head, L.Children(unit, sizes, offsets, Some(i), 0), ChildMarks(unit, sizes, offsets, Some(i), 0));
    } else {
      NoChildMarks(unit, sizes, offsets, Some(i), 0);
      EmptyEnds("Image", all);
      PassesBoth(Between, start + location, located, [], "/>", Between, [head, Closed("Image")]);
    }
  }

  lemma {:induction false} NoChildMarks(unit: L.Unit, sizes: seq<U64>, offsets: seq<U64>, image: Option<nat>, k: nat)
    requires |sizes| == |offsets| == L.BlockCount(unit) && !L.HasChildren(unit, image)
    ensures ChildMarks(unit, sizes, offsets, image, k) == []
    decreases |unit.entries| - k
  {
    if k < |unit.entries| {
      NoChildMarks(unit, sizes, offsets, image, k + 1);
    }
  }

  lemma {:induction false} ImagesScan(unit: L.Unit, sizes: seq<U64>, offsets: seq<U64>, i: nat)
    requires |sizes| == |offsets| == L.BlockCount(unit) && i <= |unit.imageAttributes| && Tokenizes(unit)
    ensures Passes(Between, L.Images(unit, sizes, offsets, i), Between, ImageMarks(unit, sizes, offsets, i))
    decreases |unit.imageAttributes| - i
  {
    hide Passes, Tokenizes, L.ImageText, L.BlockCount, OneImage;
    if i == |unit.imageAttributes| {
      PassesNothing();
    } else {
      ImageScans(unit, sizes, offsets, i);
      ImagesScan(unit, sizes, offsets, i + 1);
      PassesBoth(Between, L.ImageText(unit, sizes, offsets, i), Between, OneImage(unit, sizes, offsets, i),
                 L.Images(unit, sizes, offsets, i + 1), Between, ImageMarks(unit, sizes, offsets, i + 1));
    }
  }

  /**
   The tags of a header's text: every image and every entry is there once, in the order of printing, at
   its place among the others, and with the offset and size of its own block.
   */
  lemma HeaderScans(unit: L.Unit, sizes: seq<U64>, offsets: seq<U64>)
    requires |sizes| == |offsets| == L.BlockCount(unit) && Tokenizes(unit)
    ensures MarksIn(L.HeaderText(unit, sizes, offsets)) == HeaderMarks(unit, sizes, offsets)
  {
    var images, children := L.Images(unit, sizes, offsets, 0), L.Children(unit, sizes, offsets, None, 0);
    var imageMarks, childMarks := ImageMarks(unit, sizes, offsets, 0), ChildMarks(unit, sizes, offsets, None, 0);
    var ends := [Closed("Metadata"), Closed("xisf")];
    ImagesScan(unit, sizes, offsets, 0);
    ChildrenScan(unit, sizes, offsets, None, 0);
    HeaderEnds();
    hide ScanFrom, EntryTokenizes, L.BlockCount, L.Images, L.Children, ImageMarks, ChildMarks;
    PassesBoth(Between, children, Between, childMarks, "</Metadata></xisf>", Between, ends);
    PassesBoth(Between, unit.metadataProlog, Between, MarksIn(unit.metadataProlog), children + "</Metadata></xisf>", Between, childMarks + ends);
    PassesBoth(Between, unit.prologue, Between, MarksIn(unit.prologue), images, Between, imageMarks);
    PassesBoth(Between, unit.prologue + images, Between, MarksIn(unit.prologue) + imageMarks,
               unit.metadataProlog + (children + "</Metadata></xisf>"), Between, MarksIn(unit.metadataProlog) + (childMarks + ends));
  }

  // ---------------------------------------------------------------- what a parser reports of it

  /** A start tag or an end tag, as the handlers are told of it. */
  datatype Told = Begun(name: Name, location: Option<string>) | Over(name: Name)

  /** The names that the handlers know, of elements in the namespace of the root. */
  function NameOf(text: string): Name {
    if text == "xisf" then Xisf
    else if text == "Reference" then Reference
    else if text == "Table" then Table
    else if text == "Structure" then Structure
    else if text == "Field" then Field
    else if text == "Row" then Row
    else if text == "Cell" then Cell
    else if text == "ICCProfile" then IccProfile
    else if text in ["RGBWorkingSpace", "DisplayFunction", "ColorFilterArray", "Resolution"] then Ancillary
    else if text == "Thumbnail" then Thumbnail
    else if text == "Data" then Data
    else if text == "Image" then Image
    else if text == "Metadata" then Metadata
    else if text == "Property" then Property
    else if text == "FITSKeyword" then FitsKeyword
    else Other(text)
  }

  /** The value of the first `location` attribute. */
  function LocationOf(attributes: seq<Attribute>): Option<string> {
    if attributes == [] then None
    else if attributes[0].key == "location" then Some(attributes[0].value)
    else LocationOf(attributes[1..])
  }

  lemma {:induction false} LocationBehind(attributes: seq<Attribute>, offset: U64, size: U64)
    requires NoPlace(attributes)
    ensures LocationOf(attributes + [Place(offset, size)]) == Some(LocationText(offset, size))
    decreases |attributes|
  {
    hide LocationText;
    if attributes != [] {
      assert (attributes + [Place(offset, size)])[1..] == attributes[1..] + [Place(offset, size)];
      LocationBehind(attributes[1..], offset, size);
    }
  }

  function ToldOf(mark: Mark): seq<Told> {
    match mark
    case Opened(name, attributes) => [Begun(NameOf(name), LocationOf(attributes))]
    case Closed(name) => [Over(NameOf(name))]
    case Said(_) => []
  }

  function Reported(marks: seq<Mark>): seq<Told> {
    if marks == [] then [] else Reported(marks[..|marks| - 1]) + ToldOf(marks[|marks| - 1])
  }

  lemma {:induction false} ReportedJoin(a: seq<Mark>, b: seq<Mark>)
    ensures Reported(a + b) == Reported(a) + Reported(b)
    decreases |b|
  {
    hide ToldOf;
    if b == [] {
      assert a + b == a;
    } else {
      assert (a + b)[..|a + b| - 1] == a + b[..|b| - 1];
      ReportedJoin(a, b[..|b| - 1]);
    }
  }

  lemma OneReported(mark: Mark)
    ensures Reported([mark]) == ToldOf(mark)
  {
    assert [mark][..0] == [];
  }

  /** The tags among the events. */
  function Skeleton(events: seq<Event>): seq<Told> {
    if events == [] then []
    else
      Skeleton(events[..|events| - 1])
      + match events[|events| - 1]
        case Start(tag) => [Begun(tag.name, tag.location)]
        case End(name) => [Over(name)]
        case Text(_, _) => []
  }

  lemma {:induction false} SkeletonJoin(a: seq<Event>, b: seq<Event>)
    ensures Skeleton(a + b) == Skeleton(a) + Skeleton(b)
    decreases |b|
  {
    if b == [] {
      assert a + b == a;
    } else {
      assert (a + b)[..|a + b| - 1] == a + b[..|b| - 1];
      SkeletonJoin(a, b[..|b| - 1]);
    }
  }

  /** An element around what has this skeleton. */
  function Around(tag: Tag, inner: seq<Told>): seq<Told> {
    [Begun(tag.name, tag.location)] + (inner + [Over(tag.name)])
  }

  lemma ElementSkeleton(tag: Tag, inner: seq<Event>)
    ensures Skeleton(Element(tag, inner)) == Around(tag, Skeleton(inner))
  {
    var start, end := [Start(tag)], [End(tag.name)];
    assert start[..0] == [] && end[..0] == [];
    SkeletonJoin(inner, end);
    SkeletonJoin(start, inner + end);
  }

  lemma EntrySkeleton(e: PrintedEntry)
    ensures Skeleton(EventsOf(e)) == Around(e.tag, [])
  {
    var inner := if e.text == "" then [] else [Text(e.text, false)];
    assert inner != [] ==> inner[..0] == [];
    assert Skeleton(inner) == [];
    ElementSkeleton(e.tag, inner);
  }

  /** The parser tells of every tag in the text, with the location that stands there. */
  predicate Reports(events: seq<Event>, text: string) {
    Skeleton(events) == Reported(MarksIn(text))
  }

  lemma Cancel(a: seq<Told>, b: seq<Told>, c: seq<Told>, d: seq<Told>)
    requires a + b == c + d && |a| == |c|
    ensures a == c && b == d
  {
    assert (a + b)[..|a|] == a && (c + d)[..|c|] == c;
    assert (a + b)[|a|..] == b && (c + d)[|c|..] == d;
  }

  // ---------------------------------------------------------------- whatever reports the text shows its locations

  /** What is told of an entry: the place of its own block, or no place in the file. */
  lemma EntryTold(unit: L.Unit, sizes: seq<U64>, offsets: seq<U64>, k: nat)
    requires |sizes| == |offsets| == L.BlockCount(unit) && k < |unit.entries| && Tokenizes(unit)
    ensures var told, b := Reported(EntryMarks(unit, sizes, offsets, k)), HW.BlockNumber(unit, TheEntry(k));
            && |told| == 2 && told[0].Begun?
            && (if b.Some? then told[0].location == Some(LocationText(offsets[b.value], sizes[b.value]))
                else !(told[0].location.Some? && ParseLocation(told[0].location.value).kind == Attachment))
  {
    assert EntryTokenizes(unit.entries[k]);
    hide Tokenizes, AttributesOf, LocationText, ParseLocation, MarksIn, Passes, NameOf;
    if unit.entries[k].Block? {
      var b, attributes := HW.BlockNumber(unit, TheEntry(k)).value, AttributesOf(unit.entries[k].attributes);
      var head, closed := Opened("Property", attributes + [Place(offsets[b], sizes[b])]), Closed("Property");
      LocationBehind(attributes, offsets[b], sizes[b]);
      OneReported(head);
      OneReported(closed);
      assert [head] + [closed] == EntryMarks(unit, sizes, offsets, k);
      ReportedJoin([head], [closed]);
    }
  }

  lemma {:induction false} ChildMarkCount(u: Printed, unit: L.Unit, sizes: seq<U64>, offsets: seq<U64>, image: Option<nat>, k: nat)
    requires |sizes| == |offsets| == L.BlockCount(unit) && HW.SamePlan(u, unit) && Tokenizes(unit)
    ensures |Reported(ChildMarks(unit, sizes, offsets, image, k))| == |Skeleton(ChildEvents(u, image, k))|
    decreases |u.entries| - k
  {
    hide Skeleton, EventsOf, EntryMarks, Tokenizes, L.BlockCount, Reported;
    if k >= |u.entries| {
      NothingReported();
      assert Skeleton([]) == [] by {
        NoSkeleton();
      }
    } else {
      ChildMarkCount(u, unit, sizes, offsets, image, k + 1);
      if u.entries[k].image == image {
        EntryTold(unit, sizes, offsets, k);
        EntrySkeleton(u.entries[k]);
        ReportedJoin(EntryMarks(unit, sizes, offsets, k), ChildMarks(unit, sizes, offsets, image, k + 1));
        SkeletonJoin(EventsOf(u.entries[k]), ChildEvents(u, image, k + 1));
      }
    }
  }

  lemma NothingReported()
    ensures Reported([]) == []
  {
  }

  lemma NoSkeleton()
    ensures Skeleton([]) == []
  {
  }

  /** The children of an element show what the text says of them. */
  lemma {:induction false} ChildrenShow(u: Printed, unit: L.Unit, sizes: seq<U64>, offsets: seq<U64>, image: Option<nat>, k: nat)
    requires |sizes| == |offsets| == L.BlockCount(unit) && HW.SamePlan(u, unit) && Tokenizes(unit)
    requires Skeleton(ChildEvents(u, image, k)) == Reported(ChildMarks(unit, sizes, offsets, image, k))
    ensures forall t | t in Children(u, image, k) :: HW.ShowsAt(TagOf(u, t), HW.BlockNumber(unit, t), sizes, offsets)
    decreases |u.entries| - k
  {
    hide Skeleton, EventsOf, L.BlockCount, LocationText, ParseLocation, Tokenizes, EntryMarks, Reported;
    if k < |u.entries| {
      if u.entries[k].image == image {
        var e, marks := u.entries[k], EntryMarks(unit, sizes, offsets, k);
        EntryTold(unit, sizes, offsets, k);
        EntrySkeleton(e);
        SkeletonJoin(EventsOf(e), ChildEvents(u, image, k + 1));
        ReportedJoin(marks, ChildMarks(unit, sizes, offsets, image, k + 1));
        Cancel(Around(e.tag, []), Skeleton(ChildEvents(u, image, k + 1)), Reported(marks),
               Reported(ChildMarks(unit, sizes, offsets, image, k + 1)));
        assert Around(e.tag, [])[0] == Reported(marks)[0];
        assert HW.ShowsAt(e.tag, HW.BlockNumber(unit, TheEntry(k)), sizes, offsets);
      }
      ChildrenShow(u, unit, sizes, offsets, image, k + 1);
    }
  }

  /** What is told of an image with its children. */
  lemma ImageTold(unit: L.Unit, sizes: seq<U64>, offsets: seq<U64>, i: nat)
    requires |sizes| == |offsets| == L.BlockCount(unit) && Tokenizes(unit) && i < |unit.imageAttributes|
    ensures Reported(OneImage(unit, sizes, offsets, i))
         == [Begun(Image, Some(LocationText(offsets[i], sizes[i])))]
            + (Reported(ChildMarks(unit, sizes, offsets, Some(i), 0)) + [Over(Image)])
  {
    var start, marks := "<Image" + unit.imageAttributes[i], ChildMarks(unit, sizes, offsets, Some(i), 0);
    assert i < |offsets|;
    hide Tokenizes, AttributesOf, LocationText, Passes, NameOf, ChildMarks, L.BlockCount, Reported;
    ImageBegins(unit, i);
    ImageIsImage();
    LocationBehind(AttributesOf(start), offsets[i], sizes[i]);
    OneReported(ImageMark(unit, sizes, offsets, i));
    OneReported(Closed("Image"));
    ReportedJoin(marks, [Closed("Image")]);
    ReportedJoin([ImageMark(unit, sizes, offsets, i)], marks + [Closed("Image")]);
  }

  /** So does an image with its children. */
  lemma ImageShows(u: Printed, unit: L.Unit, sizes: seq<U64>, offsets: seq<U64>, i: nat)
    requires |sizes| == |offsets| == L.BlockCount(unit) && HW.SamePlan(u, unit) && Tokenizes(unit) && i < |u.images|
    requires Around(u.images[i], Skeleton(ChildEvents(u, Some(i), 0))) == Reported(OneImage(unit, sizes, offsets, i))
    ensures HW.ShowsAt(u.images[i], HW.BlockNumber(unit, TheImage(i)), sizes, offsets)
    ensures forall t | t in Children(u, Some(i), 0) :: HW.ShowsAt(TagOf(u, t), HW.BlockNumber(unit, t), sizes, offsets)
  {
    assert i < |offsets|;
    hide Skeleton, L.BlockCount, LocationText, ParseLocation, Tokenizes, Reported, OneImage;
    var tag, inner := u.images[i], Skeleton(ChildEvents(u, Some(i), 0));
    var told := Reported(ChildMarks(unit, sizes, offsets, Some(i), 0));
    var begin, end := [Begun(Image, Some(LocationText(offsets[i], sizes[i])))], [Over(Image)];
    ImageTold(unit, sizes, offsets, i);
    ChildMarkCount(u, unit, sizes, offsets, Some(i), 0);
    Cancel([Begun(tag.name, tag.location)], inner + [Over(tag.name)], begin, told + end);
    Cancel(inner, [Over(tag.name)], told, end);
    assert [Begun(tag.name, tag.location)][0] == begin[0];
    ChildrenShow(u, unit, sizes, offsets, Some(i), 0);
  }

  lemma ImageMarkCount(u: Printed, unit: L.Unit, sizes: seq<U64>, offsets: seq<U64>, i: nat)
    requires |sizes| == |offsets| == L.BlockCount(unit) && HW.SamePlan(u, unit) && Tokenizes(unit) && i < |u.images|
    ensures |Reported(OneImage(unit, sizes, offsets, i))| == |Around(u.images[i], Skeleton(ChildEvents(u, Some(i), 0)))|
  {
    hide Skeleton, Tokenizes, OneImage, Reported;
    ImageTold(unit, sizes, offsets, i);
    ChildMarkCount(u, unit, sizes, offsets, Some(i), 0);
  }

  lemma {:induction false} AllImagesCount(u: Printed, unit: L.Unit, sizes: seq<U64>, offsets: seq<U64>, i: nat)
    requires |sizes| == |offsets| == L.BlockCount(unit) && HW.SamePlan(u, unit) && Tokenizes(unit)
    ensures |Reported(ImageMarks(unit, sizes, offsets, i))| == |Skeleton(ImageEvents(u, i))|
    decreases |u.images| - i
  {
    hide Skeleton, Tokenizes, Element, OneImage, Reported;
    if i >= |u.images| {
      NothingReported();
      NoSkeleton();
    } else {
      AllImagesCount(u, unit, sizes, offsets, i + 1);
      ImageMarkCount(u, unit, sizes, offsets, i);
      ElementSkeleton(u.images[i], ChildEvents(u, Some(i), 0));
      SkeletonJoin(Element(u.images[i], ChildEvents(u, Some(i), 0)), ImageEvents(u, i + 1));
      ReportedJoin(OneImage(unit, sizes, offsets, i), ImageMarks(unit, sizes, offsets, i + 1));
    }
  }

  lemma {:induction false} ImagesShow(u: Printed, unit: L.Unit, sizes: seq<U64>, offsets: seq<U64>, i: nat)
    requires |sizes| == |offsets| == L.BlockCount(unit) && HW.SamePlan(u, unit) && Tokenizes(unit)
    requires Skeleton(ImageEvents(u, i)) == Reported(ImageMarks(unit, sizes, offsets, i))
    ensures forall t | t in ImageThings(u, i) :: HW.ShowsAt(TagOf(u, t), HW.BlockNumber(unit, t), sizes, offsets)
    decreases |u.images| - i
  {
    hide Skeleton, Tokenizes, Element, OneImage, L.BlockCount, Around, HW.ShowsAt, HW.BlockNumber, Reported;
    if i < |u.images| {
      var first, rest := Element(u.images[i], ChildEvents(u, Some(i), 0)), ImageEvents(u, i + 1);
      var marks, others := OneImage(unit, sizes, offsets, i), ImageMarks(unit, sizes, offsets, i + 1);
      ImageMarkCount(u, unit, sizes, offsets, i);
      ElementSkeleton(u.images[i], ChildEvents(u, Some(i), 0));
      SkeletonJoin(first, rest);
      ReportedJoin(marks, others);
      Cancel(Skeleton(first), Skeleton(rest), Reported(marks), Reported(others));
      ImageShows(u, unit, sizes, offsets, i);
      ImagesShow(u, unit, sizes, offsets, i + 1);
    }
  }

  /** The skeleton of a printed header, piece by piece. */
  function HeaderSkeleton(u: Printed): seq<Told> {
    [Begun(u.root.name, u.root.location)]
    + (Skeleton(ImageEvents(u, 0))
       + (MandatorySkeleton(u) + (Skeleton(ChildEvents(u, None, 0)) + [Over(u.metadata.name), Over(u.root.name)])))
  }

  function MandatorySkeleton(u: Printed): seq<Told> {
    var time, application := u.creationTime.tag, u.creatorApplication.tag;
    [Begun(u.metadata.name, u.metadata.location), Begun(time.name, time.location), Over(time.name),
     Begun(application.name, application.location), Over(application.name)]
  }

  lemma HeaderSkeletonIs(u: Printed)
    ensures Skeleton(HeaderOf(u)) == HeaderSkeleton(u)
  {
    hide Skeleton, Element, EventsOf;
    var children := ChildEvents(u, None, 0);
    ElementSkeleton(u.root, ImageEvents(u, 0) + Element(u.metadata, UnitEvents(u)));
    SkeletonJoin(ImageEvents(u, 0), Element(u.metadata, UnitEvents(u)));
    ElementSkeleton(u.metadata, UnitEvents(u));
    SkeletonJoin(EventsOf(u.creationTime), EventsOf(u.creatorApplication) + children);
    SkeletonJoin(EventsOf(u.creatorApplication), children);
    EntrySkeleton(u.creationTime);
    EntrySkeleton(u.creatorApplication);
    assert Skeleton(HeaderOf(u)) == HeaderSkeleton(u);
  }

  lemma PartsMatch(u: Printed, unit: L.Unit, sizes: seq<U64>, offsets: seq<U64>)
    requires |sizes| == |offsets| == L.BlockCount(unit) && HW.SamePlan(u, unit) && Tokenizes(unit)
    requires Reports(HeaderOf(u), L.HeaderText(unit, sizes, offsets))
    ensures Skeleton(ImageEvents(u, 0)) == Reported(ImageMarks(unit, sizes, offsets, 0))
    ensures Skeleton(ChildEvents(u, None, 0)) == Reported(ChildMarks(unit, sizes, offsets, None, 0))
    ensures MandatorySkeleton(u) == MandatoryTold()
  {
    HeaderScans(unit, sizes, offsets);
    HeaderSkeletonIs(u);
    AllImagesCount(u, unit, sizes, offsets, 0);
    ChildMarkCount(u, unit, sizes, offsets, None, 0);
    hide Skeleton, Tokenizes, L.BlockCount, L.HeaderText, MarksIn, ImageMarks, ChildMarks, ImageEvents, ChildEvents, HeaderOf;
    var images, children := ImageMarks(unit, sizes, offsets, 0), ChildMarks(unit, sizes, offsets, None, 0);
    var root, mandatory, ends := MarksIn(unit.prologue), MarksIn(unit.metadataProlog), [Closed("Metadata"), Closed("xisf")];
    var told, telling := Skeleton(ImageEvents(u, 0)), Skeleton(ChildEvents(u, None, 0));
    var closing := [Over(u.metadata.name), Over(u.root.name)];
    assert Reported(root) == [Begun(Xisf, None)] && Reported(mandatory) == MandatoryTold() by {
      Ready(unit);
    }
    hide Reported;
    Parts(root, images, mandatory, children, ends);
    EndsReported();
    FivePieces([Begun(u.root.name, u.root.location)], told, MandatorySkeleton(u), telling, closing,
               Reported(root), Reported(images), Reported(mandatory), Reported(children), Reported(ends));
  }

  /** Whatever reports the tags of a header's text shows, for everything printed, the place of its own block. */
  lemma TextShows(u: Printed, unit: L.Unit, sizes: seq<U64>, offsets: seq<U64>)
    requires |sizes| == |offsets| == L.BlockCount(unit) && HW.SamePlan(u, unit) && Tokenizes(unit)
    requires Reports(HeaderOf(u), L.HeaderText(unit, sizes, offsets))
    ensures HW.Shows(u, unit, sizes, offsets)
  {
    PartsMatch(u, unit, sizes, offsets);
    hide Skeleton, Tokenizes, L.BlockCount, L.HeaderText, MarksIn, ImageMarks, ChildMarks, ImageEvents, ChildEvents, HeaderOf, Reported, Reports;
    MandatoryShows(u, unit, sizes, offsets);
    ImagesShow(u, unit, sizes, offsets, 0);
    ChildrenShow(u, unit, sizes, offsets, None, 0);
    hide HW.ShowsAt, ImageThings, Children;
    forall t | t in Things(u)
      ensures HW.ShowsAt(TagOf(u, t), HW.BlockNumber(unit, t), sizes, offsets)
    {
      assert t in ImageThings(u, 0) || t == TheTime || t == TheApplication || t in Children(u, None, 0);
    }
  }

  lemma FivePieces(
    a: seq<Told>, b: seq<Told>, c: seq<Told>, d: seq<Told>, e: seq<Told>,
    a': seq<Told>, b': seq<Told>, c': seq<Told>, d': seq<Told>, e': seq<Told>)
    requires a + (b + (c + (d + e))) == a' + (b' + (c' + (d' + e')))
    requires |a| == |a'| && |b| == |b'| && |c| == |c'| && |d| == |d'|
    ensures a == a' && b == b' && c == c' && d == d' && e == e'
  {
    Cancel(a, b + (c + (d + e)), a', b' + (c' + (d' + e')));
    Cancel(b, c + (d + e), b', c' + (d' + e'));
    Cancel(c, d + e, c', d' + e');
    Cancel(d, e, d', e');
  }

  lemma Ready(unit: L.Unit)
    requires Tokenizes(unit)
    ensures Reported(MarksIn(unit.prologue)) == [Begun(Xisf, None)] && Reported(MarksIn(unit.metadataProlog)) == MandatoryTold()
  {
  }

  lemma EndsReported()
    ensures |Reported([Closed("Metadata"), Closed("xisf")])| == 2
  {
    OneReported(Closed("Metadata"));
    OneReported(Closed("xisf"));
    assert [Closed("Metadata")] + [Closed("xisf")] == [Closed("Metadata"), Closed("xisf")];
    ReportedJoin([Closed("Metadata")], [Closed("xisf")]);
  }

  lemma MandatoryShows(u: Printed, unit: L.Unit, sizes: seq<U64>, offsets: seq<U64>)
    requires |sizes| == |offsets| == L.BlockCount(unit) && MandatorySkeleton(u) == MandatoryTold()
    ensures HW.ShowsAt(u.creationTime.tag, None, sizes, offsets) && HW.ShowsAt(u.creatorApplication.tag, None, sizes, offsets)
  {
    assert MandatorySkeleton(u)[1] == MandatoryTold()[1] && MandatorySkeleton(u)[3] == MandatoryTold()[3];
  }

  lemma Parts(a: seq<Mark>, b: seq<Mark>, c: seq<Mark>, d: seq<Mark>, e: seq<Mark>)
    ensures Reported(a + b + (c + (d + e))) == Reported(a) + (Reported(b) + (Reported(c) + (Reported(d) + Reported(e))))
  {
    hide Reported;
    ReportedJoin(d, e);
    ReportedJoin(c, d + e);
    ReportedJoin(a + b, c + (d + e));
    ReportedJoin(a, b);
  }

  // ---------------------------------------------------------------- texts of this kind

  predicate PlainName(name: string) {
    forall i | 0 <= i < |name| :: name[i] != '>' && name[i] != ' ' && name[i] != '/' && name[i] != '?'
  }

  /** Attributes as the writer prints them: values are escaped, so no quotation mark stands in them. */
  predicate Printable(attributes: seq<Attribute>) {
    forall i | 0 <= i < |attributes| :: IsKey(attributes[i].key) && Text.Free(attributes[i].value, '"')
  }

  function PrintOne(a: Attribute): string {
    [' '] + (a.key + (['=', '"'] + (a.value + ['"'])))
  }

  function PrintAttributes(attributes: seq<Attribute>): string {
    if attributes == [] then "" else PrintAttributes(attributes[..|attributes| - 1]) + PrintOne(attributes[|attributes| - 1])
  }

  lemma {:induction false} NameStarts(begun: string, name: string)
    requires PlainName(name) && PlainName(begun)
    ensures Passes(Naming(begun), name, Naming(begun + name), [])
    decreases |name|
  {
    if name == "" {
      assert begun + name == begun;
    } else {
      var front := name[..|name| - 1];
      NameStarts(begun, front);
      assert begun + front + [name[|name| - 1]] == begun + name;
    }
  }

  /** The first attribute, behind the element's name. */
  lemma FirstAttribute(name: string, a: Attribute)
    requires IsKey(a.key) && Text.Free(a.value, '"')
    ensures Passes(Naming(name), PrintOne(a), Inside(name, [a], ""), [])
  {
    var rest := a.key + (['=', '"'] + (a.value + ['"']));
    AttributePasses(name, [], a.key, a.value);
    assert [] + [a] == [a];
    OneChar(Inside(name, [], ""), ' ');
    OneChar(Naming(name), ' ');
    ScanJoin(Inside(name, [], ""), [' '], rest);
    ScanJoin(Naming(name), [' '], rest);
  }

  lemma {:induction false} AttributesPass(name: string, attributes: seq<Attribute>)
    requires Printable(attributes) && attributes != []
    ensures Passes(Naming(name), PrintAttributes(attributes), Inside(name, attributes, ""), [])
    decreases |attributes|
  {
    hide ScanFrom;
    var n := |attributes| - 1;
    var front, last := attributes[..n], attributes[n];
    assert front + [last] == attributes;
    if n == 0 {
      FirstAttribute(name, last);
      assert PrintAttributes(front) == "" && "" + PrintOne(last) == PrintOne(last);
    } else {
      AttributesPass(name, front);
      AttributePasses(name, front, last.key, last.value);
      assert PrintOne(last) == [' '] + (last.key + (['=', '"'] + (last.value + ['"'])));
      PassesBoth(Naming(name), PrintAttributes(front), Inside(name, front, ""), [], PrintOne(last), Inside(name, attributes, ""), []);
    }
  }

  /** A start tag printed with these attributes, up to the place of its block. */
  lemma TagBegins(name: string, attributes: seq<Attribute>)
    requires PlainName(name) && name != "" && Printable(attributes) && attributes != [] && NoPlace(attributes)
    ensures Begins("<" + name + PrintAttributes(attributes), name, attributes)
    ensures AttributesOf("<" + name + PrintAttributes(attributes)) == attributes
  {
    hide ScanFrom;
    OneChar(Between, '<');
    NameStarts("", name);
    assert "" + name == name;
    PassesBoth(Between, "<", Naming(""), [], name, Naming(name), []);
    AttributesPass(name, attributes);
    PassesBoth(Between, "<" + name, Naming(name), [], PrintAttributes(attributes), Inside(name, attributes, ""), []);
  }

  /** An element without a block: empty, or with escaped text, in which no '<' stands. */
  lemma ElementPasses(name: string, attributes: seq<Attribute>, text: string)
    requires PlainName(name) && name != "" && Printable(attributes) && attributes != [] && NoPlace(attributes)
    requires Text.Free(text, '<') && text != ""
    ensures Passes(Between, "<" + name + PrintAttributes(attributes) + "/>", Between, [Opened(name, attributes), Closed(name)])
    ensures Passes(Between, "<" + name + PrintAttributes(attributes) + (">" + (text + ("</" + (name + ">")))), Between,
                   [Opened(name, attributes), Said(text), Closed(name)])
  {
    hide ScanFrom, PrintAttributes;
    var start, inside := "<" + name + PrintAttributes(attributes), Inside(name, attributes, "");
    TagBegins(name, attributes);
    EmptyEnds(name, attributes);
    PassesBoth(Between, start, inside, [], "/>", Between, [Opened(name, attributes), Closed(name)]);
    OneChar(inside, '>');
    SaidPasses("", text);
    assert "" + text == text;
    TextThenEnd(text, name);
    PassesBoth(inside, ">", Between, [Opened(name, attributes)], text + ("</" + (name + ">")), Between, [Said(text), Closed(name)]);
    PassesBoth(Between, start, inside, [], ">" + (text + ("</" + (name + ">"))), Between, [Opened(name, attributes)] + [Said(text), Closed(name)]);
    assert [] + ([Opened(name, attributes)] + [Said(text), Closed(name)]) == [Opened(name, attributes), Said(text), Closed(name)];
  }

  lemma {:induction false} SaidPasses(said: string, text: string)
    requires Text.Free(text, '<')
    ensures Passes(Content(said), text, Content(said + text), [])
    decreases |text|
  {
    if text == "" {
      assert said + text == said;
    } else {
      var front := text[..|text| - 1];
      SaidPasses(said, front);
      assert said + front + [text[|text| - 1]] == said + text;
    }
  }

  lemma TextThenEnd(text: string, name: string)
    requires Text.Free(text, '<') && text != "" && PlainName(name)
    ensures Passes(Between, text + ("</" + (name + ">")), Between, [Said(text), Closed(name)])
  {
    hide ScanFrom;
    SaidPasses("", text);
    assert "" + text == text;
    EndPasses(name);
    var end := "/" + (name + ">");
    assert "<" + end == "</" + (name + ">");
    OneChar(Between, '<');
    OneChar(Content(text), '<');
    ScanJoin(Between, "<", end);
    ScanJoin(Content(text), "<", end);
    var y := ScanFrom(Naming(""), end);
    assert [] + y.marks == y.marks && [Said(text)] + [Closed(name)] == [Said(text), Closed(name)];
    PassesBoth(Between, text, Content(text), [], "</" + (name + ">"), Between, [Said(text), Closed(name)]);
  }
}
