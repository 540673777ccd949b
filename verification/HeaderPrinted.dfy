/** The headers that the writer prints, as events: every one of them is accepted, within the reader's limits. */
module HeaderPrinted {
  import opened Base
  import opened HeaderStack
  import opened Locations
  import opened Ranges
  import opened HeaderLists
  import opened HeaderDraft
  import opened HeaderDocument
  import opened HeaderEvents
  import opened HeaderValues
  import opened HeaderSteps

  /** A Property or FITS keyword, with its text if it has any, of one image or of the whole unit. */
  datatype PrintedEntry = PrintedEntry(tag: Tag, text: string, image: Option<nat>)

  /** What `make_header` prints: images with their entries, then the metadata with the mandatory ones first. */
  datatype Printed = Printed(
    root: Tag,
    images: seq<Tag>,
    metadata: Tag,
    creationTime: PrintedEntry,
    creatorApplication: PrintedEntry,
    entries: seq<PrintedEntry>)

  function EventsOf(e: PrintedEntry): seq<Event> {
    EntryEvents(e.tag, e.text)
  }

  /** The entries from `k` on that belong to the image, or to none. */
  function ChildEvents(u: Printed, image: Option<nat>, k: nat): seq<Event>
    decreases |u.entries| - k
  {
    if k >= |u.entries| then []
    else
      var rest := ChildEvents(u, image, k + 1);
      if u.entries[k].image == image then EventsOf(u.entries[k]) + rest else rest
  }

  function ImageEvents(u: Printed, i: nat): seq<Event>
    decreases |u.images| - i
  {
    if i >= |u.images| then [] else Element(u.images[i], ChildEvents(u, Some(i), 0)) + ImageEvents(u, i + 1)
  }

  function UnitEvents(u: Printed): seq<Event> {
    EventsOf(u.creationTime) + (EventsOf(u.creatorApplication) + ChildEvents(u, None, 0))
  }

  function HeaderOf(u: Printed): seq<Event> {
    Element(u.root, ImageEvents(u, 0) + Element(u.metadata, UnitEvents(u)))
  }

  // ---------------------------------------------------------------- what the writer makes sure of

  /** Attributes that the reader accepts, and no uid, which the writer never prints. */
  predicate GoodTag(tag: Tag, name: Name, options: HeaderOptions) {
    tag.name == name && tag.fault == NoFault && tag.uid == "" && tag.attributes <= options.maxAttributes && !BadAttachment(tag)
  }

  /** A Property with an attribute, text or a block as its value; a keyword only in an image. */
  predicate GoodEntry(e: PrintedEntry, role: Role, options: HeaderOptions) {
    && (GoodTag(e.tag, Property, options) || (GoodTag(e.tag, FitsKeyword, options) && e.image.Some?))
    && e.tag.role == role
    && (e.tag.name == Property && e.tag.location.Some? ==> BlockOf(e.tag).kind != Embedded && BlockOf(e.tag).kind != Unknown)
    && (InlineProperty(e.tag, e.tag.name == Property) ==> e.tag.encoding.Some?)
    && (e.text != "" ==> TakesCharacters(e.tag) && |e.text| <= options.maxMetadataValue)
  }

  predicate GoodImage(tag: Tag, options: HeaderOptions) {
    GoodTag(tag, Image, options) && BlockOf(tag).kind == Attachment
  }

  predicate DifferentIds(images: seq<Tag>) {
    forall i, j | 0 <= i < j < |images| :: images[i].id == "" || images[i].id != images[j].id
  }

  predicate Good(u: Printed, options: HeaderOptions) {
    && GoodTag(u.root, Xisf, options) && u.root.location.None?
    && GoodTag(u.metadata, Metadata, options) && u.metadata.location.None?
    && GoodEntry(u.creationTime, CreationTime, options) && u.creationTime.image.None?
    && GoodEntry(u.creatorApplication, CreatorApplication, options) && u.creatorApplication.image.None?
    && (forall k | 0 <= k < |u.entries| :: GoodEntry(u.entries[k], NoRole, options))
    && (forall i | 0 <= i < |u.images| :: GoodImage(u.images[i], options))
    && DifferentIds(u.images)
  }

  // ---------------------------------------------------------------- the order of printing

  /** What the header has elements for, besides the root and the Metadata element. */
  datatype Thing = TheImage(i: nat) | TheEntry(k: nat) | TheTime | TheApplication

  predicate IsIn(u: Printed, t: Thing) {
    match t
    case TheImage(i) => i < |u.images|
    case TheEntry(k) => k < |u.entries|
    case _ => true
  }

  function TagOf(u: Printed, t: Thing): Tag
    requires IsIn(u, t)
  {
    match t
    case TheImage(i) => u.images[i]
    case TheEntry(k) => u.entries[k].tag
    case TheTime => u.creationTime.tag
    case TheApplication => u.creatorApplication.tag
  }

  function ImageOf(u: Printed, t: Thing): Option<nat>
    requires IsIn(u, t)
  {
    if t.TheEntry? then u.entries[t.k].image else None
  }

  predicate AllIn(u: Printed, things: seq<Thing>) {
    forall m | 0 <= m < |things| :: IsIn(u, things[m])
  }

  /** The entries from `k` on that belong to the image, or to none. */
  function Children(u: Printed, image: Option<nat>, k: nat): (things: seq<Thing>)
    ensures AllIn(u, things)
    decreases |u.entries| - k
  {
    if k >= |u.entries| then []
    else
      var rest := Children(u, image, k + 1);
      if u.entries[k].image == image then [TheEntry(k)] + rest else rest
  }

  function ImageThings(u: Printed, i: nat): (things: seq<Thing>)
    ensures AllIn(u, things) && (i <= |u.images| ==> |things| >= |u.images| - i)
    decreases |u.images| - i
  {
    if i >= |u.images| then [] else [TheImage(i)] + (Children(u, Some(i), 0) + ImageThings(u, i + 1))
  }

  function UnitThings(u: Printed): (things: seq<Thing>)
    ensures AllIn(u, things)
  {
    [TheTime] + ([TheApplication] + Children(u, None, 0))
  }

  /** Everything, in the order of printing. */
  function Things(u: Printed): (things: seq<Thing>)
    ensures AllIn(u, things)
  {
    ImageThings(u, 0) + UnitThings(u)
  }

  /** The ranges of the file that they claim. */
  function Claims(u: Printed, things: seq<Thing>): seq<AttachedRange>
    requires AllIn(u, things)
  {
    if things == [] then [] else Claims(u, things[..|things| - 1]) + RangesOf(TagOf(u, things[|things| - 1]))
  }

  /** The identifiers of the Properties among them. */
  function NamesOf(u: Printed, things: seq<Thing>): seq<Named>
    requires AllIn(u, things)
  {
    if things == [] then []
    else
      var t := things[|things| - 1];
      NamesOf(u, things[..|things| - 1]) + if TagOf(u, t).name == Property then [Named(ImageOf(u, t), TagOf(u, t).id)] else []
  }

  lemma {:induction false} ClaimsJoin(u: Printed, a: seq<Thing>, b: seq<Thing>)
    requires AllIn(u, a) && AllIn(u, b)
    ensures AllIn(u, a + b) && Claims(u, a + b) == Claims(u, a) + Claims(u, b)
    decreases |b|
  {
    hide RangesOf;
    if b == [] {
      assert a + b == a;
    } else {
      assert (a + b)[..|a + b| - 1] == a + b[..|b| - 1];
      ClaimsJoin(u, a, b[..|b| - 1]);
    }
  }

  lemma {:induction false} NamesJoin(u: Printed, a: seq<Thing>, b: seq<Thing>)
    requires AllIn(u, a) && AllIn(u, b)
    ensures AllIn(u, a + b) && NamesOf(u, a + b) == NamesOf(u, a) + NamesOf(u, b)
    decreases |b|
  {
    if b == [] {
      assert a + b == a;
    } else {
      assert (a + b)[..|a + b| - 1] == a + b[..|b| - 1];
      NamesJoin(u, a, b[..|b| - 1]);
    }
  }

  lemma OneThing(u: Printed, t: Thing)
    requires IsIn(u, t)
    ensures Claims(u, [t]) == RangesOf(TagOf(u, t))
    ensures NamesOf(u, [t]) == if TagOf(u, t).name == Property then [Named(ImageOf(u, t), TagOf(u, t).id)] else []
  {
    hide RangesOf;
    assert [t][..0] == [];
  }

  /** The reader's limits leave room for the elements of the header. */
  predicate HasRoom(u: Printed, options: HeaderOptions) {
    && options.maxDepth >= 3 && options.maxNodes >= 2 + |Things(u)|
    && options.maxImages >= |u.images| && options.maxMetadata + |u.images| >= |Things(u)|
  }

  // ---------------------------------------------------------------- running the entries

  /** Every entry is bound by its own event, to its image or to the unit. */
  predicate Bound(x: Entries) {
    && |x.events| == |x.items| && x.open.None? && x.uids == map[]
    && forall k | 0 <= k < |x.items| :: BoundAt(x, k)
  }

  predicate BoundAt(x: Entries, k: nat)
    requires k < |x.items| && |x.events| == |x.items|
  {
    && x.events[k] == Direct(k, x.items[k].scope, x.items[k].image)
    && (if x.items[k].image.Some? then x.items[k].scope == ImageScope else x.items[k].scope == UnitScope && x.items[k].isProperty)
  }

  /** Inside an Image, whose index is the current one, or inside the Metadata element. */
  predicate Around(names: seq<Name>, images: Images, image: Option<nat>) {
    && (names == [Xisf, Image] || names == [Xisf, Metadata])
    && (names == [Xisf, Image] <==> image.Some?)
    && (if images.stack == [] then image.None? else image == Some(images.stack[|images.stack| - 1]))
  }

  /** The identifiers of the Properties so far. */
  function NamesIn(items: seq<Entry>): seq<Named> {
    if items == [] then []
    else
      var e := items[|items| - 1];
      NamesIn(items[..|items| - 1]) + if e.isProperty then [Named(e.image, e.name)] else []
  }

  /** The lists that fill up while a header without tables and the like is read. */
  datatype Lists = Lists(images: Images, entries: Entries)

  function DraftOf(l: Lists): Draft {
    SteadyDraft(l.images, l.entries)
  }

  /** From `l` to `m`, these things have been read. */
  predicate Read(u: Printed, things: seq<Thing>, l: Lists, m: Lists)
    requires AllIn(u, things)
  {
    && |m.images.items| + |m.entries.items| == |l.images.items| + |l.entries.items| + |things|
    && m.entries.elements == l.entries.elements
    && NamesIn(m.entries.items) == NamesIn(l.entries.items) + NamesOf(u, things)
  }

  predicate SameRoles(x: Entries, y: Entries) {
    y.creationTime == x.creationTime && y.creatorApplication == x.creatorApplication
  }

  lemma EntryIsDone(e: PrintedEntry, role: Role, x: Entries, image: Option<nat>, options: HeaderOptions)
    requires GoodEntry(e, role, options) && e.image == image && Bound(x)
    ensures var y := EntryDone(x, e.tag, e.text, image.None?, image);
            && Bound(y) && |y.items| == |x.items| + 1 && y.elements == x.elements
            && (role == NoRole || image.Some? ==> SameRoles(x, y))
            && (image.None? ==> SameRoles(RoleNoted(x, role), y))
            && NamesIn(y.items) == NamesIn(x.items) + if e.tag.name == Property then [Named(image, e.tag.id)] else []
  {
    hide ParseLocation;
    var y := EntryDone(x, e.tag, e.text, image.None?, image);
    assert y.items[..|x.items|] == x.items;
    assert forall k | 0 <= k < |x.items| :: BoundAt(x, k) ==> BoundAt(y, k);
  }

  /** One entry at its place. */
  lemma RunPrinted(
    e: PrintedEntry, role: Role, names: seq<Name>, nodes: nat, ranges: seq<AttachedRange>, images: Images, x: Entries,
    image: Option<nat>, options: HeaderOptions)
    requires GoodEntry(e, role, options) && e.image == image && Around(names, images, image) && Bound(x)
    requires image.None? ==> RoleIsFree(x, role)
    requires |x.items| < options.maxMetadata && nodes < options.maxNodes && 3 <= options.maxDepth
    ensures RunFrom(Steady(names, nodes, ranges, SteadyDraft(images, x)), EventsOf(e), options)
         == Some(Steady(names, nodes + 1, ranges + RangesOf(e.tag), SteadyDraft(images, EntryDone(x, e.tag, e.text, image.None?, image))))
  {
    hide ParseLocation, BadAttachment, EntryDone, RangesOf, RunFrom, Steady, StepTaken;
    RunEntry(e.tag, e.text, names, nodes, ranges, images, x, options);
  }

  /** These events, at this place, read these things. */
  predicate Reads(
    u: Printed, things: seq<Thing>, events: seq<Event>, names: seq<Name>, nodes: nat, ranges: seq<AttachedRange>,
    l: Lists, m: Lists, options: HeaderOptions)
    requires AllIn(u, things)
  {
    && Bound(m.entries) && Read(u, things, l, m)
    && RunFrom(Steady(names, nodes, ranges, DraftOf(l)), events, options)
       == Some(Steady(names, nodes + |things|, ranges + Claims(u, things), DraftOf(m)))
  }

  lemma ReadsNothing(u: Printed, names: seq<Name>, nodes: nat, ranges: seq<AttachedRange>, l: Lists, options: HeaderOptions)
    requires Bound(l.entries)
    ensures Reads(u, [], [], names, nodes, ranges, l, l, options)
  {
    hide Steady, SteadyDraft, StepTaken, Bound;
    assert ranges + Claims(u, []) == ranges;
    assert NamesIn(l.entries.items) + NamesOf(u, []) == NamesIn(l.entries.items);
  }

  lemma ReadsBoth(
    u: Printed, a: seq<Thing>, b: seq<Thing>, first: seq<Event>, second: seq<Event>, names: seq<Name>, nodes: nat,
    ranges: seq<AttachedRange>, l: Lists, m: Lists, n: Lists, options: HeaderOptions)
    requires AllIn(u, a) && AllIn(u, b)
    requires Reads(u, a, first, names, nodes, ranges, l, m, options)
    requires Reads(u, b, second, names, nodes + |a|, ranges + Claims(u, a), m, n, options)
    ensures AllIn(u, a + b) && Reads(u, a + b, first + second, names, nodes, ranges, l, n, options)
  {
    hide Steady, SteadyDraft, Bound, Claims, NamesOf, NamesIn, RunFrom, StepTaken, AllIn;
    ClaimsJoin(u, a, b);
    NamesJoin(u, a, b);
    assert ranges + Claims(u, a) + Claims(u, b) == ranges + Claims(u, a + b);
    assert NamesIn(l.entries.items) + NamesOf(u, a) + NamesOf(u, b) == NamesIn(l.entries.items) + NamesOf(u, a + b);
    RunAppend(Steady(names, nodes, ranges, DraftOf(l)), first, second, options);
  }

  lemma ReadsOne(
    u: Printed, t: Thing, e: PrintedEntry, role: Role, names: seq<Name>, nodes: nat, ranges: seq<AttachedRange>, l: Lists,
    options: HeaderOptions) returns (m: Lists)
    requires IsIn(u, t) && TagOf(u, t) == e.tag && ImageOf(u, t) == e.image
    requires GoodEntry(e, role, options) && Around(names, l.images, e.image) && Bound(l.entries)
    requires e.image.None? ==> RoleIsFree(l.entries, role)
    requires |l.entries.items| < options.maxMetadata && nodes < options.maxNodes && 3 <= options.maxDepth
    ensures Reads(u, [t], EventsOf(e), names, nodes, ranges, l, m, options) && m.images == l.images
    ensures role == NoRole || e.image.Some? ==> SameRoles(l.entries, m.entries)
    ensures e.image.None? ==> SameRoles(RoleNoted(l.entries, role), m.entries)
  {
    hide ParseLocation, EntryDone, RangesOf, Steady, SteadyDraft, RunFrom, StepTaken, GoodEntry, NamesIn, Around, Bound, EventsOf;
    hide RoleNoted, RoleIsFree;
    OneThing(u, t);
    hide NamesOf, Claims;
    m := l.(entries := EntryDone(l.entries, e.tag, e.text, e.image.None?, e.image));
    EntryIsDone(e, role, l.entries, e.image, options);
    RunPrinted(e, role, names, nodes, ranges, l.images, l.entries, e.image, options);
  }

  /** The children of an element from number `k` on. */
  lemma {:induction false} RunChildren(
    u: Printed, image: Option<nat>, k: nat, names: seq<Name>, nodes: nat, ranges: seq<AttachedRange>, l: Lists, options: HeaderOptions)
    returns (n: Lists)
    requires Good(u, options) && k <= |u.entries| && Around(names, l.images, image) && Bound(l.entries)
    requires |l.entries.items| + |Children(u, image, k)| <= options.maxMetadata && nodes + |Children(u, image, k)| <= options.maxNodes
    requires 3 <= options.maxDepth
    ensures Reads(u, Children(u, image, k), ChildEvents(u, image, k), names, nodes, ranges, l, n, options)
    ensures n.images == l.images && SameRoles(l.entries, n.entries)
    decreases |u.entries| - k
  {
    hide StepTaken, RunFrom, Steady, SteadyDraft, EntryDone, EventsOf, GoodEntry, RoleNoted, Claims, Around;
    if k == |u.entries| {
      n := l;
      ReadsNothing(u, names, nodes, ranges, l, options);
    } else if u.entries[k].image != image {
      n := RunChildren(u, image, k + 1, names, nodes, ranges, l, options);
    } else {
      var e, t, rest := u.entries[k], TheEntry(k), Children(u, image, k + 1);
      assert GoodEntry(e, NoRole, options);
      hide Good;
      var m := ReadsOne(u, t, e, NoRole, names, nodes, ranges, l, options);
      n := RunChildren(u, image, k + 1, names, nodes + 1, ranges + Claims(u, [t]), m, options);
      hide Reads;
      ReadsBoth(u, [t], rest, EventsOf(e), ChildEvents(u, image, k + 1), names, nodes, ranges, l, m, n, options);
    }
  }

  // ---------------------------------------------------------------- running the images

  /** The lists hold the first `i` images, none of which is open. */
  predicate ImagesFollow(u: Printed, i: nat, x: Images)
    requires i <= |u.images|
  {
    && |x.items| == |x.seen| == i && x.stack == []
    && (forall j | 0 <= j < i :: x.items[j].block == BlockOf(u.images[j]))
    && forall id | id in x.ids :: exists j | 0 <= j < i :: u.images[j].id == id && id != ""
  }

  /** The same, with image `i` as the open one. */
  predicate ImageIsOpen(u: Printed, i: nat, x: Images)
    requires i < |u.images|
  {
    && |x.items| == |x.seen| == i + 1 && x.stack == [i] && x.items[i].block.kind == Attachment
    && (forall j | 0 <= j < i + 1 :: x.items[j].block == BlockOf(u.images[j]))
    && forall id | id in x.ids :: exists j | 0 <= j < i + 1 :: u.images[j].id == id && id != ""
  }

  lemma ImageOpens(u: Printed, i: nat, l: Lists, options: HeaderOptions) returns (m: Lists)
    requires Good(u, options) && i < |u.images| <= options.maxImages && ImagesFollow(u, i, l.images)
    ensures KindStarted([Xisf], u.images[i], DraftOf(l), options) == Some(DraftOf(m))
    ensures ImageIsOpen(u, i, m.images) && m.entries == l.entries
  {
    hide ParseLocation, BadAttachment, Bound;
    var tag := u.images[i];
    assert GoodImage(tag, options);
    assert tag.id == "" || tag.id !in l.images.ids;
    m := l.(images := ImageAdded(l.images, tag, options).value);
    assert forall id | id in m.images.ids :: id in l.images.ids || (id == tag.id && id != "");
  }

  lemma ImageCloses(u: Printed, i: nat, l: Lists, options: HeaderOptions) returns (m: Lists)
    requires i < |u.images| && ImageIsOpen(u, i, l.images)
    ensures ElementEnded(Image, DraftOf(l), options) == Some(DraftOf(m))
    ensures ImagesFollow(u, i + 1, m.images) && m.entries == l.entries
  {
    m := l.(images := ImageClosed(l.images).value);
  }

  /** One image with its children. */
  lemma RunImage(
    u: Printed, i: nat, nodes: nat, ranges: seq<AttachedRange>, l: Lists, options: HeaderOptions) returns (n: Lists)
    requires Good(u, options) && i < |u.images| <= options.maxImages && ImagesFollow(u, i, l.images) && Bound(l.entries)
    requires |l.entries.items| + |Children(u, Some(i), 0)| <= options.maxMetadata
    requires nodes + 1 + |Children(u, Some(i), 0)| <= options.maxNodes && 3 <= options.maxDepth
    ensures AllIn(u, [TheImage(i)] + Children(u, Some(i), 0))
    ensures Reads(u, [TheImage(i)] + Children(u, Some(i), 0), Element(u.images[i], ChildEvents(u, Some(i), 0)), [Xisf], nodes, ranges,
                  l, n, options)
    ensures ImagesFollow(u, i + 1, n.images) && SameRoles(l.entries, n.entries)
  {
    hide StepTaken, RunFrom, Steady, SteadyDraft, RoleNoted, KindStarted, ElementEnded, GoodEntry, Element, RangesOf;
    var tag := u.images[i];
    assert GoodImage(tag, options);
    ImageFits(tag, nodes, l, options);
    var open := ImageOpens(u, i, l, options);
    var full := RunChildren(u, Some(i), 0, [Xisf, Image], nodes + 1, ranges + RangesOf(tag), open, options);
    n := ImageCloses(u, i, full, options);
    ImageReads(u, i, nodes, ranges, l, open, full, n, options);
  }

  lemma ImageReads(
    u: Printed, i: nat, nodes: nat, ranges: seq<AttachedRange>, l: Lists, open: Lists, full: Lists, n: Lists, options: HeaderOptions)
    requires i < |u.images| && u.images[i].name == Image && MayEnter(u.images[i], [Xisf], nodes, options) && NoneOpen(DraftOf(l).encoded)
    requires KindStarted([Xisf], u.images[i], DraftOf(l), options) == Some(DraftOf(open))
    requires Reads(u, Children(u, Some(i), 0), ChildEvents(u, Some(i), 0), [Xisf, Image], nodes + 1, ranges + RangesOf(u.images[i]),
                   open, full, options)
    requires ElementEnded(Image, DraftOf(full), options) == Some(DraftOf(n))
    requires |open.images.items| == |l.images.items| + 1 && |n.images.items| == |full.images.items|
    requires open.entries == l.entries && n.entries == full.entries
    ensures AllIn(u, [TheImage(i)] + Children(u, Some(i), 0))
    ensures Reads(u, [TheImage(i)] + Children(u, Some(i), 0), Element(u.images[i], ChildEvents(u, Some(i), 0)), [Xisf], nodes, ranges,
                  l, n, options)
  {
    hide StepTaken, RunFrom, Steady, SteadyDraft, KindStarted, ElementEnded, Element, RangesOf, MayEnter, NoneOpen, Bound, NamesIn;
    var tag, t, things := u.images[i], TheImage(i), Children(u, Some(i), 0);
    OneThing(u, t);
    ClaimsJoin(u, [t], things);
    NamesJoin(u, [t], things);
    hide Claims, NamesOf;
    assert [Xisf] + [tag.name] == [Xisf, Image];
    var now := ranges + RangesOf(tag) + Claims(u, things);
    assert now == ranges + Claims(u, [t] + things);
    assert NamesIn(l.entries.items) + NamesOf(u, things) == NamesIn(l.entries.items) + NamesOf(u, [t] + things);
    SteadyElement(tag, ChildEvents(u, Some(i), 0), [Xisf], nodes, ranges, now, nodes + 1 + |things|, DraftOf(l), DraftOf(open),
                  DraftOf(full), DraftOf(n), options);
  }

  lemma ImageFits(tag: Tag, nodes: nat, l: Lists, options: HeaderOptions)
    requires GoodImage(tag, options) && nodes < options.maxNodes && 3 <= options.maxDepth
    ensures tag.name == Image && MayEnter(tag, [Xisf], nodes, options) && NoneOpen(DraftOf(l).encoded)
  {
    hide ParseLocation, BadAttachment;
  }

  /** The images from number `i` on. */
  lemma {:induction false} RunImages(
    u: Printed, i: nat, nodes: nat, ranges: seq<AttachedRange>, l: Lists, options: HeaderOptions) returns (n: Lists)
    requires Good(u, options) && i <= |u.images| <= options.maxImages && ImagesFollow(u, i, l.images) && Bound(l.entries)
    requires |l.entries.items| + i + |ImageThings(u, i)| <= options.maxMetadata + |u.images|
    requires nodes + |ImageThings(u, i)| <= options.maxNodes && 3 <= options.maxDepth
    ensures Reads(u, ImageThings(u, i), ImageEvents(u, i), [Xisf], nodes, ranges, l, n, options)
    ensures ImagesFollow(u, |u.images|, n.images) && SameRoles(l.entries, n.entries)
    decreases |u.images| - i
  {
    hide StepTaken, RunFrom, Steady, SteadyDraft, GoodEntry, GoodImage, Element, Claims, NamesOf, NamesIn, Good;
    if i == |u.images| {
      n := l;
      ReadsNothing(u, [Xisf], nodes, ranges, l, options);
    } else {
      var first, rest := [TheImage(i)] + Children(u, Some(i), 0), ImageThings(u, i + 1);
      var events := Element(u.images[i], ChildEvents(u, Some(i), 0));
      var m := RunImage(u, i, nodes, ranges, l, options);
      n := RunImages(u, i + 1, nodes + |first|, ranges + Claims(u, first), m, options);
      hide Reads;
      assert first + rest == ImageThings(u, i);
      ReadsBoth(u, first, rest, events, ImageEvents(u, i + 1), [Xisf], nodes, ranges, l, m, n, options);
    }
  }

  // ---------------------------------------------------------------- running the metadata

  /** The mandatory entries and those of the whole unit. */
  lemma RunUnit(u: Printed, nodes: nat, ranges: seq<AttachedRange>, l: Lists, options: HeaderOptions) returns (n: Lists)
    requires Good(u, options) && l.images.stack == [] && Bound(l.entries) && RolesAreFree(l.entries)
    requires |l.entries.items| + |UnitThings(u)| <= options.maxMetadata && nodes + |UnitThings(u)| <= options.maxNodes
    requires 3 <= options.maxDepth
    ensures Reads(u, UnitThings(u), UnitEvents(u), [Xisf, Metadata], nodes, ranges, l, n, options)
    ensures n.images == l.images && n.entries.creationTime && n.entries.creatorApplication
  {
    hide StepTaken, RunFrom, Steady, SteadyDraft, GoodEntry, GoodImage, Element, Claims, NamesOf, NamesIn, EventsOf;
    var names, time, application, rest := [Xisf, Metadata], u.creationTime, u.creatorApplication, Children(u, None, 0);
    var m := ReadsOne(u, TheTime, time, CreationTime, names, nodes, ranges, l, options);
    var there := ranges + Claims(u, [TheTime]);
    var o := ReadsOne(u, TheApplication, application, CreatorApplication, names, nodes + 1, there, m, options);
    n := RunChildren(u, None, 0, names, nodes + 2, there + Claims(u, [TheApplication]), o, options);
    hide Reads, Good;
    ReadsBoth(u, [TheApplication], rest, EventsOf(application), ChildEvents(u, None, 0), names, nodes + 1, there, m, o, n, options);
    ReadsBoth(u, [TheTime], [TheApplication] + rest, EventsOf(time), EventsOf(application) + ChildEvents(u, None, 0), names, nodes, ranges,
              l, m, n, options);
  }

  predicate RolesAreFree(x: Entries) {
    !x.creationTime && !x.creatorApplication
  }

  lemma MetadataOpens(u: Printed, nodes: nat, l: Lists, options: HeaderOptions) returns (m: Lists)
    requires Good(u, options) && nodes < options.maxNodes && 3 <= options.maxDepth && l.entries.elements == 0
    ensures MayEnter(u.metadata, [Xisf], nodes, options) && NoneOpen(DraftOf(l).encoded) && RangesOf(u.metadata) == []
    ensures KindStarted([Xisf], u.metadata, DraftOf(l), options) == Some(DraftOf(m))
    ensures m == l.(entries := l.entries.(elements := 1))
    ensures forall n: Lists :: ElementEnded(Metadata, DraftOf(n), options) == Some(DraftOf(n))
  {
    hide ParseLocation, BadAttachment, GoodEntry, GoodImage;
    m := l.(entries := l.entries.(elements := 1));
  }

  /** A Metadata element around these events. */
  lemma MetadataReads(
    u: Printed, inner: seq<Event>, nodes: nat, ranges: seq<AttachedRange>, count: nat, now: seq<AttachedRange>, l: Lists, n: Lists,
    options: HeaderOptions)
    requires Good(u, options) && nodes < options.maxNodes && 3 <= options.maxDepth && l.entries.elements == 0
    requires RunFrom(Steady([Xisf, Metadata], nodes + 1, ranges, DraftOf(l.(entries := l.entries.(elements := 1)))), inner, options)
          == Some(Steady([Xisf, Metadata], count, now, DraftOf(n)))
    ensures RunFrom(Steady([Xisf], nodes, ranges, DraftOf(l)), Element(u.metadata, inner), options)
         == Some(Steady([Xisf], count, now, DraftOf(n)))
  {
    hide StepTaken, RunFrom, Steady, SteadyDraft, KindStarted, ElementEnded, Element, MayEnter, NoneOpen, RangesOf, GoodEntry, GoodImage;
    var m := MetadataOpens(u, nodes, l, options);
    assert u.metadata.name == Metadata;
    hide Good;
    assert [Xisf] + [Metadata] == [Xisf, Metadata] && ranges + [] == ranges;
    SteadyElement(u.metadata, inner, [Xisf], nodes, ranges, now, count, DraftOf(l), DraftOf(m), DraftOf(n), DraftOf(n), options);
  }

  /** The Metadata element of a printed header. */
  lemma RunMetadata(u: Printed, nodes: nat, ranges: seq<AttachedRange>, l: Lists, options: HeaderOptions) returns (n: Lists)
    requires Good(u, options) && l.images.stack == [] && Bound(l.entries) && RolesAreFree(l.entries) && l.entries.elements == 0
    requires |l.entries.items| + |UnitThings(u)| <= options.maxMetadata && nodes + 1 + |UnitThings(u)| <= options.maxNodes
    requires 3 <= options.maxDepth
    ensures Bound(n.entries) && n.entries.elements == 1 && n.entries.creationTime && n.entries.creatorApplication
    ensures n.images == l.images
    ensures NamesIn(n.entries.items) == NamesIn(l.entries.items) + NamesOf(u, UnitThings(u))
    ensures RunFrom(Steady([Xisf], nodes, ranges, DraftOf(l)), Element(u.metadata, UnitEvents(u)), options)
         == Some(Steady([Xisf], nodes + 1 + |UnitThings(u)|, ranges + Claims(u, UnitThings(u)), DraftOf(n)))
  {
    hide StepTaken, RunFrom, Steady, SteadyDraft, Element, NamesOf, Claims, UnitEvents, UnitThings, Good;
    var m := l.(entries := l.entries.(elements := 1));
    assert Bound(m.entries) by {
      assert forall k | 0 <= k < |l.entries.items| :: BoundAt(l.entries, k) ==> BoundAt(m.entries, k);
    }
    hide Bound, NamesIn;
    n := RunUnit(u, nodes + 1, ranges, m, options);
    MetadataReads(u, UnitEvents(u), nodes, ranges, nodes + 1 + |UnitThings(u)|, ranges + Claims(u, UnitThings(u)), l, n, options);
  }

  // ---------------------------------------------------------------- the whole header

  /** What has been read once the header is closed. */
  predicate AllRead(u: Printed, l: Lists) {
    && Bound(l.entries) && l.entries.elements == 1 && l.entries.creationTime && l.entries.creatorApplication
    && NamesIn(l.entries.items) == NamesOf(u, Things(u)) && ImagesFollow(u, |u.images|, l.images)
  }

  const Nothing: Lists := Lists(Images([], {}, [], [], []), Entries([], [], map[], [], None, 0, false, false))

  lemma RunInside(u: Printed, options: HeaderOptions) returns (n: Lists)
    requires Good(u, options) && HasRoom(u, options)
    ensures AllRead(u, n)
    ensures RunFrom(Steady([Xisf], 1, [], DraftOf(Nothing)), ImageEvents(u, 0) + Element(u.metadata, UnitEvents(u)), options)
         == Some(Steady([Xisf], 2 + |Things(u)|, Claims(u, Things(u)), DraftOf(n)))
  {
    hide StepTaken, RunFrom, Steady, SteadyDraft, Element, NamesOf, Claims, UnitEvents, ImageEvents, UnitThings, ImageThings, Good;
    var a, b := ImageThings(u, 0), UnitThings(u);
    var l := RunImages(u, 0, 1, [], Nothing, options);
    n := RunMetadata(u, 1 + |a|, [] + Claims(u, a), l, options);
    hide Bound;
    ClaimsJoin(u, a, b);
    NamesJoin(u, a, b);
    assert [] + Claims(u, a) + Claims(u, b) == Claims(u, Things(u));
    assert NamesIn([]) + NamesOf(u, a) + NamesOf(u, b) == NamesOf(u, Things(u));
    RunAppend(Steady([Xisf], 1, [], DraftOf(Nothing)), ImageEvents(u, 0), Element(u.metadata, UnitEvents(u)), options);
  }

  lemma RootCloses(nodes: nat, ranges: seq<AttachedRange>, l: Lists, options: HeaderOptions)
    ensures EndTaken(Steady([Xisf], nodes, ranges, DraftOf(l)), options)
         == Some(State(0, nodes, true, true, Stack([], []), Extensions([], 0, 0), ranges, DraftOf(l)))
  {
  }

  lemma NothingIsEmpty()
    ensures EmptyDraft() == DraftOf(Nothing)
  {
  }

  lemma RunHeader(u: Printed, options: HeaderOptions) returns (n: Lists)
    requires Good(u, options) && HasRoom(u, options)
    ensures AllRead(u, n)
    ensures RunOf(HeaderOf(u), options)
         == Some(State(0, 2 + |Things(u)|, true, true, Stack([], []), Extensions([], 0, 0), Claims(u, Things(u)), DraftOf(n)))
  {
    NothingIsEmpty();
    hide StepTaken, RunFrom, SteadyDraft, Element, Claims, UnitEvents, ImageEvents, Things, AllRead, StartTaken, EndTaken, EmptyDraft,
        RunOf;
    assert GoodTag(u.root, Xisf, options) && RangesOf(u.root) == [];
    n := RunInside(u, options);
    SteadyRoot(u.root, options);
    RootCloses(2 + |Things(u)|, Claims(u, Things(u)), n, options);
    hide Good, BadAttachment, DraftOf;
    RunElement(Beginning, u.root, ImageEvents(u, 0) + Element(u.metadata, UnitEvents(u)), Steady([Xisf], 1, [], DraftOf(Nothing)),
               Steady([Xisf], 2 + |Things(u)|, Claims(u, Things(u)), DraftOf(n)), options);
    RunIsRunFrom(HeaderOf(u), options);
  }

  // ---------------------------------------------------------------- the document

  /** With every entry bound by its own event, the names to check are those of the entries. */
  lemma {:induction false} NamesAreBound(x: Entries, k: nat)
    requires Bound(x) && k <= |x.items|
    ensures var bindings := BindingsOf(x.events[..k], x.uids);
            |bindings| == k && IndexesEntries(bindings, x) && PropertyNames(bindings, x) == NamesIn(x.items[..k])
  {
    if k > 0 {
      NamesAreBound(x, k - 1);
      assert BoundAt(x, k - 1);
      assert x.events[..k][..k - 1] == x.events[..k - 1] && x.items[..k][..k - 1] == x.items[..k - 1];
      var front, bindings := BindingsOf(x.events[..k - 1], x.uids), BindingsOf(x.events[..k], x.uids);
      assert bindings[..k - 1] == front;
    }
  }

  lemma {:induction false} NothingReferred(events: seq<MetadataEvent>, uids: map<string, nat>)
    requires forall k | 0 <= k < |events| :: events[k].Direct?
    ensures ReferenceBindings(events, uids) == [] && forall k | 0 <= k < |events| :: !Misplaced(events[k], uids)
    decreases |events|
  {
    if events != [] {
      NothingReferred(events[..|events| - 1], uids);
    }
  }

  /** Some more entries, which no event binds. */
  predicate Extends(x: Entries, y: Entries) {
    y == x.(items := y.items, blocks := y.blocks) && |x.items| <= |y.items| && y.items[..|x.items|] == x.items
  }

  lemma NothingRefused(x: Entries, y: Entries)
    requires Bound(x) && Extends(x, y)
    ensures forall k | 0 <= k < |y.events| :: y.events[k].Direct? && !Refused(y.events[k], y, map[])
  {
    forall k | 0 <= k < |y.events|
      ensures y.events[k].Direct? && !Refused(y.events[k], y, map[])
    {
      assert BoundAt(x, k) && y.items[..|x.items|][k] == y.items[k];
    }
  }

  lemma {:induction false} SameNames(bindings: seq<MetadataBinding>, x: Entries, y: Entries)
    requires IndexesEntries(bindings, x) && Extends(x, y)
    ensures IndexesEntries(bindings, y) && PropertyNames(bindings, y) == PropertyNames(bindings, x)
  {
    if bindings != [] {
      var b := bindings[|bindings| - 1];
      SameNames(bindings[..|bindings| - 1], x, y);
      assert y.items[..|x.items|][b.index] == y.items[b.index];
    }
  }

  lemma NamesToCheck(x: Entries, y: Entries)
    requires Bound(x) && Extends(x, y)
    ensures y.uids == map[] && IndexesEntries(BindingsOf(y.events, y.uids), y)
    ensures PropertyNames(BindingsOf(y.events, y.uids), y) == NamesIn(x.items)
  {
    NamesAreBound(x, |x.items|);
    assert x.events[..|x.items|] == x.events && x.items[..|x.items|] == x.items;
    hide PropertyNames, BindingsOf, NamesIn;
    SameNames(BindingsOf(y.events, y.uids), x, y);
  }

  lemma EntriesCompose(d: Draft, x: Entries, y: Entries, options: HeaderOptions)
    requires Bound(x) && NoDuplicates(NamesIn(x.items)) && Extends(x, y) && d == EmptyDraft().(images := d.images, metadata := y)
    ensures Composes(d, d.tables, options)
  {
    hide NoDuplicates, PropertyNames, BindingsOf, ReferenceBindings, Misplaced, Refused, Bound, Extends, NamesIn;
    var bindings := BindingsOf(y.events, y.uids);
    NothingRefused(x, y);
    NamesToCheck(x, y);
    NothingReferred(y.events, map[]);
    assert TableNames([], d.tables) == [] && PropertyNames(bindings, y) + [] == PropertyNames(bindings, y);
    assert DirectBindings([]) + ReferenceBindings(y.events, map[]) == [];
  }

  lemma EntriesFinish(images: Images, x: Entries, y: Entries, options: HeaderOptions, rules: ValueRules)
    requires Bound(x) && NoDuplicates(NamesIn(x.items)) && Extends(x, y)
    requires y.elements == 1 && y.creationTime && y.creatorApplication
    ensures Finishes(SteadyDraft(images, y), options, rules)
  {
    hide NoDuplicates, Composes, TableComplete, Bound, Extends, NamesIn;
    var d := SteadyDraft(images, y);
    EntriesCompose(d, x, y, options);
    assert Resolved(d.tables) == d.tables;
  }

  /** A header that the writer prints is accepted within the limits, if names and ranges are. */
  lemma PrintedIsAccepted(u: Printed, options: HeaderOptions, rules: ValueRules, headerEnd: int, fileSize: int)
    requires Good(u, options) && HasRoom(u, options)
    requires NoDuplicates(NamesOf(u, Things(u))) && Acceptable(Claims(u, Things(u)), headerEnd, fileSize)
    ensures Accepts(HeaderOf(u), options, rules, headerEnd, fileSize)
  {
    hide RunOf, Claims, NamesOf, Things, NoDuplicates, Acceptable, Finishes, HeaderOf, SteadyDraft, Good, HasRoom, Bound;
    var l := RunHeader(u, options);
    assert l.entries.items[..|l.entries.items|] == l.entries.items;
    EntriesFinish(l.images, l.entries, l.entries, options, rules);
  }
}
