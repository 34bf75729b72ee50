/**
 * The JSON payload of a generation record (src/store.cpp:191-226): the envelope around the document. It is
 * read back exactly when the measures of the document that the store model looks at are within the limits.
 */
module Payloads {
  import opened Identities
  import opened Ordering
  import opened JsonValues
  import opened JsonGrammar
  import opened JsonParsing
  import opened JsonDocuments
  import opened JsonPrinter
  import opened Utf8
  import Disk
  import Store
  import RecordFormat
  import Sha256

  // ----- what the limits look at ----------------------------------------------------------

  /** Depth, longest string or name, widest collection. */
  datatype Extent = Extent(depth: nat, longest: nat, widest: nat)

  function Join(a: Extent, b: Extent): Extent {
    Extent(Max(a.depth, b.depth), Max(a.longest, b.longest), Max(a.widest, b.widest))
  }

  function ExtentOf(v: Json): Extent {
    match v
    case Str(text) => Extent(0, |text|, 0)
    case Arr(items) => Join(Extent(0, 0, |items|), ItemsExtent(items))
    case Obj(members) => Join(Extent(0, 0, |members|), MembersExtent(members))
    case _ => Extent(0, 0, 0)
  }

  /** One level further out. */
  function Below(e: Extent): Extent { e.(depth := e.depth + 1) }

  function ItemsExtent(items: seq<Json>): Extent {
    if items == [] then Extent(0, 0, 0) else Join(Below(ExtentOf(items[0])), ItemsExtent(items[1..]))
  }

  function MembersExtent(members: seq<Member>): Extent {
    if members == [] then Extent(0, 0, 0)
    else Join(Join(Extent(0, |members[0].key|, 0), Below(ExtentOf(members[0].value))), MembersExtent(members[1..]))
  }

  predicate Within(e: Extent, depth: nat, limits: Limits) {
    depth + e.depth <= limits.maxDepth && e.longest <= limits.maxString && e.widest <= MAX_COLLECTION
  }

  lemma {:induction false} SmallIff(v: Json, depth: nat, limits: Limits)
    ensures Small(v, depth, limits) <==> Within(ExtentOf(v), depth, limits)
    decreases v
  {
    if depth <= limits.maxDepth {
      match v
      case Arr(items) => ItemsSmallIff(items, depth, limits);
      case Obj(members) =>
        MembersSmallIff(members, depth, limits);
        assert forall i :: 0 <= i < |members| ==>
          MemberSmall(members[i], depth + 1, limits) == (|members[i].key| <= limits.maxString && Small(members[i].value, depth + 1, limits));
      case _ =>
    }
  }

  lemma {:induction false} ItemsSmallIff(items: seq<Json>, depth: nat, limits: Limits)
    requires depth <= limits.maxDepth
    ensures (forall i :: 0 <= i < |items| ==> Small(items[i], depth + 1, limits)) <==> Within(ItemsExtent(items), depth, limits)
    decreases items
  {
    hide Small, ExtentOf;
    if items != [] {
      SmallIff(items[0], depth + 1, limits);
      ItemsSmallIff(items[1..], depth, limits);
      assert (forall i :: 0 <= i < |items| ==> Small(items[i], depth + 1, limits))
        <==> Small(items[0], depth + 1, limits) && (forall i :: 0 <= i < |items[1..]| ==> Small(items[1..][i], depth + 1, limits)) by {
        assert forall i :: 1 <= i < |items| ==> items[i] == items[1..][i - 1];
      }
    }
  }

  predicate MemberSmall(m: Member, depth: nat, limits: Limits) { |m.key| <= limits.maxString && Small(m.value, depth, limits) }

  lemma {:induction false} MembersSmallIff(members: seq<Member>, depth: nat, limits: Limits)
    requires depth <= limits.maxDepth
    ensures (forall i :: 0 <= i < |members| ==> MemberSmall(members[i], depth + 1, limits)) <==> Within(MembersExtent(members), depth, limits)
    decreases members
  {
    hide Small, ExtentOf;
    if members != [] {
      SmallIff(members[0].value, depth + 1, limits);
      MembersSmallIff(members[1..], depth, limits);
      assert (forall i :: 0 <= i < |members| ==> MemberSmall(members[i], depth + 1, limits))
        <==> MemberSmall(members[0], depth + 1, limits) && (forall i :: 0 <= i < |members[1..]| ==> MemberSmall(members[1..][i], depth + 1, limits)) by {
        assert forall i :: 1 <= i < |members| ==> members[i] == members[1..][i - 1];
      }
    }
  }

  /** The shape of a document; decodes says that the reader of documents gives it back from this JSON. */
  ghost function ShapeOf(document: Json, decodes: bool): Disk.Shape {
    var e := ExtentOf(document);
    Disk.Shape(|Dump(document, 0)|, Count(document), e.depth, e.longest, e.widest, Printable(document) && decodes)
  }

  // ----- compact text ----------------------------------------------------------------------------

  /** Without indentation the depth does not show. */
  lemma {:induction false} CompactAnywhere(v: Json, depth: nat)
    ensures TreeOf(v, 0, depth) == TreeOf(v, 0, 0)
    decreases v
  {
    match v
    case Arr(items) => CompactItems(items, depth);
    case Obj(members) => CompactFields(members, depth);
    case _ =>
  }

  lemma {:induction false} CompactItems(items: seq<Json>, depth: nat)
    ensures ItemTrees(items, 0, depth) == ItemTrees(items, 0, 0)
    decreases items
  {
    hide TreeOf;
    if items != [] {
      CompactAnywhere(items[0], depth + 1);
      CompactAnywhere(items[0], 1);
      CompactItems(items[1..], depth);
    }
  }

  lemma {:induction false} CompactFields(members: seq<Member>, depth: nat)
    ensures FieldTrees(members, 0, depth) == FieldTrees(members, 0, 0)
    decreases members
  {
    hide TreeOf, PiecesOf;
    if members != [] {
      CompactAnywhere(members[0].value, depth + 1);
      CompactAnywhere(members[0].value, 1);
      CompactFields(members[1..], depth);
    }
  }

  function Replaced(members: seq<Member>, i: nat, value: Json): seq<Member>
    requires i < |members|
  {
    members[i := Member(members[i].key, value)]
  }

  /** Putting another value in a member changes the length of the text by the difference of the two. */
  lemma {:induction false} LengthReplaced(members: seq<Member>, i: nat, value: Json)
    requires i < |members|
    ensures |FieldsText(FieldTrees(Replaced(members, i, value), 0, 0))| + |Dump(members[i].value, 0)|
      == |FieldsText(FieldTrees(members, 0, 0))| + |Dump(value, 0)|
    decreases |members|
  {
    hide TreeOf, PiecesOf, PiecesText, Text;
    var after := Replaced(members, i, value);
    CompactAnywhere(members[0].value, 1);
    CompactAnywhere(after[0].value, 1);
    assert FieldTrees(members, 0, 0)[1..] == FieldTrees(members[1..], 0, 0);
    assert FieldTrees(after, 0, 0)[1..] == FieldTrees(after[1..], 0, 0);
    if i == 0 {
      assert after[1..] == members[1..];
    } else {
      LengthReplaced(members[1..], i - 1, value);
      assert after[1..] == Replaced(members[1..], i - 1, value);
    }
  }

  lemma {:induction false} CountReplaced(members: seq<Member>, i: nat, value: Json)
    requires i < |members|
    ensures CountMembers(Replaced(members, i, value)) + Count(members[i].value) == CountMembers(members) + Count(value)
    decreases |members|
  {
    hide Count;
    var after := Replaced(members, i, value);
    if i == 0 {
      assert after[1..] == members[1..];
    } else {
      CountReplaced(members[1..], i - 1, value);
      assert after[1..] == Replaced(members[1..], i - 1, value);
    }
  }

  // ----- the envelope -------------------------------------------------------------------------------

  /** The texts of digests, incarnations and times. */
  datatype Texts = Texts(
    content: Disk.ContentDigest -> string, document: Disk.Doc -> string, lineage: Disk.LineageDigest -> string,
    head: Disk.HeadDigest -> string, incarnation: nat -> string, time: nat -> string)

  /** ASCII, and not longer than a string may be. */
  predicate Short(s: string) { Ascii(s) && |s| <= 4096 }

  ghost predicate Sound(t: Texts) {
    && (forall x :: Short(t.content(x))) && (forall x :: Short(t.document(x))) && (forall x :: Short(t.lineage(x)))
    && (forall x :: Short(t.head(x))) && (forall x :: Short(t.incarnation(x))) && (forall x :: Short(t.time(x)))
  }

  function ParentJson(t: Texts, parent: Option<Disk.Parent>): Json {
    match parent
    case None => Null
    case Some(p) =>
      Obj([Member("content_digest", Str(t.content(p.content))),
           Member("generation", Str(NatText(p.generation))),
           Member("head_digest", Str(t.head(p.head)))])
  }

  /** The members of the envelope, sorted, with nothing yet for the document. */
  function Frame(t: Texts, e: Disk.Envelope): (r: seq<Member>)
    ensures |r| == 13
  {
    [Member("committed_at", Str(t.time(e.committedAt))),
     Member("content_digest", Str(t.content(Disk.ContentHash(e.doc.content)))),
     Member("document", Null),
     Member("document_digest", Str(t.document(e.doc))),
     Member("domain", Str(e.domain)),
     Member("epoch", Str(NatText(e.epoch))),
     Member("format", Str("ifabric.generation")),
     Member("format_version", Int(1)),
     Member("generation", Str(NatText(e.generation))),
     Member("incarnation", Str(t.incarnation(e.incarnation))),
     Member("lineage_digest", Str(t.lineage(e.lineage))),
     Member("parent", ParentJson(t, e.parent)),
     Member("writer", Str(e.writer))]
  }

  function EnvelopeJson(t: Texts, e: Disk.Envelope, document: Json): Json { Obj(Replaced(Frame(t, e), 2, document)) }

  function Payload(t: Texts, e: Disk.Envelope, document: Json): string { Dump(EnvelopeJson(t, e, document), 0) }

  /** The bytes of the payload around its document. */
  function Room(t: Texts, e: Disk.Envelope): int { |Payload(t, e, Null)| - |Dump(Null, 0)| }

  /** What the types of the envelope's fields promise: short names, counters within their bounds. */
  predicate FieldsOk(e: Disk.Envelope) {
    && Short(e.domain) && Short(e.writer)
    && e.generation <= MAX_GENERATION + 1 && e.epoch <= MAX_EPOCH
    && (e.parent.Some? ==> e.parent.value.generation <= MAX_GENERATION)
  }

  lemma CountersShort(n: nat)
    requires n <= MAX_GENERATION + 1
    ensures Short(NatText(n))
  {
    assert Power10(6) == 1000000;
    assert Power10(12) == 1000000000000;
    assert Power10(18) == 1000000000000000000;
    NatTextShort(n, 18);
    NatTextIsAscii(n);
  }

  // ----- the members of the envelope are in order ------------------------------------------------------

  lemma {:induction false} FirstDifference(a: string, b: string, i: nat)
    requires i < |a| && i < |b| && a[..i] == b[..i] && a[i] < b[i]
    ensures StrLt(a, b)
  {
    if i > 0 {
      assert a[0] == a[..i][0] == b[..i][0] == b[0];
      assert a[1..][..i - 1] == a[..i][1..] == b[..i][1..] == b[1..][..i - 1];
      FirstDifference(a[1..], b[1..], i - 1);
    }
  }

  lemma {:induction false} PrefixFirst(a: string, b: string)
    requires |a| < |b| && b[..|a|] == a
    ensures StrLt(a, b)
  {
    if a != "" {
      assert a[0] == b[..|a|][0] == b[0];
      assert b[1..][..|a| - 1] == b[..|a|][1..] == a[1..];
      PrefixFirst(a[1..], b[1..]);
    }
  }

  /** Neighbours in order are enough. */
  lemma {:induction false} Neighbours(keys: seq<string>)
    requires forall i :: 0 < i < |keys| ==> StrLt(keys[i - 1], keys[i])
    ensures StrictlySorted(StrLe, keys)
  {
    StrLeIsTotalOrder();
    hide StrLe;
    forall i, j | 0 <= i < j < |keys|
      ensures StrLe(keys[i], keys[j]) && keys[i] != keys[j]
    {
      Climb(keys, i, j);
    }
  }

  lemma {:induction false} Climb(keys: seq<string>, i: nat, j: nat)
    requires TotalOrder(StrLe) && i < j < |keys|
    requires forall i :: 0 < i < |keys| ==> StrLt(keys[i - 1], keys[i])
    ensures StrLt(keys[i], keys[j])
  {
    hide StrLe;
    assert StrLt(keys[j - 1], keys[j]);
    if i < j - 1 {
      Climb(keys, i, j - 1);
    }
  }

  lemma ParentKeysSorted(a: Json, b: Json, c: Json)
    ensures StrictlySorted(StrLe, Keys([Member("content_digest", a), Member("generation", b), Member("head_digest", c)]))
  {
    hide StrLe;
    var keys := Keys([Member("content_digest", a), Member("generation", b), Member("head_digest", c)]);
    FirstDifference(keys[0], keys[1], 0);
    FirstDifference(keys[1], keys[2], 0);
    Neighbours(keys);
  }

  lemma EnvelopeKeysSorted(t: Texts, e: Disk.Envelope)
    ensures StrictlySorted(StrLe, Keys(Frame(t, e)))
  {
    hide StrLe;
    var keys := Keys(Frame(t, e));
    FirstDifference("committed_at", "content_digest", 2);
    FirstDifference("content_digest", "document", 0);
    PrefixFirst("document", "document_digest");
    FirstDifference("document_digest", "domain", 2);
    FirstDifference("domain", "epoch", 0);
    FirstDifference("epoch", "format", 0);
    PrefixFirst("format", "format_version");
    FirstDifference("format_version", "generation", 0);
    FirstDifference("generation", "incarnation", 0);
    FirstDifference("incarnation", "lineage_digest", 0);
    FirstDifference("lineage_digest", "parent", 0);
    FirstDifference("parent", "writer", 0);
    forall i | 0 < i < |keys|
      ensures StrLt(keys[i - 1], keys[i])
    {
      hide StrLt;
    }
    Neighbours(keys);
  }

  // ----- everything but the document is within the limits ------------------------------------------------

  lemma StrFine(s: string, depth: nat)
    requires Short(s) && depth <= 64
    ensures Fine(Str(s), depth, DEFAULT_LIMITS) && Count(Str(s)) == 1
  {
    hide ValidUtf8;
    AsciiIsValid(s);
  }

  predicate ParentShort(t: Texts, parent: Option<Disk.Parent>) {
    parent.Some? ==>
      Short(t.content(parent.value.content)) && Short(t.head(parent.value.head)) && Short(NatText(parent.value.generation))
  }

  lemma ParentFine(t: Texts, parent: Option<Disk.Parent>)
    requires ParentShort(t, parent)
    ensures Fine(ParentJson(t, parent), 1, DEFAULT_LIMITS)
    ensures Count(ParentJson(t, parent)) == if parent.Some? then 4 else 1
  {
    hide StrLe, ValidUtf8, NatText, Short;
    if parent.Some? {
      var p := parent.value;
      var a, b, c := Str(t.content(p.content)), Str(NatText(p.generation)), Str(t.head(p.head));
      StrFine(t.content(p.content), 2);
      StrFine(NatText(p.generation), 2);
      StrFine(t.head(p.head), 2);
      ThreeFine(a, b, c);
    }
  }

  lemma ThreeFine(a: Json, b: Json, c: Json)
    requires Fine(a, 2, DEFAULT_LIMITS) && Fine(b, 2, DEFAULT_LIMITS) && Fine(c, 2, DEFAULT_LIMITS)
    requires Count(a) == 1 && Count(b) == 1 && Count(c) == 1
    ensures var v := Obj([Member("content_digest", a), Member("generation", b), Member("head_digest", c)]);
      Fine(v, 1, DEFAULT_LIMITS) && Count(v) == 4
  {
    hide Fine, Count, StrLe, ValidUtf8;
    var members := [Member("content_digest", a), Member("generation", b), Member("head_digest", c)];
    ParentKeysSorted(a, b, c);
    ParentKeysShort();
    ObjectFine(members, 1);
    AllOnes(members);
    CountObject(members);
  }

  lemma ParentKeysShort()
    ensures ValidUtf8("content_digest") && ValidUtf8("generation") && ValidUtf8("head_digest")
  {
    hide ValidUtf8;
    AsciiIsValid("content_digest");
    AsciiIsValid("generation");
    AsciiIsValid("head_digest");
  }

  lemma CountObject(members: seq<Member>)
    ensures Count(Obj(members)) == 1 + CountMembers(members)
  {
  }

  lemma {:induction false} AllOnes(members: seq<Member>)
    requires forall i :: 0 <= i < |members| ==> Count(members[i].value) == 1
    ensures CountMembers(members) == |members|
  {
    hide Count;
    if members != [] {
      AllOnes(members[1..]);
    }
  }

  /** A member that is in order whatever the document is. */
  ghost predicate MemberFine(m: Member) {
    ValidUtf8(m.key) && |m.key| <= 4096 && Fine(m.value, 1, DEFAULT_LIMITS)
  }

  lemma StrMember(key: string, s: string)
    requires Short(key) && Short(s)
    ensures MemberFine(Member(key, Str(s))) && Count(Str(s)) == 1
  {
    hide ValidUtf8, Fine;
    AsciiIsValid(key);
    StrFine(s, 1);
  }

  lemma FrameFine(t: Texts, e: Disk.Envelope, i: nat)
    requires Sound(t) && FieldsOk(e) && i < 13
    ensures ValidUtf8(Frame(t, e)[i].key) && |Frame(t, e)[i].key| <= 4096
    ensures i != 2 ==> MemberFine(Frame(t, e)[i])
    ensures i != 11 ==> Count(Frame(t, e)[i].value) == 1
    ensures i == 11 ==> Count(Frame(t, e)[i].value) == if e.parent.Some? then 4 else 1
  {
    hide ValidUtf8, Fine, NatText, Short;
    var m := Frame(t, e)[i];
    assert Short(m.key) by { KeysShort(t, e, i); }
    AsciiIsValid(m.key) by { ShortIs(m.key); }
    if i == 2 {
    } else if i == 7 {
      OneFine();
    } else if i == 11 {
      if e.parent.Some? { CountersShort(e.parent.value.generation); }
      ParentFine(t, e.parent);
    } else {
      CountersShort(e.generation);
      CountersShort(e.epoch);
      assert Short("ifabric.generation") by { FormatShort(); }
      StrMember(m.key, m.value.text);
    }
    assert |m.key| <= 4096 by { ShortIs(m.key); }
  }

  lemma KeysShort(t: Texts, e: Disk.Envelope, i: nat)
    requires i < 13
    ensures Short(Frame(t, e)[i].key)
  {
  }

  lemma FormatShort()
    ensures Short("ifabric.generation")
  {
  }

  lemma ShortIs(s: string)
    requires Short(s)
    ensures Ascii(s) && |s| <= 4096
  {
  }

  lemma OneFine()
    ensures Fine(Int(1), 1, DEFAULT_LIMITS)
  {
  }

  lemma FrameCount(t: Texts, e: Disk.Envelope)
    requires Sound(t) && FieldsOk(e)
    ensures CountMembers(Frame(t, e)) == Store.EnvelopeValues(e)
  {
    hide Count, Frame, Sound, FieldsOk;
    var frame := Frame(t, e);
    var leaves := Replaced(frame, 11, Null);
    assert Count(Null) == 1 by { CountNull(); }
    forall i | 0 <= i < 13
      ensures Count(leaves[i].value) == 1
    {
      FrameFine(t, e, i);
    }
    AllOnes(leaves);
    FrameFine(t, e, 11);
    CountReplaced(frame, 11, Null);
  }

  lemma CountNull()
    ensures Count(Null) == 1
  {
  }

  // ----- main results -----------------------------------------------------------------------------------

  lemma EnvelopeFine(t: Texts, e: Disk.Envelope, document: Json)
    requires Sound(t) && FieldsOk(e)
    ensures Fine(EnvelopeJson(t, e, document), 0, DEFAULT_LIMITS) <==> Fine(document, 1, DEFAULT_LIMITS)
  {
    hide StrLe, ValidUtf8, Sound, FieldsOk, Frame;
    var frame := Frame(t, e);
    var members := Replaced(frame, 2, document);
    EnvelopeKeysSorted(t, e);
    KeysReplaced(frame, 2, document);
    forall i | 0 <= i < 13
      ensures ValidUtf8(members[i].key) && |members[i].key| <= 4096
      ensures i != 2 ==> Fine(members[i].value, 1, DEFAULT_LIMITS)
    {
      FrameFine(t, e, i);
    }
    ObjectFine(members, 0);
    assert members[2].value == document;
  }

  lemma KeysReplaced(members: seq<Member>, i: nat, value: Json)
    requires i < |members|
    ensures Keys(Replaced(members, i, value)) == Keys(members)
  {
  }

  lemma ObjectFine(members: seq<Member>, depth: nat)
    requires depth <= DEFAULT_LIMITS.maxDepth && StrictlySorted(StrLe, Keys(members)) && |members| <= MAX_COLLECTION
    requires forall i :: 0 <= i < |members| ==> ValidUtf8(members[i].key) && |members[i].key| <= 4096
    ensures Fine(Obj(members), depth, DEFAULT_LIMITS)
      <==> forall i :: 0 <= i < |members| ==> Fine(members[i].value, depth + 1, DEFAULT_LIMITS)
  {
    hide StrLe, ValidUtf8;
  }

  lemma EnvelopeCounts(t: Texts, e: Disk.Envelope, document: Json)
    requires Sound(t) && FieldsOk(e)
    ensures Count(EnvelopeJson(t, e, document)) == Store.EnvelopeValues(e) + Count(document)
    ensures |Payload(t, e, document)| == Room(t, e) + |Dump(document, 0)|
  {
    hide Count, Frame, Sound, FieldsOk, FieldsText, FieldTrees, CountMembers;
    var frame := Frame(t, e);
    FrameFine(t, e, 2);
    FrameCount(t, e);
    CountReplaced(frame, 2, document);
    CountObject(Replaced(frame, 2, document));
    LengthReplaced(frame, 2, document);
    LengthReplaced(frame, 2, Null);
  }

  /**
   * Main result. The payload of a record is parsed back to its envelope, within the bound on records, and
   * its document decoded, exactly when the store model calls the record readable.
   */
  lemma PayloadReadsIff(t: Texts, e: Disk.Envelope, document: Json, decodes: bool)
    requires Sound(t) && FieldsOk(e)
    requires e.doc.shape == ShapeOf(document, decodes) && e.room == Room(t, e)
    ensures Parse(Payload(t, e, document), DEFAULT_LIMITS) == Ok(EnvelopeJson(t, e, document), "")
            && |Payload(t, e, document)| <= Disk.MAX_RECORD_BYTES && decodes
      <==> Store.Readable(e)
  {
    hide Sound, FieldsOk, EnvelopeJson, Parse, WellFormed, StringsValid, NumbersFit, Small, Dump, Count, ExtentOf;
    RoundTripIff(EnvelopeJson(t, e, document), 0, DEFAULT_LIMITS);
    EnvelopeFine(t, e, document);
    EnvelopeCounts(t, e, document);
    SmallIff(document, 1, DEFAULT_LIMITS);
  }

  // ----- the whole file -------------------------------------------------------------------------------------

  /** Every char stands for a byte. */
  predicate Bytewise(s: string) { forall i :: 0 <= i < |s| ==> s[i] as int < 256 }

  function ToBytes(s: string): (b: RecordFormat.Bytes)
    requires Bytewise(s)
    ensures |b| == |s| && forall i :: 0 <= i < |s| ==> b[i] as int == s[i] as int
  {
    seq(|s|, i requires 0 <= i < |s| => (s[i] as int) as Sha256.Byte)
  }

  function FromBytes(b: RecordFormat.Bytes): (s: string)
    ensures |s| == |b| && forall i :: 0 <= i < |b| ==> s[i] as int == b[i] as int
  {
    seq(|b|, i requires 0 <= i < |b| => (b[i] as int) as char)
  }

  lemma BytesReturn(s: string)
    requires Bytewise(s)
    ensures FromBytes(ToBytes(s)) == s
  {
  }

  lemma NothingLeft(text: string)
    ensures Parse(text, DEFAULT_LIMITS).Ok? ==> Parse(text, DEFAULT_LIMITS).rest == ""
  {
    hide ValidUtf8, ParseValue;
  }

  /** Reading a record file: the checks of the frame, then the parser. */
  ghost function ReadFile(c: RecordFormat.Checks, raw: RecordFormat.Bytes): Option<(nat, RecordFormat.Bytes, Json)> {
    match RecordFormat.Decode(c, raw)
    case Failure(_) => None
    case Success(f) =>
      match Parse(FromBytes(f.payload), DEFAULT_LIMITS)
      case Err(_) => None
      case Ok(v, _) => Some((f.generation, f.head, v))
  }

  /** A record file as a commit writes it is read back, and its document decoded, exactly when it is readable. */
  lemma FileReadsIff(c: RecordFormat.Checks, t: Texts, e: Disk.Envelope, head: RecordFormat.Bytes, document: Json, decodes: bool)
    requires RecordFormat.Sound(c) && Sound(t) && FieldsOk(e) && |head| == 32 && Bytewise(Payload(t, e, document))
    requires e.doc.shape == ShapeOf(document, decodes) && e.room == Room(t, e)
    ensures var raw := RecordFormat.Encode(c, RecordFormat.Written(e.generation, head, ToBytes(Payload(t, e, document))));
      ReadFile(c, raw) == Some((e.generation, head, EnvelopeJson(t, e, document))) && decodes <==> Store.Readable(e)
  {
    hide Sound, EnvelopeJson, Parse, ShapeOf, Store.Readable, Room, RecordFormat.Encode, RecordFormat.Decode, Payload, Sha256.Power256;
    var payload := Payload(t, e, document);
    var f := RecordFormat.Written(e.generation, head, ToBytes(payload));
    PayloadReadsIff(t, e, document, decodes);
    BytesReturn(payload);
    NothingLeft(payload);
    RecordFormat.Sizes();
    RecordFormat.ReadableIff(c, f);
    if |payload| > Disk.MAX_RECORD_BYTES {
      RecordFormat.OversizedFails(c, f);
    }
  }
}
