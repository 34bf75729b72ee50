/**
 * Normalization of a document (src/canonical.cpp:13-296). A declaration is an identity and named fields;
 * which fields are trimmed, which are sets and which decide between equal identities is tabulated by kind.
 */
module Canonical {
  import opened Ordering
  import opened Identities
  import opened JsonValues
  import opened JsonGrammar
  import opened JsonPrinter

  datatype Kind =
    | Fabric | Site | Pod | Rack | Device | Port | Link | Capability | ServiceClassDecl
    | RoutingPolicy | CapacityPolicy | AdminPolicy | RedundancyPolicy | MaintenancePolicy | IsolationPolicy
    | Tenant | Workload | Intent

  /** A field: a text, a set of names or of enumeration values kept as a list, or anything else. */
  datatype Value = Text(text: string) | Names(names: seq<string>) | Ranks(ranks: seq<nat>) | Other(json: Json)

  datatype Decl = Decl(kind: Kind, id: string, fields: map<string, Value>)

  datatype Features = Features(required: seq<string>, optional: seq<string>)

  /** The collections of a document, by name, with its feature lists and the provenance description. */
  datatype Document = Document(collections: map<string, seq<Decl>>, features: Features, provenance: string)

  // ----- which fields are normalized, and how ---------------------------------------

  function TrimmedFields(kind: Kind): set<string> {
    match kind
    case Fabric => {"display_name", "description"}
    case Site => {"display_name", "region", "description"}
    case Pod => {"display_name", "description"}
    case Rack => {"description"}
    case Device => {"model", "description"}
    case Port => {"media", "description"}
    case Link => {"description"}
    case Capability => {"model"}
    case ServiceClassDecl => {"display_name", "description"}
    case AdminPolicy => {"reason", "description"}
    case RoutingPolicy => {"description"}
    case CapacityPolicy => {"description"}
    case RedundancyPolicy => {"description"}
    case MaintenancePolicy => {"description"}
    case IsolationPolicy => {"description"}
    case Tenant => {"display_name", "description"}
    case Workload => {"description"}
    case Intent => {"property", "description"}
  }

  function SetFields(kind: Kind): set<string> {
    match kind
    case Device => {"service_classes"}
    case Port => {"service_classes"}
    case Link => {"service_classes"}
    case Capability => {"capabilities", "supported_roles"}
    case ServiceClassDecl => {"required_capabilities"}
    case RoutingPolicy => {"match_service_classes", "match_tenants"}
    case CapacityPolicy => {"service_classes"}
    case RedundancyPolicy => {"service_classes"}
    case MaintenancePolicy => {"upgrade_groups", "allowed_impact"}
    case IsolationPolicy => {"exclusive_scopes"}
    case Workload => {"placement", "allowed_sites"}
    case _ => {}
  }

  /** The fields that the tie-break between equal identities serializes. */
  function TieFields(kind: Kind): seq<string> {
    match kind
    case Fabric => ["display_name", "description"]
    case Site => ["fabric", "display_name", "region", "description"]
    case Pod => ["site", "display_name", "description"]
    case Rack => ["pod", "position", "description"]
    case Device => ["site", "pod", "rack", "role", "model", "admin", "declared_port_count", "service_classes", "meta", "description"]
    case Port => ["device", "index", "role", "admin", "speed_bps", "media", "service_classes", "description"]
    case Link => ["endpoint_a", "endpoint_b", "kind", "capacity_bps", "admin", "service_classes", "description"]
    case Capability => ["model", "capabilities"]
    case ServiceClassDecl => ["display_name", "priority"]
    case Tenant => ["isolation_id"]
    case Workload => ["tenant", "service_class"]
    case Intent => ["subject", "property", "desired"]
    case _ => ["kind"]
  }

  // ----- fields -------------------------------------------------------------------------

  predicate IsSpace(c: char) {
    c == ' ' || c == '\t' || c == '\n' || c == '\r' || c == '\U{000C}' || c == '\U{000B}'
  }

  function DropLeft(s: string): string { if s != "" && IsSpace(s[0]) then DropLeft(s[1..]) else s }

  function DropRight(s: string): string {
    if s != "" && IsSpace(s[|s| - 1]) then DropRight(s[..|s| - 1]) else s
  }

  /** The text without the blanks at its ends. */
  function Trim(s: string): string { DropRight(DropLeft(s)) }

  function NameSet(names: seq<string>): seq<string> { Unique(Sort(StrLe, names)) }

  function RankSet(ranks: seq<nat>): seq<nat> { Unique<nat>(Sort<nat>(NatLe, ranks)) }

  function NormField(kind: Kind, name: string, v: Value): Value {
    match v
    case Text(s) => if name in TrimmedFields(kind) then Text(Trim(s)) else v
    case Names(names) => if name in SetFields(kind) then Names(NameSet(names)) else v
    case Ranks(ranks) => if name in SetFields(kind) then Ranks(RankSet(ranks)) else v
    case Other(_) => v
  }

  function NormDecl(d: Decl): Decl {
    d.(fields := map name | name in d.fields :: NormField(d.kind, name, d.fields[name]))
  }

  // ----- order -----------------------------------------------------------------------------

  /** What a collection is sorted by: the identity, or the model of a catalog entry. */
  function Key(d: Decl): string {
    if d.kind == Capability then
      if "model" in d.fields && d.fields["model"].Text? then d.fields["model"].text else ""
    else d.id
  }

  function StringItems(names: seq<string>): (r: seq<Json>)
    ensures |r| == |names|
  {
    seq(|names|, i requires 0 <= i < |names| => Str(names[i]))
  }

  function RankItems(ranks: seq<nat>): (r: seq<Json>)
    ensures |r| == |ranks|
  {
    seq(|ranks|, i requires 0 <= i < |ranks| => Int(ranks[i]))
  }

  function ToJson(v: Value): Json {
    match v
    case Text(s) => Str(s)
    case Names(names) => Arr(StringItems(names))
    case Ranks(ranks) => Arr(RankItems(ranks))
    case Other(json) => json
  }

  function TieMembers(d: Decl, names: seq<string>): seq<Member> {
    if names == [] then if d.kind == Capability then [] else [Member("id", Str(d.id))]
    else
      var rest := TieMembers(d, names[1..]);
      if names[0] in d.fields then Inserted(rest, names[0], ToJson(d.fields[names[0]])) else rest
  }

  /** The text that decides between equal keys. */
  function Tie(d: Decl): string { Dump(Obj(TieMembers(d, TieFields(d.kind))), 0) }

  /** By key; declarations with one key by their tie-break text. */
  predicate DeclLe(a: Decl, b: Decl) {
    if Key(a) != Key(b) then StrLe(Key(a), Key(b)) else StrLe(Tie(a), Tie(b))
  }

  // ----- documents ----------------------------------------------------------------------------

  function NormDecls(ds: seq<Decl>): (r: seq<Decl>)
    ensures |r| == |ds| && forall i :: 0 <= i < |r| ==> r[i] == NormDecl(ds[i])
  {
    seq(|ds|, i requires 0 <= i < |ds| => NormDecl(ds[i]))
  }

  function NormCollection(ds: seq<Decl>): seq<Decl> { Sort(DeclLe, NormDecls(ds)) }

  function Trimmed(items: seq<string>): (r: seq<string>)
    ensures |r| == |items| && forall i :: 0 <= i < |r| ==> r[i] == Trim(items[i])
  {
    seq(|items|, i requires 0 <= i < |items| => Trim(items[i]))
  }

  function NormFeatures(items: seq<string>): seq<string> { NameSet(Trimmed(items)) }

  function Normalized(doc: Document): Document {
    Document(
      map name | name in doc.collections :: NormCollection(doc.collections[name]),
      Features(NormFeatures(doc.features.required), NormFeatures(doc.features.optional)),
      Trim(doc.provenance))
  }

  // ----- trimming and sets are idempotent -------------------------------------------------------

  predicate NoSpaceLeft(s: string) { s == "" || !IsSpace(s[0]) }
  predicate NoSpaceRight(s: string) { s == "" || !IsSpace(s[|s| - 1]) }

  lemma {:induction false} DropLeftDone(s: string)
    ensures NoSpaceLeft(DropLeft(s))
  {
    if s != "" && IsSpace(s[0]) {
      DropLeftDone(s[1..]);
    }
  }

  lemma {:induction false} DropRightDone(s: string)
    ensures NoSpaceRight(DropRight(s)) && (NoSpaceLeft(s) ==> NoSpaceLeft(DropRight(s)))
  {
    if s != "" && IsSpace(s[|s| - 1]) {
      DropRightDone(s[..|s| - 1]);
    }
  }

  predicate Blank(s: string) { forall i :: 0 <= i < |s| ==> IsSpace(s[i]) }

  /** m is s without the blanks at its ends, and nothing else is gone. */
  ghost predicate TrimsTo(s: string, m: string) {
    NoSpaceLeft(m) && NoSpaceRight(m) && exists l, r :: Blank(l) && Blank(r) && s == l + m + r
  }

  lemma {:induction false} DropLeftIs(l: string, t: string)
    requires Blank(l) && NoSpaceLeft(t)
    ensures DropLeft(l + t) == t
  {
    if l == "" {
      assert l + t == t;
    } else {
      assert (l + t)[1..] == l[1..] + t;
      DropLeftIs(l[1..], t);
    }
  }

  lemma {:induction false} DropRightIs(t: string, r: string)
    requires Blank(r) && NoSpaceRight(t)
    ensures DropRight(t + r) == t
  {
    if r == "" {
      assert t + r == t;
    } else {
      assert (t + r)[..|t + r| - 1] == t + r[..|r| - 1];
      DropRightIs(t, r[..|r| - 1]);
    }
  }

  lemma {:induction false} DroppedLeft(s: string) returns (l: string)
    ensures Blank(l) && s == l + DropLeft(s)
  {
    l := "";
    if s != "" && IsSpace(s[0]) {
      var rest := DroppedLeft(s[1..]);
      l := [s[0]] + rest;
      assert s == [s[0]] + s[1..];
    }
  }

  lemma {:induction false} DroppedRight(s: string) returns (r: string)
    ensures Blank(r) && s == DropRight(s) + r
  {
    r := "";
    if s != "" && IsSpace(s[|s| - 1]) {
      var rest := DroppedRight(s[..|s| - 1]);
      r := rest + [s[|s| - 1]];
      assert s == s[..|s| - 1] + [s[|s| - 1]];
    }
  }

  /** Trimming a text that is blanks, then m, then blanks gives m. */
  lemma TrimPadded(l: string, m: string, r: string)
    requires Blank(l) && Blank(r) && NoSpaceLeft(m) && NoSpaceRight(m)
    ensures Trim(l + m + r) == m
  {
    hide DropLeft, DropRight;
    if m == "" {
      assert l + m + r == (l + r) + m;
      DropLeftIs(l + r, m);
      assert m + "" == m;
      DropRightIs(m, "");
    } else {
      assert l + m + r == l + (m + r);
      DropLeftIs(l, m + r);
      DropRightIs(m, r);
    }
  }

  /** Trimming removes the blanks at both ends and nothing else. */
  lemma TrimIff(s: string, m: string)
    ensures Trim(s) == m <==> TrimsTo(s, m)
  {
    hide DropLeft, DropRight, Blank;
    DropLeftDone(s);
    DropRightDone(DropLeft(s));
    var l := DroppedLeft(s);
    var r := DroppedRight(DropLeft(s));
    assert s == l + Trim(s) + r;
    if TrimsTo(s, m) {
      var before, after :| Blank(before) && Blank(after) && s == before + m + after;
      TrimPadded(before, m, after);
    }
  }

  lemma TrimTwice(s: string)
    ensures Trim(Trim(s)) == Trim(s)
  {
    DropLeftDone(s);
    DropRightDone(DropLeft(s));
  }

  lemma {:induction false} SameMembersSameSet(x: seq<string>, y: seq<string>)
    ensures NameSet(x) == NameSet(y) <==> forall n :: n in x <==> n in y
  {
    hide StrLe;
    StrLeIsTotalOrder();
    SortUnique(StrLe, x);
    SortUnique(StrLe, y);
    if forall n :: n in x <==> n in y {
      StrictlySortedUnique(StrLe, NameSet(x), NameSet(y));
    }
    if NameSet(x) == NameSet(y) {
      forall n
        ensures n in x <==> n in y
      {
        assert n in NameSet(x) <==> n in x;
        assert n in NameSet(y) <==> n in y;
      }
    }
  }

  lemma NameSetTwice(x: seq<string>)
    ensures NameSet(NameSet(x)) == NameSet(x)
  {
    hide StrLe;
    StrLeIsTotalOrder();
    SortUnique(StrLe, x);
    SameMembersSameSet(NameSet(x), x);
  }

  lemma SameMembersSameRanks(x: seq<nat>, y: seq<nat>)
    ensures RankSet(x) == RankSet(y) <==> forall n: nat :: n in x <==> n in y
  {
    NatLeIsTotalOrder();
    SortUnique<nat>(NatLe, x);
    SortUnique<nat>(NatLe, y);
    if forall n: nat :: n in x <==> n in y {
      StrictlySortedUnique<nat>(NatLe, RankSet(x), RankSet(y));
    }
    if RankSet(x) == RankSet(y) {
      forall n: nat
        ensures n in x <==> n in y
      {
        assert n in RankSet(x) <==> n in x;
        assert n in RankSet(y) <==> n in y;
      }
    }
  }

  lemma RankSetTwice(x: seq<nat>)
    ensures RankSet(RankSet(x)) == RankSet(x)
  {
    NatLeIsTotalOrder();
    SortUnique<nat>(NatLe, x);
    SameMembersSameRanks(RankSet(x), x);
  }

  lemma FieldTwice(kind: Kind, name: string, v: Value)
    ensures NormField(kind, name, NormField(kind, name, v)) == NormField(kind, name, v)
  {
    hide Trim, NameSet, RankSet, TrimmedFields, SetFields;
    match v
    case Text(s) => TrimTwice(s);
    case Names(names) => NameSetTwice(names);
    case Ranks(ranks) => RankSetTwice(ranks);
    case Other(_) =>
  }

  lemma DeclTwice(d: Decl)
    ensures NormDecl(NormDecl(d)) == NormDecl(d)
  {
    hide NormField;
    forall name | name in d.fields
      ensures NormDecl(NormDecl(d)).fields[name] == NormDecl(d).fields[name]
    {
      FieldTwice(d.kind, name, d.fields[name]);
    }
    assert NormDecl(NormDecl(d)).fields == NormDecl(d).fields;
  }

  // ----- normalizing twice -------------------------------------------------------------------------

  lemma DeclLeIsPreorder()
    ensures TotalPreorder(DeclLe)
  {
    StrLeIsTotalOrder();
    hide StrLe, Key, Tie;
    forall a, b
      ensures DeclLe(a, b) || DeclLe(b, a)
    {
      assert StrLe(Key(a), Key(b)) || StrLe(Key(b), Key(a));
      assert StrLe(Tie(a), Tie(b)) || StrLe(Tie(b), Tie(a));
    }
    forall a, b, c | DeclLe(a, b) && DeclLe(b, c)
      ensures DeclLe(a, c)
    {
      DeclLeTransitive(a, b, c);
    }
  }

  lemma DeclLeTransitive(a: Decl, b: Decl, c: Decl)
    requires DeclLe(a, b) && DeclLe(b, c)
    ensures DeclLe(a, c)
  {
    StrLeIsTotalOrder();
    hide StrLe, Key, Tie;
    if Key(a) == Key(b) == Key(c) {
      assert StrLe(Tie(a), Tie(b)) && StrLe(Tie(b), Tie(c));
    } else if Key(a) != Key(b) && Key(b) != Key(c) {
      assert StrLe(Key(a), Key(b)) && StrLe(Key(b), Key(c));
    }
  }

  ghost predicate AllNormal(ds: seq<Decl>) { forall d :: d in ds ==> NormDecl(d) == d }

  lemma CollectionTwice(ds: seq<Decl>)
    ensures NormCollection(NormCollection(ds)) == NormCollection(ds)
  {
    hide DeclLe, NormDecl;
    var r := NormCollection(ds);
    DeclLeIsPreorder();
    SortSorts(DeclLe, NormDecls(ds));
    MultisetMembers(r, NormDecls(ds));
    forall d | d in r
      ensures NormDecl(d) == d
    {
      assert d in NormDecls(ds);
      var i :| 0 <= i < |ds| && NormDecls(ds)[i] == d;
      DeclTwice(ds[i]);
    }
    assert forall i :: 0 <= i < |r| ==> r[i] in r;
    assert NormDecls(r) == r;
    SortKeepsSorted(DeclLe, r);
  }

  lemma FeaturesTwice(items: seq<string>)
    ensures NormFeatures(NormFeatures(items)) == NormFeatures(items)
  {
    hide StrLe, Trim;
    StrLeIsTotalOrder();
    var r := NormFeatures(items);
    SortUnique(StrLe, Trimmed(items));
    forall i | 0 <= i < |r|
      ensures Trim(r[i]) == r[i]
    {
      assert r[i] in r;
      var k :| 0 <= k < |items| && Trimmed(items)[k] == r[i];
      TrimTwice(items[k]);
    }
    assert Trimmed(r) == r;
    NameSetTwice(Trimmed(items));
  }

  /** Normalizing a normalized document changes nothing, whatever identities it repeats. */
  lemma NormalizeTwice(doc: Document)
    ensures Normalized(Normalized(doc)) == Normalized(doc)
  {
    hide NormCollection, NormFeatures, Trim;
    var once := Normalized(doc);
    forall name | name in doc.collections
      ensures Normalized(once).collections[name] == once.collections[name]
    {
      CollectionTwice(doc.collections[name]);
    }
    assert Normalized(once).collections == once.collections;
    FeaturesTwice(doc.features.required);
    FeaturesTwice(doc.features.optional);
    TrimTwice(doc.provenance);
  }

  // ----- what a normal form is, field by field ------------------------------------------------------

  /** An entry reads m between blanks. */
  ghost predicate Listed(items: seq<string>, m: string) {
    exists s :: s in items && TrimsTo(s, m)
  }

  lemma ListedIff(items: seq<string>, m: string)
    ensures m in Trimmed(items) <==> Listed(items, m)
  {
    hide Trim, TrimsTo;
    forall s
      ensures Trim(s) == m <==> TrimsTo(s, m)
    {
      TrimIff(s, m);
    }
    if m in Trimmed(items) {
      var i :| 0 <= i < |items| && Trimmed(items)[i] == m;
      assert items[i] in items && TrimsTo(items[i], m);
    }
    if Listed(items, m) {
      var s :| s in items && TrimsTo(s, m);
      var i :| 0 <= i < |items| && items[i] == s;
      assert Trimmed(items)[i] == m;
    }
  }

  /** A trimmed text loses the blanks at its ends, a set is put in order without repetition, all else stays. */
  ghost predicate CleanField(trims: bool, sets: bool, before: Value, after: Value) {
    match before
    case Text(s) => after.Text? && (if trims then TrimsTo(s, after.text) else after.text == s)
    case Names(names) =>
      if sets then after.Names? && StrictlySorted(StrLe, after.names) && (forall n :: n in after.names <==> n in names)
      else after == before
    case Ranks(ranks) =>
      if sets then after.Ranks? && StrictlySorted<nat>(NatLe, after.ranks) && (forall n: nat :: n in after.ranks <==> n in ranks)
      else after == before
    case Other(_) => after == before
  }

  ghost predicate CleanDecl(before: Decl, after: Decl) {
    && after.kind == before.kind && after.id == before.id && after.fields.Keys == before.fields.Keys
    && forall name :: name in before.fields ==>
         CleanField(name in TrimmedFields(before.kind), name in SetFields(before.kind), before.fields[name], after.fields[name])
  }

  /** The cleaned declarations, each once, in ascending order of key and then of tie-break text. */
  ghost predicate CleanCollection(before: seq<Decl>, after: seq<Decl>) {
    && (exists clean: seq<Decl> ::
          |clean| == |before| && multiset(clean) == multiset(after)
          && forall i :: 0 <= i < |before| ==> CleanDecl(before[i], clean[i]))
    && (forall i, j :: 0 <= i < j < |after| ==> StrLe(Key(after[i]), Key(after[j])))
    && (forall i, j :: 0 <= i < j < |after| && Key(after[i]) == Key(after[j]) ==> StrLe(Tie(after[i]), Tie(after[j])))
  }

  ghost predicate CleanFeatures(items: seq<string>, r: seq<string>) {
    StrictlySorted(StrLe, r) && forall m :: m in r <==> Listed(items, m)
  }

  ghost predicate CleanDocument(doc: Document, r: Document) {
    && r.collections.Keys == doc.collections.Keys
    && (forall name :: name in doc.collections ==> CleanCollection(doc.collections[name], r.collections[name]))
    && CleanFeatures(doc.features.required, r.features.required)
    && CleanFeatures(doc.features.optional, r.features.optional)
    && TrimsTo(doc.provenance, r.provenance)
  }

  lemma FieldIsClean(kind: Kind, name: string, v: Value)
    ensures CleanField(name in TrimmedFields(kind), name in SetFields(kind), v, NormField(kind, name, v))
  {
    hide Trim, TrimsTo, NameSet, RankSet, TrimmedFields, SetFields, StrictlySorted;
    match v
    case Text(s) => TrimIff(s, Trim(s));
    case Names(names) => NameSetIs(names);
    case Ranks(ranks) => RankSetIs(ranks);
    case Other(_) =>
  }

  lemma NameSetIs(names: seq<string>)
    ensures StrictlySorted(StrLe, NameSet(names)) && forall n :: n in NameSet(names) <==> n in names
  {
    hide StrLe, StrictlySorted;
    StrLeIsTotalOrder();
    SortUnique(StrLe, names);
  }

  lemma RankSetIs(ranks: seq<nat>)
    ensures StrictlySorted<nat>(NatLe, RankSet(ranks)) && forall n: nat :: n in RankSet(ranks) <==> n in ranks
  {
    hide StrictlySorted;
    NatLeIsTotalOrder();
    SortUnique<nat>(NatLe, ranks);
  }

  lemma DeclIsClean(d: Decl)
    ensures CleanDecl(d, NormDecl(d))
  {
    hide CleanField, NormField, TrimmedFields, SetFields;
    forall name | name in d.fields
      ensures CleanField(name in TrimmedFields(d.kind), name in SetFields(d.kind), d.fields[name], NormDecl(d).fields[name])
    {
      FieldIsClean(d.kind, name, d.fields[name]);
    }
  }

  lemma CollectionIsClean(ds: seq<Decl>)
    ensures CleanCollection(ds, NormCollection(ds))
  {
    hide CleanDecl, NormDecl, StrLe, Key, Tie;
    var clean, r := NormDecls(ds), NormCollection(ds);
    DeclLeIsPreorder();
    SortSorts(DeclLe, clean);
    forall i | 0 <= i < |ds|
      ensures CleanDecl(ds[i], clean[i])
    {
      DeclIsClean(ds[i]);
    }
    forall i, j | 0 <= i < j < |r|
      ensures StrLe(Key(r[i]), Key(r[j])) && (Key(r[i]) == Key(r[j]) ==> StrLe(Tie(r[i]), Tie(r[j])))
    {
      assert DeclLe(r[i], r[j]);
      StrLeIsTotalOrder();
    }
  }

  lemma FeaturesAreClean(items: seq<string>)
    ensures CleanFeatures(items, NormFeatures(items))
  {
    hide StrLe, Listed, StrictlySorted;
    StrLeIsTotalOrder();
    SortUnique(StrLe, Trimmed(items));
    forall m
      ensures m in NormFeatures(items) <==> Listed(items, m)
    {
      ListedIff(items, m);
    }
  }

  /** The normal form, part by part. */
  lemma NormalFormIsClean(doc: Document)
    ensures CleanDocument(doc, Normalized(doc))
  {
    hide CleanCollection, CleanFeatures, NormCollection, NormFeatures, Trim, TrimsTo;
    forall name | name in doc.collections
      ensures CleanCollection(doc.collections[name], NormCollection(doc.collections[name]))
    {
      CollectionIsClean(doc.collections[name]);
    }
    FeaturesAreClean(doc.features.required);
    FeaturesAreClean(doc.features.optional);
    TrimIff(doc.provenance, Trim(doc.provenance));
  }

  // ----- the procedure ----------------------------------------------------------------------------------

  /** Moves in from both ends past the blanks. */
  method TrimAscii(text: string) returns (r: string)
    ensures r == Trim(text)
    ensures TrimsTo(text, r)
  {
    hide Trim;
    var begin, end := 0, |text|;
    while begin < end && IsSpace(text[begin])
      invariant begin <= end == |text| && Blank(text[..begin])
    {
      begin := begin + 1;
    }
    while end > begin && IsSpace(text[end - 1])
      invariant begin <= end <= |text| && Blank(text[end..])
      invariant begin < end ==> !IsSpace(text[begin])
    {
      end := end - 1;
    }
    r := text[begin..end];
    assert text == text[..begin] + r + text[end..];
    TrimPadded(text[..begin], r, text[end..]);
  }

  /** Normalizes every field, then sorts every collection. */
  method Normalize(doc: Document) returns (r: Document)
    ensures r == Normalized(doc)
    ensures CleanDocument(doc, r)
  {
    hide CleanDocument, NormDecl, DeclLe, Trim, NameSet, StrLe;
    var collections: map<string, seq<Decl>> := map[];
    var rest := doc.collections.Keys;
    while rest != {}
      invariant rest <= doc.collections.Keys && collections.Keys == doc.collections.Keys - rest
      invariant forall name :: name in collections ==> collections[name] == NormCollection(doc.collections[name])
      decreases rest
    {
      var name :| name in rest;
      rest := rest - {name};
      var ds := doc.collections[name];
      var entries: seq<Decl> := [];
      for i := 0 to |ds|
        invariant |entries| == i && forall k :: 0 <= k < i ==> entries[k] == NormDecl(ds[k])
      {
        entries := entries + [NormDecl(ds[i])];
      }
      assert entries == NormDecls(ds);
      collections := collections[name := Sort(DeclLe, entries)];
    }
    var required := NormalizeFeatures(doc.features.required);
    var optional := NormalizeFeatures(doc.features.optional);
    var description := TrimAscii(doc.provenance);
    r := Document(collections, Features(required, optional), description);
    assert collections == Normalized(doc).collections;
    assert r == Normalized(doc);
    NormalFormIsClean(doc);
  }

  method NormalizeFeatures(items: seq<string>) returns (r: seq<string>)
    ensures r == NormFeatures(items)
  {
    hide Trim, NameSet;
    var trimmed: seq<string> := [];
    for i := 0 to |items|
      invariant |trimmed| == i && forall k :: 0 <= k < i ==> trimmed[k] == Trim(items[k])
    {
      var item := TrimAscii(items[i]);
      trimmed := trimmed + [item];
    }
    assert trimmed == Trimmed(items);
    r := NameSet(trimmed);
  }
}
