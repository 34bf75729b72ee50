/**
 * Which documents have one normal form: those that differ only in the order of collections, in the order and
 * repetition of sets and in outer blanks, as far as the tie-break tells declarations with one key apart.
 */
module NormalForms {
  import opened Ordering
  import opened Identities
  import opened JsonValues
  import opened JsonGrammar
  import opened JsonPrinter
  import opened Canonical

  /** One text between blanks. */
  ghost predicate SameApartFromBlanks(x: string, y: string) {
    exists m :: TrimsTo(x, m) && TrimsTo(y, m)
  }

  lemma SameTrimmed(x: string, y: string)
    ensures Trim(x) == Trim(y) <==> SameApartFromBlanks(x, y)
  {
    hide Trim, TrimsTo;
    TrimIff(x, Trim(x));
    TrimIff(y, Trim(x));
    if SameApartFromBlanks(x, y) {
      var m :| TrimsTo(x, m) && TrimsTo(y, m);
      TrimIff(x, m);
      TrimIff(y, m);
    }
  }

  /** Texts that differ in blanks at the ends, sets that differ in order and repetition. */
  ghost predicate SameField(kind: Kind, name: string, a: Value, b: Value) {
    || a == b
    || (a.Text? && b.Text? && name in TrimmedFields(kind) && SameApartFromBlanks(a.text, b.text))
    || (a.Names? && b.Names? && name in SetFields(kind) && forall n :: n in a.names <==> n in b.names)
    || (a.Ranks? && b.Ranks? && name in SetFields(kind) && forall n: nat :: n in a.ranks <==> n in b.ranks)
  }

  ghost predicate SameDecl(a: Decl, b: Decl) {
    && a.kind == b.kind && a.id == b.id && a.fields.Keys == b.fields.Keys
    && forall name :: name in a.fields ==> SameField(a.kind, name, a.fields[name], b.fields[name])
  }

  /** q undoes p, and p takes each declaration to the same one. */
  ghost predicate ShuffledBy(x: seq<Decl>, y: seq<Decl>, p: seq<nat>, q: seq<nat>) {
    && |x| == |y| == |p| == |q|
    && (forall i :: 0 <= i < |p| ==> p[i] < |q| && q[p[i]] == i)
    && (forall i :: 0 <= i < |q| ==> q[i] < |p| && p[q[i]] == i)
    && forall i :: 0 <= i < |x| ==> SameDecl(x[i], y[p[i]])
  }

  ghost predicate Shuffled(x: seq<Decl>, y: seq<Decl>) { exists p, q :: ShuffledBy(x, y, p, q) }

  /** The keys are distinct: identities, and trimmed models of catalog entries. */
  ghost predicate DistinctKeys(ds: seq<Decl>) {
    forall i, j :: 0 <= i < j < |ds| ==> Key(NormDecl(ds[i])) != Key(NormDecl(ds[j]))
  }

  lemma SameFieldIff(kind: Kind, name: string, a: Value, b: Value)
    ensures NormField(kind, name, a) == NormField(kind, name, b) <==> SameField(kind, name, a, b)
  {
    hide Trim, NameSet, RankSet, TrimmedFields, SetFields, SameApartFromBlanks;
    match (a, b)
    case (Text(x), Text(y)) => SameTrimmed(x, y);
    case (Names(x), Names(y)) => SameMembersSameSet(x, y);
    case (Ranks(x), Ranks(y)) => SameMembersSameRanks(x, y);
    case _ =>
  }

  lemma SameDeclIff(a: Decl, b: Decl)
    ensures NormDecl(a) == NormDecl(b) <==> SameDecl(a, b)
  {
    hide NormField, SameField;
    if a.kind == b.kind {
      forall name | name in a.fields && name in b.fields
        ensures NormField(a.kind, name, a.fields[name]) == NormField(a.kind, name, b.fields[name])
           <==> SameField(a.kind, name, a.fields[name], b.fields[name])
      {
        SameFieldIff(a.kind, name, a.fields[name], b.fields[name]);
      }
    }
    var m, n := NormDecl(a).fields, NormDecl(b).fields;
    assert m.Keys == a.fields.Keys && n.Keys == b.fields.Keys;
    if SameDecl(a, b) {
      assert m == n;
    }
    if NormDecl(a) == NormDecl(b) {
      assert forall name :: name in a.fields ==> m[name] == n[name];
    }
  }

  // ----- one collection --------------------------------------------------------------------------

  /** The sort cannot tell the two apart: equal keys and equal tie-break texts, once normalized. */
  ghost predicate Tied(a: Decl, b: Decl) {
    Key(NormDecl(a)) == Key(NormDecl(b)) && Tie(NormDecl(a)) == Tie(NormDecl(b))
  }

  /** Declarations that the sort cannot tell apart are the same. */
  ghost predicate TiesDecide(ds: seq<Decl>) {
    forall i, j :: 0 <= i < j < |ds| && Tied(ds[i], ds[j]) ==> SameDecl(ds[i], ds[j])
  }

  /** A shuffle is a rearrangement of the normalized declarations. */
  lemma ShuffledIff(x: seq<Decl>, y: seq<Decl>)
    ensures Shuffled(x, y) <==> multiset(NormDecls(x)) == multiset(NormDecls(y))
  {
    hide NormDecl, SameDecl;
    if Shuffled(x, y) {
      var p, q :| ShuffledBy(x, y, p, q);
      forall i | 0 <= i < |x|
        ensures NormDecls(x)[i] == NormDecls(y)[p[i]]
      {
        SameDeclIff(x[i], y[p[i]]);
      }
      RearrangedMultiset(NormDecls(x), NormDecls(y), p, q);
    }
    if multiset(NormDecls(x)) == multiset(NormDecls(y)) {
      var p, q := MultisetRearranged(NormDecls(x), NormDecls(y));
      forall i | 0 <= i < |x|
        ensures SameDecl(x[i], y[p[i]])
      {
        SameDeclIff(x[i], y[p[i]]);
      }
      assert ShuffledBy(x, y, p, q);
    }
  }

  /** One normal form means the same declarations, whatever the keys. */
  lemma AlikeIsShuffled(x: seq<Decl>, y: seq<Decl>)
    requires NormCollection(x) == NormCollection(y)
    ensures Shuffled(x, y)
  {
    hide DeclLe, NormDecl, Shuffled;
    ShuffledIff(x, y);
  }

  lemma TiedOrdered(a: Decl, b: Decl)
    ensures DeclLe(a, b) && DeclLe(b, a) <==> Key(a) == Key(b) && Tie(a) == Tie(b)
  {
    StrLeIsTotalOrder();
    hide StrLe, Key, Tie;
    if Key(a) != Key(b) {
      assert !(StrLe(Key(a), Key(b)) && StrLe(Key(b), Key(a)));
    } else {
      assert StrLe(Tie(a), Tie(b)) || StrLe(Tie(b), Tie(a));
    }
  }

  lemma NormalMember(ds: seq<Decl>, d: Decl) returns (i: nat)
    requires d in NormCollection(ds)
    ensures i < |ds| && d == NormDecl(ds[i])
  {
    hide DeclLe, NormDecl;
    MultisetMembers(NormCollection(ds), NormDecls(ds));
    i :| 0 <= i < |ds| && NormDecls(ds)[i] == d;
  }

  /** Where the ties decide, every shuffle of a collection has its normal form. */
  lemma ShuffledIsAlike(x: seq<Decl>, y: seq<Decl>)
    requires TiesDecide(x) && Shuffled(x, y)
    ensures NormCollection(x) == NormCollection(y)
  {
    hide DeclLe, NormDecl, SameDecl, Key, Tie, Shuffled;
    ShuffledIff(x, y);
    DeclLeIsPreorder();
    SortSorts(DeclLe, NormDecls(x));
    SortSorts(DeclLe, NormDecls(y));
    forall a, b | a in NormCollection(x) && b in NormCollection(x) && DeclLe(a, b) && DeclLe(b, a)
      ensures a == b
    {
      TiedOrdered(a, b);
      var i := NormalMember(x, a);
      var j := NormalMember(x, b);
      SameDeclIff(x[i], x[j]);
      SameDeclIff(x[j], x[i]);
    }
    SortedAlike(DeclLe, NormCollection(x), NormCollection(y));
  }

  /** Where the ties decide, two collections normalize alike exactly when one is the other shuffled. */
  lemma CollectionIff(x: seq<Decl>, y: seq<Decl>)
    requires TiesDecide(x)
    ensures NormCollection(x) == NormCollection(y) <==> Shuffled(x, y)
  {
    hide NormCollection, Shuffled, TiesDecide;
    if Shuffled(x, y) {
      ShuffledIsAlike(x, y);
    }
    if NormCollection(x) == NormCollection(y) {
      AlikeIsShuffled(x, y);
    }
  }

  function Swapped(ds: seq<Decl>, i: nat, j: nat): seq<Decl>
    requires i < j < |ds|
  {
    ds[i := ds[j]][j := ds[i]]
  }

  lemma SwappedIsShuffled(ds: seq<Decl>, i: nat, j: nat)
    requires i < j < |ds|
    ensures Shuffled(ds, Swapped(ds, i, j))
    ensures NormDecls(Swapped(ds, i, j)) == NormDecls(ds)[i := NormDecls(ds)[j]][j := NormDecls(ds)[i]]
  {
    hide NormDecl;
    var p: seq<nat> := seq(|ds|, k requires 0 <= k < |ds| => if k == i then j else if k == j then i else k);
    assert ShuffledBy(ds, Swapped(ds, i, j), p, p);
  }

  /** Two different declarations that the sort cannot tell apart show the order they came in. */
  lemma SwappedDiffers(ds: seq<Decl>, i: nat, j: nat)
    requires i < j < |ds| && Tied(ds[i], ds[j]) && !SameDecl(ds[i], ds[j])
    ensures NormCollection(Swapped(ds, i, j)) != NormCollection(ds)
  {
    hide NormDecl, SameDecl, Key, Tie, StrLe, Swapped, DeclLe;
    var n, m := NormDecls(ds), NormDecls(Swapped(ds, i, j));
    var k, t := Key(n[i]), Tie(n[i]);
    var p: Decl -> bool := d => Key(d) == k && Tie(d) == t;
    forall a, b | p(a) && p(b)
      ensures DeclLe(a, b)
    {
      TiedOrdered(a, b);
    }
    SwappedIsShuffled(ds, i, j);
    SameDeclIff(ds[i], ds[j]);
    SwapShows(p, n, i, j);
    SortSelects(DeclLe, p, n);
    SortSelects(DeclLe, p, m);
  }

  /**
   * Main result. Every shuffle of a collection has one normal form exactly when any two of its declarations
   * that the sort cannot tell apart, by key and tie-break text, are the same.
   */
  lemma OrderIndependentIff(ds: seq<Decl>)
    ensures (forall other :: Shuffled(ds, other) ==> NormCollection(other) == NormCollection(ds)) <==> TiesDecide(ds)
  {
    hide NormCollection, Shuffled, Tied, SameDecl;
    if TiesDecide(ds) {
      forall other | Shuffled(ds, other)
        ensures NormCollection(other) == NormCollection(ds)
      {
        ShuffledIsAlike(ds, other);
      }
    } else {
      var i, j :| 0 <= i < j < |ds| && Tied(ds[i], ds[j]) && !SameDecl(ds[i], ds[j]);
      SwappedIsShuffled(ds, i, j);
      SwappedDiffers(ds, i, j);
    }
  }

  // ----- documents -----------------------------------------------------------------------------------

  ghost predicate SameFeatures(x: seq<string>, y: seq<string>) {
    forall m :: Listed(x, m) <==> Listed(y, m)
  }

  lemma FeaturesAlike(x: seq<string>, y: seq<string>)
    ensures NormFeatures(x) == NormFeatures(y) <==> SameFeatures(x, y)
  {
    hide NameSet, Listed, Trimmed;
    SameMembersSameSet(Trimmed(x), Trimmed(y));
    forall m
      ensures m in Trimmed(x) <==> Listed(x, m)
      ensures m in Trimmed(y) <==> Listed(y, m)
    {
      ListedIff(x, m);
      ListedIff(y, m);
    }
    if SameFeatures(x, y) {
      assert forall m :: m in Trimmed(x) <==> m in Trimmed(y);
    }
    if forall m :: m in Trimmed(x) <==> m in Trimmed(y) {
      forall m
        ensures Listed(x, m) <==> Listed(y, m)
      {
        assert m in Trimmed(x) <==> m in Trimmed(y);
      }
    }
  }

  /** Documents that differ in the order of collections, in the order and repetition of sets, and in outer blanks. */
  ghost predicate SameDocument(a: Document, b: Document) {
    && a.collections.Keys == b.collections.Keys
    && (forall name :: name in a.collections ==> Shuffled(a.collections[name], b.collections[name]))
    && SameFeatures(a.features.required, b.features.required)
    && SameFeatures(a.features.optional, b.features.optional)
    && SameApartFromBlanks(a.provenance, b.provenance)
  }

  ghost predicate AllTiesDecide(doc: Document) {
    forall name :: name in doc.collections ==> TiesDecide(doc.collections[name])
  }

  /** One normal form means the same document, whatever identities it repeats. */
  lemma AlikeIsSame(a: Document, b: Document)
    requires Normalized(a) == Normalized(b)
    ensures SameDocument(a, b)
  {
    hide NormCollection, Shuffled, Trim, NormFeatures, SameFeatures, SameApartFromBlanks;
    FeaturesAlike(a.features.required, b.features.required);
    FeaturesAlike(a.features.optional, b.features.optional);
    SameTrimmed(a.provenance, b.provenance);
    var m, n := Normalized(a).collections, Normalized(b).collections;
    assert m.Keys == a.collections.Keys && n.Keys == b.collections.Keys;
    forall name | name in a.collections
      ensures Shuffled(a.collections[name], b.collections[name])
    {
      assert m[name] == n[name];
      AlikeIsShuffled(a.collections[name], b.collections[name]);
    }
  }

  lemma SameIsAlike(a: Document, b: Document)
    requires AllTiesDecide(a) && SameDocument(a, b)
    ensures Normalized(a) == Normalized(b)
  {
    hide NormCollection, Shuffled, TiesDecide, Trim, NormFeatures, SameFeatures, SameApartFromBlanks;
    FeaturesAlike(a.features.required, b.features.required);
    FeaturesAlike(a.features.optional, b.features.optional);
    SameTrimmed(a.provenance, b.provenance);
    var m, n := Normalized(a).collections, Normalized(b).collections;
    forall name | name in a.collections
      ensures m[name] == n[name]
    {
      ShuffledIsAlike(a.collections[name], b.collections[name]);
    }
    assert m == n;
  }

  /** Where the ties decide, two documents normalize alike exactly when they are the same in that sense. */
  lemma NormalizeIff(a: Document, b: Document)
    requires AllTiesDecide(a)
    ensures Normalized(a) == Normalized(b) <==> SameDocument(a, b)
  {
    hide Normalized, SameDocument, AllTiesDecide;
    if SameDocument(a, b) {
      SameIsAlike(a, b);
    }
    if Normalized(a) == Normalized(b) {
      AlikeIsSame(a, b);
    }
  }

  /** Main result. The order of declarations never shows in the normal form exactly when the ties decide. */
  lemma DocumentIff(a: Document)
    ensures (forall b :: SameDocument(a, b) ==> Normalized(b) == Normalized(a)) <==> AllTiesDecide(a)
  {
    hide NormCollection, NormFeatures, Trim, TrimsTo, Listed, Shuffled, TiesDecide;
    if AllTiesDecide(a) {
      forall b | SameDocument(a, b)
        ensures Normalized(b) == Normalized(a)
      {
        SameIsAlike(a, b);
      }
    } else {
      var name :| name in a.collections && !TiesDecide(a.collections[name]);
      OrderIndependentIff(a.collections[name]);
      var other :| Shuffled(a.collections[name], other) && NormCollection(other) != NormCollection(a.collections[name]);
      var b := a.(collections := a.collections[name := other]);
      forall x | x in a.collections
        ensures Shuffled(a.collections[x], b.collections[x])
      {
        ShuffledSelf(a.collections[x]);
      }
      SameTrimmed(a.provenance, a.provenance);
      assert Normalized(b).collections[name] != Normalized(a).collections[name];
      assert SameDocument(a, b);
    }
  }

  lemma ShuffledSelf(ds: seq<Decl>)
    ensures Shuffled(ds, ds)
  {
    var p: seq<nat> := seq(|ds|, k requires 0 <= k < |ds| => k);
    assert ShuffledBy(ds, ds, p, p);
  }

  // ----- distinct identities ----------------------------------------------------------------------------

  /** Identities, and trimmed models of catalog entries, are distinct in every collection. */
  ghost predicate DistinctIdentities(doc: Document) {
    forall name :: name in doc.collections ==>
      forall i, j :: 0 <= i < j < |doc.collections[name]| ==>
        Key(NormDecl(doc.collections[name][i])) != Key(NormDecl(doc.collections[name][j]))
  }

  /** Then there are no ties at all, so the order never shows. */
  lemma DistinctIdentitiesSuffice(a: Document, b: Document)
    requires DistinctIdentities(a)
    ensures AllTiesDecide(a)
    ensures Normalized(a) == Normalized(b) <==> SameDocument(a, b)
  {
    hide Normalized, SameDocument, Key, Tie, NormDecl, SameDecl;
    NormalizeIff(a, b);
  }

  // ----- what equal identities do -----------------------------------------------------------------

  /** Declarations that the tie-break cannot tell apart keep the order they came in. */
  lemma TiesKeepOrder(a: Decl, b: Decl)
    requires Key(NormDecl(a)) == Key(NormDecl(b)) && Tie(NormDecl(a)) == Tie(NormDecl(b))
    ensures NormCollection([a, b]) == [NormDecl(a), NormDecl(b)]
  {
    hide NormDecl, Key, Tie, StrLe;
    StrLeIsTotalOrder();
    var n := NormDecls([a, b]);
    assert n == [NormDecl(a), NormDecl(b)];
    assert StrLe(Tie(n[0]), Tie(n[0]));
    SortKeepsSorted(DeclLe, n);
  }

  /** A capacity policy of which the tie-break sees the identity and the kind, but not the amount. */
  function Reserving(id: string, amount: int): Decl {
    Decl(CapacityPolicy, id, map["kind" := Other(Str("capacity")), "reserved_bps" := Other(Int(amount))])
  }

  /** So two policies with one identity and different amounts normalize by the order they came in. */
  lemma OrderShowsThrough(id: string, x: int, y: int)
    requires x != y
    ensures NormCollection([Reserving(id, x), Reserving(id, y)]) != NormCollection([Reserving(id, y), Reserving(id, x)])
  {
    var a, b := Reserving(id, x), Reserving(id, y);
    ReservingIsNormal(id, x);
    ReservingIsNormal(id, y);
    TieOfReserving(id, x, y);
    TiesKeepOrder(a, b);
    TiesKeepOrder(b, a);
    assert a.fields["reserved_bps"] != b.fields["reserved_bps"];
  }

  lemma ReservingIsNormal(id: string, x: int)
    ensures NormDecl(Reserving(id, x)) == Reserving(id, x)
  {
    assert NormDecl(Reserving(id, x)).fields == Reserving(id, x).fields;
  }

  lemma TieOfReserving(id: string, x: int, y: int)
    ensures Tie(Reserving(id, x)) == Tie(Reserving(id, y))
  {
    hide Dump, Inserted;
    var a, b := Reserving(id, x), Reserving(id, y);
    assert ["kind"][1..] == [];
    assert TieMembers(a, ["kind"]) == TieMembers(b, ["kind"]);
  }
}
