/**
 * Exactly which values a diff rebuilds (src/diff.cpp:283-426): no change is invisible, arrays compared by
 * identity come out in the order of their identities, and upgrade marks, which no entry mentions, agree.
 */
module PatchExact {
  import opened Ordering
  import opened Identities
  import opened JsonValues
  import opened Differences
  import opened Patch
  import opened PatchApply

  /**
   * The entries can carry b over to a: where the two differ something is seen, what is compared by identity is
   * in its order, and it is so for every child that both have.
   */
  ghost predicate Carried(b: Json, a: Json)
    decreases b
  {
    b == a || !Alike(b, a)
    || (Changes(b, a) != [] && InOrder(b, a) && forall l :: Fits(b, a, l) ==> ChildCarried(b, a, l))
  }

  ghost predicate ChildCarried(b: Json, a: Json, l: Label)
    decreases b, l
  {
    if l == Key(UPGRADED_FROM) then At(b, l) == At(a, l)
    else At(b, l).Some? && At(a, l).Some? ==> Carried(At(b, l).value, At(a, l).value)
  }

  // ----- the entries under one label ---------------------------------------------------------

  lemma SubIs(b: Json, a: Json, es: seq<Entry>, l: Label)
    requires WellFormed(b) && WellFormed(a) && Alike(b, a) && EntriesOf(es, b, a) && Fits(b, a, l)
    ensures multiset(Sub(es, l)) == multiset(DiffLabel(b, a, l))
  {
    hide WellFormed, At, Sub, Fits, Labels;
    LabelsCover(b, a);
    SubPermutes(es, DiffLabels(b, a, Labels(b, a)), l);
    SubOfLabels(b, a, Labels(b, a), l);
  }

  lemma NoneOf<T>(s: seq<T>)
    requires multiset(s) == multiset([])
    ensures s == []
  {
    assert |s| == |multiset(s)|;
  }

  lemma NothingApplied(o: Option<Json>)
    ensures Apply(o, []) == o
  {
  }

  // ----- what is carried is rebuilt ---------------------------------------------------------------

  lemma {:induction false} CarriedTurns(b: Json, a: Json, es: seq<Entry>, l: Label)
    requires WellFormed(b) && WellFormed(a) && Alike(b, a) && EntriesOf(es, b, a) && Fits(b, a, l) && ChildCarried(b, a, l)
    ensures TurnsInto(b, a, es, l)
    decreases b, 0
  {
    hide WellFormed, At, Sub, Fits, Labels, Apply, Carried;
    SubIs(b, a, es, l);
    ChildWellFormed(b, l);
    ChildWellFormed(a, l);
    var x, y := At(b, l), At(a, l);
    if l == Key(UPGRADED_FROM) || (x.None? && y.None?) {
      NoneOf(Sub(es, l));
      NothingApplied(x);
    } else if x.Some? && y.Some? {
      ChildSmaller(b, l);
      CarriedRebuilds(x.value, y.value, Sub(es, l));
    } else {
      SingletonMultiset(Sub(es, l), Entry([], x, y));
      WholeApplied(x, Entry([], x, y));
    }
  }

  lemma WholeApplied(o: Option<Json>, e: Entry)
    requires e.path == []
    ensures Apply(o, [e]) == e.after
  {
  }

  lemma {:induction false} CarriedRebuilds(b: Json, a: Json, es: seq<Entry>)
    requires WellFormed(b) && WellFormed(a) && Carried(b, a)
    requires multiset(es) == multiset(Changes(b, a))
    ensures Apply(Some(b), es) == Some(a)
    decreases b, 1
  {
    hide WellFormed, At, Fits, Labels, Apply, ChildCarried, InOrder;
    if b == a {
      NoneOf(es);
      NothingApplied(Some(b));
    } else if Alike(b, a) {
      forall l | Fits(b, a, l)
        ensures TurnsInto(b, a, es, l)
      {
        CarriedTurns(b, a, es, l);
      }
      assert es == [] ==> multiset(Changes(b, a)) == multiset([]);
      if es == [] { NoneOf(Changes(b, a)); }
      RebuildsContainer(b, a, es);
    } else {
      SingletonMultiset(es, Entry([], Some(b), Some(a)));
      WholeApplied(Some(b), es[0]);
    }
  }

  // ----- what a patched container holds ---------------------------------------------------------

  ghost function PatchedChild(b: Json, es: seq<Entry>, l: Label): Option<Json> { Apply(At(b, l), Sub(es, l)) }

  /** The names at which something is left. */
  ghost function Kept(byKey: bool, b: Json, es: seq<Entry>, names: seq<string>): seq<string> {
    if names == [] then []
    else (if PatchedChild(b, es, Name(byKey, names[0])).Some? then [names[0]] else []) + Kept(byKey, b, es, names[1..])
  }

  lemma {:induction false} KeptIs(byKey: bool, b: Json, es: seq<Entry>, names: seq<string>)
    requires StrictlySortedNames(names)
    ensures StrictlySortedNames(Kept(byKey, b, es, names))
    ensures forall x :: x in Kept(byKey, b, es, names) <==> x in names && PatchedChild(b, es, Name(byKey, x)).Some?
  {
    hide StrictlySortedNames, PatchedChild, Name;
    if names != [] {
      TailSorted(names);
      KeptIs(byKey, b, es, names[1..]);
      assert [] + Kept(byKey, b, es, names[1..]) == Kept(byKey, b, es, names[1..]);
      if PatchedChild(b, es, Name(byKey, names[0])).Some? {
        ConsSorted(names[0], Kept(byKey, b, es, names[1..]));
      }
    } else {
      NoNamesSorted();
    }
  }

  lemma NoNamesSorted()
    ensures StrictlySortedNames([])
  {
  }

  /** The slots of a patched container, by name. */
  lemma {:induction false} NamedSlots(byKey: bool, b: Json, es: seq<Entry>, names: seq<string>)
    ensures var slots := PatchSlots(b, es, NameLabels(byKey, names)); var kept := Kept(byKey, b, es, names);
      && |slots| == |kept|
      && forall i :: 0 <= i < |kept| ==> PatchedChild(b, es, Name(byKey, kept[i])) == Some(slots[i].value) && slots[i].at == Name(byKey, kept[i])
  {
    hide Apply, At, Sub, Name;
    if names != [] {
      NameLabelsTail(byKey, names);
      NamedSlots(byKey, b, es, names[1..]);
    }
  }

  /** A container whose children stand under sorted names is looked up by them. */
  lemma LookUp(byKey: bool, v: Json, names: seq<string>, x: string)
    requires Named(byKey, v) && Names(byKey, v) == names && StrictlySortedNames(names)
    ensures x !in names ==> At(v, Name(byKey, x)) == None
    ensures forall i :: 0 <= i < |names| && names[i] == x ==> At(v, Name(byKey, x)) == Some(Child(byKey, v, i))
  {
    hide StrictlySortedNames, Names, Child, At, Name, IndexOf;
    AtName(byKey, v, x);
    NamesDistinct(names);
  }

  /** A name that is not listed has no child, and gets none. */
  lemma Unlisted(byKey: bool, b: Json, es: seq<Entry>, x: string)
    requires Named(byKey, b)
    ensures StrictlySortedNames(AllNames(byKey, b, es))
    ensures x !in AllNames(byKey, b, es) ==> PatchedChild(b, es, Name(byKey, x)) == None
  {
    hide StrLe, At, Apply, Names, Name;
    StrLeIsTotalOrder();
    SortUnique(StrLe, Names(byKey, b) + HeadNames(byKey, es));
    if x !in AllNames(byKey, b, es) {
      AtName(byKey, b, x);
      if Sub(es, Name(byKey, x)) != [] {
        HeadMentioned(byKey, es, x);
      }
      NothingApplied(None);
    }
  }

  lemma ChildrenAre(byKey: bool, b: Json, v: Json, slots: seq<Slot>)
    requires Named(byKey, b) && Named(byKey, v) && v == FromSlots(b, slots)
    ensures |Names(byKey, v)| == |slots| && forall i :: 0 <= i < |slots| ==> Child(byKey, v, i) == slots[i].value
  {
  }

  /** The container built from the children left at the listed names is looked up by them. */
  lemma BuiltByName(byKey: bool, b: Json, es: seq<Entry>, v: Json)
    requires Named(byKey, b) && Named(byKey, v)
    requires var names := AllNames(byKey, b, es);
      v == FromSlots(b, PatchSlots(b, es, NameLabels(byKey, names))) && Names(byKey, v) == Kept(byKey, b, es, names)
    ensures StrictlySortedNames(Names(byKey, v))
    ensures forall x :: At(v, Name(byKey, x)) == PatchedChild(b, es, Name(byKey, x))
  {
    hide StrictlySortedNames, At, Names, Name, Child, PatchSlots, PatchedChild, AllNames, FromSlots, Kept;
    var names := AllNames(byKey, b, es);
    var slots := PatchSlots(b, es, NameLabels(byKey, names));
    var kept := Kept(byKey, b, es, names);
    NamedSlots(byKey, b, es, names);
    ChildrenAre(byKey, b, v, slots);
    Unlisted(byKey, b, es, "");
    KeptIs(byKey, b, es, names);
    forall x
      ensures At(v, Name(byKey, x)) == PatchedChild(b, es, Name(byKey, x))
    {
      LookUp(byKey, v, kept, x);
      Unlisted(byKey, b, es, x);
      if x in kept {
        var i :| 0 <= i < |kept| && kept[i] == x;
      }
    }
  }

  lemma ObjectPatched(b: Json, a: Json, es: seq<Entry>)
    requires WellFormed(b) && WellFormed(a) && b.Obj? && a.Obj? && EntriesOf(es, b, a) && es != []
    ensures Apply(Some(b), es).Some? && Apply(Some(b), es).value.Obj?
    ensures forall x :: At(Apply(Some(b), es).value, Key(x)) == PatchedChild(b, es, Key(x))
  {
    hide WellFormed, At, Names, Labels, PatchSlots, PatchedChild, EntriesOf;
    EntriesFit(b, a, es);
    var names := AllNames(true, b, es);
    var slots := PatchSlots(b, es, NameLabels(true, names));
    var v := Obj(MembersOf(slots));
    assert Apply(Some(b), es) == Some(v);
    NamedSlots(true, b, es, names);
    KeysAre(b, es, names, v);
    BuiltByName(true, b, es, v);
    forall x
      ensures At(v, Key(x)) == PatchedChild(b, es, Key(x))
    {
      assert At(v, Name(true, x)) == PatchedChild(b, es, Name(true, x));
    }
  }

  lemma KeysAre(b: Json, es: seq<Entry>, names: seq<string>, v: Json)
    requires b.Obj? && v == Obj(MembersOf(PatchSlots(b, es, NameLabels(true, names))))
    ensures Names(true, v) == Kept(true, b, es, names)
  {
    hide PatchSlots, Kept, PatchedChild;
    NamedSlots(true, b, es, names);
  }

  // ----- identities stay ---------------------------------------------------------------------------

  lemma IdentityAt(v: Json, id: string)
    requires Identity(v) == Some(id)
    ensures v.Obj? && At(v, Key("id")) == Some(Str(id)) && id != ""
  {
  }

  lemma AtGivesIdentity(v: Json, id: string)
    requires v.Obj? && At(v, Key("id")) == Some(Str(id)) && id != ""
    ensures Identity(v) == Some(id)
  {
  }

  /** Entries between values of one identity do not touch it. */
  lemma IdStays(x: Json, y: Json, es: seq<Entry>, id: string)
    requires WellFormed(x) && WellFormed(y) && Identity(x) == Some(id) && Identity(y) == Some(id)
    requires multiset(es) == multiset(Changes(x, y))
    ensures Apply(Some(x), es).Some? && Identity(Apply(Some(x), es).value) == Some(id)
  {
    hide WellFormed, At, Apply, Identity, Labels, Sub;
    IdentityAt(x, id);
    IdentityAt(y, id);
    if es == [] {
      NothingApplied(Some(x));
    } else {
      if x == y { NoneOf(es); }
      SubIs(x, y, es, Key("id"));
      NoneOf(Sub(es, Key("id")));
      ObjectPatched(x, y, es);
      NothingApplied(At(x, Key("id")));
      assert At(Apply(Some(x), es).value, Key("id")) == PatchedChild(x, es, Key("id"));
      AtGivesIdentity(Apply(Some(x), es).value, id);
    }
  }

  lemma IdentityOfChild(v: Json, id: string)
    requires At(v, Id(id)).Some?
    ensures Identity(At(v, Id(id)).value) == Some(id)
  {
  }

  /** What the entries leave at an identity has that identity. */
  lemma ChildId(b: Json, a: Json, es: seq<Entry>, id: string)
    requires WellFormed(b) && WellFormed(a) && Alike(b, a) && EntriesOf(es, b, a) && Fits(b, a, Id(id))
    requires PatchedChild(b, es, Id(id)).Some?
    ensures Identity(PatchedChild(b, es, Id(id)).value) == Some(id)
  {
    hide WellFormed, At, Apply, Identity, Labels, Sub, Fits;
    var l := Id(id);
    var x, y := At(b, l), At(a, l);
    SubIs(b, a, es, l);
    ChildWellFormed(b, l);
    ChildWellFormed(a, l);
    if x.Some? { IdentityOfChild(b, id); }
    if y.Some? { IdentityOfChild(a, id); }
    if x.None? && y.None? {
      NoneOf(Sub(es, l));
      NothingApplied(x);
    } else if x.Some? && y.Some? {
      IdStays(x.value, y.value, Sub(es, l), id);
    } else {
      SingletonMultiset(Sub(es, l), Entry([], x, y));
      WholeApplied(x, Entry([], x, y));
    }
  }

  lemma KeyedPatched(b: Json, a: Json, es: seq<Entry>)
    requires WellFormed(b) && WellFormed(a) && b.Arr? && a.Arr? && Keyed(b.items, a.items) && EntriesOf(es, b, a) && es != []
    requires Apply(Some(b), es) == Some(a)
    ensures StrictlySortedNames(IdsOf(a.items))
    ensures forall x :: At(a, Id(x)) == PatchedChild(b, es, Id(x))
  {
    hide WellFormed, At, Labels, PatchSlots, EntriesOf, Identity, StrictlySortedNames, PatchedChild, Kept;
    EntriesFit(b, a, es);
    assert es[0] in es;
    var names := AllNames(false, b, es);
    var slots := PatchSlots(b, es, NameLabels(false, names));
    var kept := Kept(false, b, es, names);
    assert a == FromSlots(b, slots);
    NamedSlots(false, b, es, names);
    forall i | 0 <= i < |kept|
      ensures Identity(a.items[i]) == Some(kept[i])
    {
      ChildId(b, a, es, kept[i]);
    }
    assert Names(false, a) == kept;
    BuiltByName(false, b, es, a);
    forall x
      ensures At(a, Id(x)) == PatchedChild(b, es, Id(x))
    {
      assert At(a, Name(false, x)) == PatchedChild(b, es, Name(false, x));
    }
  }

  // ----- by position ----------------------------------------------------------------------------------

  lemma SomeStays(x: Json, y: Json, es: seq<Entry>)
    requires WellFormed(x) && WellFormed(y) && multiset(es) == multiset(Changes(x, y))
    ensures Apply(Some(x), es).Some?
  {
    hide WellFormed, Labels, PatchSlots;
    if x == y {
      NoneOf(es);
    } else if Alike(x, y) {
      EntriesFit(x, y, es);
    } else {
      SingletonMultiset(es, Entry([], Some(x), Some(y)));
    }
  }

  /** Something is left exactly at the positions of the later array. */
  lemma LeftAt(b: Json, a: Json, es: seq<Entry>, i: nat)
    requires WellFormed(b) && WellFormed(a) && b.Arr? && a.Arr? && !Keyed(b.items, a.items) && EntriesOf(es, b, a)
    ensures PatchedChild(b, es, Index(i)).Some? <==> i < |a.items|
  {
    var l := Index(i);
    var x, y := At(b, l), At(a, l);
    assert (x.Some? <==> i < |b.items|) && (y.Some? <==> i < |a.items|);
    SubIs(b, a, es, l);
    ChildWellFormed(b, l);
    ChildWellFormed(a, l);
    hide WellFormed, At, Apply, Labels, Sub, Keyed, EntriesOf;
    if x.None? && y.None? {
      NoneOf(Sub(es, l));
      NothingApplied(x);
    } else if x.Some? && y.Some? {
      SomeStays(x.value, y.value, Sub(es, l));
    } else {
      SingletonMultiset(Sub(es, l), Entry([], x, y));
      WholeApplied(x, Entry([], x, y));
    }
  }

  /** Something is left exactly at the positions below m. */
  ghost predicate LeftBelow(b: Json, es: seq<Entry>, m: nat) {
    forall i: nat :: PatchedChild(b, es, Index(i)).Some? <==> i < m
  }

  lemma {:induction false} IndexedSlots(b: Json, es: seq<Entry>, m: nat, from: nat, to: nat)
    requires from <= to && LeftBelow(b, es, m)
    ensures |PatchSlots(b, es, IndexLabels(from, to))| == if m <= from then 0 else Min(m, to) - from
    ensures var slots := PatchSlots(b, es, IndexLabels(from, to));
      forall k: nat :: k < |slots| ==> PatchedChild(b, es, Index(from + k)) == Some(slots[k].value)
    decreases (to as int) - (from as int)
  {
    hide Apply, At, Sub;
    if from < to {
      IndexedSlots(b, es, m, from + 1, to);
      assert IndexLabels(from, to)[0] == Index(from) && IndexLabels(from, to)[1..] == IndexLabels(from + 1, to);
      assert PatchedChild(b, es, Index(from)).Some? <==> from < m;
    }
  }

  lemma IndexedPatched(b: Json, a: Json, es: seq<Entry>)
    requires WellFormed(b) && WellFormed(a) && b.Arr? && a.Arr? && !Keyed(b.items, a.items) && EntriesOf(es, b, a) && es != []
    requires Apply(Some(b), es) == Some(a)
    ensures forall i: nat :: At(a, Index(i)) == PatchedChild(b, es, Index(i))
  {
    hide WellFormed, Labels, PatchSlots, EntriesOf, Keyed, PatchedChild;
    EntriesFit(b, a, es);
    assert es[0] in es;
    var to := |b.items| + |es|;
    assert a == FromSlots(b, PatchSlots(b, es, IndexLabels(0, to)));
    forall i: nat
      ensures PatchedChild(b, es, Index(i)).Some? <==> i < |a.items|
    {
      LeftAt(b, a, es, i);
    }
    EnoughLabels(b, a, es);
    IndexedSlots(b, es, |a.items|, 0, to);
  }

  // ----- main result -----------------------------------------------------------------------------------

  lemma {:induction false} RebuiltIsCarried(b: Json, a: Json, es: seq<Entry>)
    requires WellFormed(b) && WellFormed(a) && multiset(es) == multiset(Changes(b, a))
    requires Apply(Some(b), es) == Some(a)
    ensures Carried(b, a)
    decreases b, 1
  {
    hide WellFormed, At, Labels, Apply, Sub, ChildCarried;
    if b != a && Alike(b, a) {
      if es == [] { NothingApplied(Some(b)); }
      if Changes(b, a) == [] { NoneOf(es); }
      ChildrenPatched(b, a, es);
      forall l | Fits(b, a, l)
        ensures ChildCarried(b, a, l)
      {
        RebuiltChild(b, a, es, l);
      }
    }
  }

  /** Every child of the later value is what the entries make of the earlier one's. */
  lemma ChildrenPatched(b: Json, a: Json, es: seq<Entry>)
    requires WellFormed(b) && WellFormed(a) && Alike(b, a) && EntriesOf(es, b, a) && es != [] && Apply(Some(b), es) == Some(a)
    ensures InOrder(b, a) && forall l :: Fits(b, a, l) ==> At(a, l) == PatchedChild(b, es, l)
  {
    hide WellFormed, At, Apply, PatchedChild, EntriesOf, IdsOf;
    if b.Obj? {
      ObjectPatched(b, a, es);
    } else if Keyed(b.items, a.items) {
      KeyedPatched(b, a, es);
    } else {
      IndexedPatched(b, a, es);
    }
  }

  lemma {:induction false} RebuiltChild(b: Json, a: Json, es: seq<Entry>, l: Label)
    requires WellFormed(b) && WellFormed(a) && Alike(b, a) && EntriesOf(es, b, a) && Fits(b, a, l)
    requires At(a, l) == PatchedChild(b, es, l)
    ensures ChildCarried(b, a, l)
    decreases b, 0
  {
    hide WellFormed, At, Labels, Apply, Sub, Fits, EntriesOf, Carried;
    SubIs(b, a, es, l);
    ChildWellFormed(b, l);
    ChildWellFormed(a, l);
    if l == Key(UPGRADED_FROM) {
      NoneOf(Sub(es, l));
      NothingApplied(At(b, l));
    } else if At(b, l).Some? && At(a, l).Some? {
      ChildSmaller(b, l);
      RebuiltIsCarried(At(b, l).value, At(a, l).value, Sub(es, l));
    }
  }

  /** Main result. The entries, in any order, rebuild the later value exactly when it can be carried over. */
  lemma EntriesRebuildIff(b: Json, a: Json, es: seq<Entry>)
    requires WellFormed(b) && WellFormed(a) && multiset(es) == multiset(Changes(b, a))
    ensures Apply(Some(b), es) == Some(a) <==> Carried(b, a)
  {
    hide WellFormed, Changes, Apply, Carried;
    if Carried(b, a) {
      CarriedRebuilds(b, a, es);
    }
    if Apply(Some(b), es) == Some(a) {
      RebuiltIsCarried(b, a, es);
    }
  }

  /** Canonical values are carried over to each other. */
  lemma CanonicalIsCarried(b: Json, a: Json)
    requires Canonical(b) && Canonical(a)
    ensures Carried(b, a)
  {
    hide Canonical, WellFormed, Changes, Apply, Carried;
    CanonicalIsWellFormed(b);
    CanonicalIsWellFormed(a);
    EntriesRebuild(b, a, Changes(b, a));
    RebuiltIsCarried(b, a, Changes(b, a));
  }
}
