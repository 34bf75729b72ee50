/** Applying the entries of a diff, and that doing so rebuilds the later value (src/diff.cpp:283-426). */
module PatchApply {
  import opened Ordering
  import opened Identities
  import opened JsonValues
  import opened Differences
  import opened Patch

  // ----- applying entries -----------------------------------------------------------

  /** The entries under a label, seen from there. */
  function Sub(es: seq<Entry>, l: Label): seq<Entry> {
    if es == [] then [] else Stripped(es[0], l) + Sub(es[1..], l)
  }

  function Stripped(e: Entry, l: Label): seq<Entry> {
    if e.path != [] && e.path[0] == l then [e.(path := e.path[1..])] else []
  }

  /** The first entry about the value itself. */
  function Whole(es: seq<Entry>): Option<Entry> {
    if es == [] then None
    else if es[0].path == [] then Some(es[0])
    else Whole(es[1..])
  }

  predicate IsName(byKey: bool, l: Label) { if byKey then l.Key? else l.Id? }

  function NameOf(l: Label): string
    requires !l.Index?
  {
    if l.Key? then l.key else l.id
  }

  /** The names the entries mention first. */
  function HeadNames(byKey: bool, es: seq<Entry>): seq<string> {
    if es == [] then []
    else
      (if es[0].path != [] && IsName(byKey, es[0].path[0]) then [NameOf(es[0].path[0])] else [])
      + HeadNames(byKey, es[1..])
  }

  /** Every name of the value or of the entries, in order. */
  function AllNames(byKey: bool, v: Json, es: seq<Entry>): seq<string>
    requires Named(byKey, v)
  {
    Unique(Sort(StrLe, Names(byKey, v) + HeadNames(byKey, es)))
  }

  datatype Slot = Slot(at: Label, value: Json)

  function MembersOf(slots: seq<Slot>): (r: seq<Member>)
    ensures |r| == |slots|
    ensures forall i :: 0 <= i < |r| ==> r[i] == Member(if slots[i].at.Key? then slots[i].at.key else "", slots[i].value)
  {
    seq(|slots|, i requires 0 <= i < |slots| =>
      Member(if slots[i].at.Key? then slots[i].at.key else "", slots[i].value))
  }

  function ItemsOf(slots: seq<Slot>): (r: seq<Json>)
    ensures |r| == |slots| && forall i :: 0 <= i < |r| ==> r[i] == slots[i].value
  {
    seq(|slots|, i requires 0 <= i < |slots| => slots[i].value)
  }

  /** The labels a patched container may have children at. */
  ghost function PatchLabels(v: Json, es: seq<Entry>): seq<Label> {
    if v.Obj? then NameLabels(true, AllNames(true, v, es))
    else if Named(false, v) && es != [] && es[0].path != [] && es[0].path[0].Id? then
      NameLabels(false, AllNames(false, v, es))
    else if v.Arr? then IndexLabels(0, |v.items| + |es|)
    else []
  }

  ghost function FromSlots(v: Json, slots: seq<Slot>): Json {
    if v.Obj? then Obj(MembersOf(slots)) else if v.Arr? then Arr(ItemsOf(slots)) else v
  }

  /** The value, if any, that the entries turn an optional value into. */
  ghost function Apply(o: Option<Json>, es: seq<Entry>): Option<Json>
    decreases o.Some?, if o.Some? then o.value else Null, 2, 0
  {
    if Whole(es).Some? then Whole(es).value.after
    else if o.None? || es == [] then o
    else Some(FromSlots(o.value, PatchSlots(o.value, es, PatchLabels(o.value, es))))
  }

  ghost function PatchSlots(v: Json, es: seq<Entry>, labels: seq<Label>): seq<Slot>
    decreases true, v, 1, |labels|
  {
    if labels == [] then []
    else
      (match Apply(At(v, labels[0]), Sub(es, labels[0]))
       case None => []
       case Some(x) => [Slot(labels[0], x)])
      + PatchSlots(v, es, labels[1..])
  }

  // ----- the children of a value determine it ------------------------------------------

  /** Identified arrays strictly sorted by id, members strictly sorted by key, no upgrade marks. */
  ghost predicate Canonical(v: Json) {
    match v
    case Arr(items) =>
      && (Identified(items) ==> StrictlySortedNames(IdsOf(items)))
      && forall i :: 0 <= i < |items| ==> Canonical(items[i])
    case Obj(members) =>
      && StrictlySortedNames(Keys(members)) && UPGRADED_FROM !in Keys(members)
      && forall i :: 0 <= i < |members| ==> Canonical(members[i].value)
    case _ => true
  }

  lemma {:induction false} CanonicalIsWellFormed(v: Json)
    requires Canonical(v)
    ensures WellFormed(v)
  {
    match v
    case Arr(items) =>
      forall i | 0 <= i < |items|
        ensures WellFormed(items[i])
      {
        CanonicalIsWellFormed(items[i]);
      }
    case Obj(members) =>
      forall i | 0 <= i < |members|
        ensures WellFormed(members[i].value)
      {
        CanonicalIsWellFormed(members[i].value);
      }
    case _ =>
  }

  ghost function Slots(v: Json, labels: seq<Label>): seq<Slot> {
    if labels == [] then []
    else
      (match At(v, labels[0]) case None => [] case Some(x) => [Slot(labels[0], x)])
      + Slots(v, labels[1..])
  }

  /** All the children of a value with names, in their own order. */
  function AllSlots(byKey: bool, v: Json): (r: seq<Slot>)
    requires Named(byKey, v)
    ensures |r| == |Names(byKey, v)|
    ensures forall i :: 0 <= i < |r| ==> r[i] == Slot(Name(byKey, Names(byKey, v)[i]), Child(byKey, v, i))
  {
    seq(|Names(byKey, v)|, i requires 0 <= i < |Names(byKey, v)| => Slot(Name(byKey, Names(byKey, v)[i]), Child(byKey, v, i)))
  }

  /** Of the names ns, exactly those from j on are among the given ones. */
  ghost predicate Remaining(ns: seq<string>, j: nat, names: seq<string>) {
    && j <= |ns|
    && (forall i :: j <= i < |ns| ==> ns[i] in names)
    && forall i :: 0 <= i < j ==> ns[i] !in names
  }

  /** Taking the least name away takes away the first of those remaining, or none. */
  lemma RemainingAfter(ns: seq<string>, j: nat, names: seq<string>)
    requires StrictlySortedNames(ns) && StrictlySortedNames(names) && names != [] && Remaining(ns, j, names)
    ensures names[0] in ns ==> j < |ns| && ns[j] == names[0] && Remaining(ns, j + 1, names[1..])
    ensures names[0] !in ns ==> Remaining(ns, j, names[1..])
  {
    hide StrLe;
    TailSorted(names);
    if names[0] in ns {
      StrLeIsTotalOrder();
      var i :| 0 <= i < |ns| && ns[i] == names[0];
      HeadIsLeast(StrLe, names, ns[j]);
      assert StrLe(names[0], ns[j]) && StrLe(ns[j], ns[i]);
    }
  }

  lemma SplitFirst<T>(s: seq<T>, j: nat)
    requires j < |s|
    ensures s[j..] == [s[j]] + s[j + 1..]
  {
  }

  lemma NameLabelsTail(byKey: bool, names: seq<string>)
    requires names != []
    ensures NameLabels(byKey, names)[0] == Name(byKey, names[0])
    ensures NameLabels(byKey, names)[1..] == NameLabels(byKey, names[1..])
  {
    hide Name;
  }

  lemma AtName(byKey: bool, v: Json, name: string)
    requires Named(byKey, v)
    ensures At(v, Name(byKey, name))
         == if name in Names(byKey, v) then Some(Child(byKey, v, IndexOf(Names(byKey, v), name))) else None
  {
  }

  /** Looking a value up at every name of a sorted list that covers its own gives its children in order. */
  lemma {:induction false} NamedSlotsFrom(byKey: bool, v: Json, names: seq<string>, j: nat)
    requires Named(byKey, v) && StrictlySortedNames(Names(byKey, v)) && StrictlySortedNames(names)
    requires Remaining(Names(byKey, v), j, names)
    ensures j <= |Names(byKey, v)| && Slots(v, NameLabels(byKey, names)) == AllSlots(byKey, v)[j..]
    decreases |names|
  {
    hide StrLe, StrictlySortedNames, Names, At, Child, Name, IndexOf;
    var ns := Names(byKey, v);
    if j < |ns| {
      assert ns[j] in names;
    }
    if names != [] {
      TailSorted(names);
      RemainingAfter(ns, j, names);
      hide Remaining;
      NameLabelsTail(byKey, names);
      AtName(byKey, v, names[0]);
      if names[0] in ns {
        NamesDistinct(ns);
        NamedSlotsFrom(byKey, v, names[1..], j + 1);
        SplitFirst(AllSlots(byKey, v), j);
      } else {
        NamedSlotsFrom(byKey, v, names[1..], j);
      }
    }
  }

  lemma NamesDistinct(ns: seq<string>)
    requires StrictlySortedNames(ns)
    ensures forall i, j :: 0 <= i < j < |ns| ==> ns[i] != ns[j]
    ensures forall i :: 0 <= i < |ns| ==> IndexOf(ns, ns[i]) == i
  {
    hide StrLe;
    forall i | 0 <= i < |ns|
      ensures IndexOf(ns, ns[i]) == i
    {
      var k := IndexOf(ns, ns[i]);
      assert forall m :: 0 <= m < k ==> ns[..k][m] == ns[m];
    }
  }

  function From<T>(s: seq<T>, i: nat): seq<T> { if i < |s| then s[i..] else [] }

  lemma {:induction false} IndexSlotsFrom(v: Json, from: nat, to: nat)
    requires v.Arr? && |v.items| <= to && from <= to
    ensures ItemsOf(Slots(v, IndexLabels(from, to))) == From(v.items, from)
    decreases (to as int) - (from as int)
  {
    if from < to {
      IndexSlotsFrom(v, from + 1, to);
      assert IndexLabels(from, to)[1..] == IndexLabels(from + 1, to);
    }
  }

  // ----- the entries under a label -----------------------------------------------------

  function Lift(l: Label, e: Entry): Entry { Entry([l] + e.path, e.before, e.after) }

  lemma {:induction false} SubCounts(es: seq<Entry>, l: Label, e: Entry)
    ensures multiset(Sub(es, l))[e] == multiset(es)[Lift(l, e)]
  {
    hide Stripped, Lift;
    if es != [] {
      SubCounts(es[1..], l, e);
      assert es == [es[0]] + es[1..];
      StrippedCounts(es[0], l, e);
    }
  }

  lemma StrippedCounts(x: Entry, l: Label, e: Entry)
    ensures multiset(Stripped(x, l))[e] == multiset([x])[Lift(l, e)]
  {
    if x.path != [] && x.path[0] == l {
      var inner := x.(path := x.path[1..]);
      assert x.path == [l] + inner.path;
      assert inner == e <==> x == Lift(l, e);
    }
  }

  /** Rearranging the entries rearranges those under each label. */
  lemma SubPermutes(x: seq<Entry>, y: seq<Entry>, l: Label)
    requires multiset(x) == multiset(y)
    ensures multiset(Sub(x, l)) == multiset(Sub(y, l))
  {
    forall e
      ensures multiset(Sub(x, l))[e] == multiset(Sub(y, l))[e]
    {
      SubCounts(x, l, e);
      SubCounts(y, l, e);
    }
  }

  lemma Regroup<T>(x: seq<T>, y: seq<T>, z: seq<T>)
    ensures x + (y + z) == (x + y) + z
  {
  }

  lemma {:induction false} SubConcat(x: seq<Entry>, y: seq<Entry>, l: Label)
    ensures Sub(x + y, l) == Sub(x, l) + Sub(y, l)
  {
    hide Stripped;
    if x == [] {
      assert x + y == y;
    } else {
      SubConcat(x[1..], y, l);
      assert (x + y)[0] == x[0] && (x + y)[1..] == x[1..] + y;
      Regroup(Stripped(x[0], l), Sub(x[1..], l), Sub(y, l));
    }
  }

  lemma {:induction false} SubUnder(x: seq<Entry>, at: Label, l: Label)
    ensures Sub(Under([at], x), l) == if l == at then x else []
  {
    if x != [] {
      SubUnder(x[1..], at, l);
      var lifted := Under([at], x);
      assert lifted[1..] == Under([at], x[1..]);
      assert lifted[0].path == [at] + x[0].path && lifted[0].path[1..] == x[0].path;
      assert x == [x[0]] + x[1..];
    }
  }

  lemma {:induction false} SubOfLabels(b: Json, a: Json, labels: seq<Label>, l: Label)
    requires Distinct(labels)
    ensures Sub(DiffLabels(b, a, labels), l) == if l in labels then DiffLabel(b, a, l) else []
  {
    hide DiffLabel;
    if labels != [] {
      var at, rest := labels[0], labels[1..];
      SubOfLabels(b, a, rest, l);
      SubConcat(Under([at], DiffLabel(b, a, at)), DiffLabels(b, a, rest), l);
      SubUnder(DiffLabel(b, a, at), at, l);
      assert labels == [at] + rest && at !in rest;
    }
  }

  lemma {:induction false} LabelledEntries(b: Json, a: Json, labels: seq<Label>, e: Entry)
    requires e in DiffLabels(b, a, labels)
    ensures e.path != [] && e.path[0] in labels
  {
    hide DiffLabel;
    if e !in Under([labels[0]], DiffLabel(b, a, labels[0])) {
      LabelledEntries(b, a, labels[1..], e);
    }
  }

  lemma {:induction false} NoWhole(es: seq<Entry>)
    requires forall e :: e in es ==> e.path != []
    ensures Whole(es).None?
  {
    if es != [] {
      NoWhole(es[1..]);
    }
  }

  lemma {:induction false} HeadMentioned(byKey: bool, es: seq<Entry>, name: string)
    requires Sub(es, Name(byKey, name)) != []
    ensures name in HeadNames(byKey, es)
  {
    if !(es[0].path != [] && es[0].path[0] == Name(byKey, name)) {
      HeadMentioned(byKey, es[1..], name);
    }
  }

  // ----- rebuilding ------------------------------------------------------------------------

  ghost predicate EntriesOf(es: seq<Entry>, b: Json, a: Json)
    requires Alike(b, a)
  {
    multiset(es) == multiset(DiffLabels(b, a, Labels(b, a)))
  }

  ghost predicate TurnsInto(b: Json, a: Json, es: seq<Entry>, l: Label) {
    Apply(At(b, l), Sub(es, l)) == At(a, l)
  }

  lemma {:induction false} SlotsAgree(b: Json, a: Json, es: seq<Entry>, labels: seq<Label>)
    requires forall l :: l in labels ==> TurnsInto(b, a, es, l)
    ensures PatchSlots(b, es, labels) == Slots(a, labels)
  {
    hide At, Apply;
    if labels != [] {
      assert TurnsInto(b, a, es, labels[0]);
      SlotsAgree(b, a, es, labels[1..]);
    }
  }

  lemma SingletonMultiset<T>(s: seq<T>, x: T)
    requires multiset(s) == multiset([x])
    ensures s == [x]
  {
    assert |s| == |multiset(s)| == 1;
    assert s[0] in multiset(s);
  }

  lemma {:induction false} SlotsSame(b: Json, a: Json, labels: seq<Label>)
    requires forall l :: l in labels ==> At(b, l) == At(a, l)
    ensures Slots(b, labels) == Slots(a, labels)
  {
    hide At;
    if labels != [] {
      SlotsSame(b, a, labels[1..]);
    }
  }

  lemma FromNamed(byKey: bool, v: Json, names: seq<string>)
    requires Named(byKey, v) && StrictlySortedNames(Names(byKey, v)) && StrictlySortedNames(names)
    requires forall x :: x in Names(byKey, v) ==> x in names
    ensures FromSlots(v, Slots(v, NameLabels(byKey, names))) == v
  {
    hide StrLe;
    NamedSlotsFrom(byKey, v, names, 0);
    var slots := AllSlots(byKey, v);
    assert byKey ==> MembersOf(slots) == v.members;
    assert !byKey ==> ItemsOf(slots) == v.items;
  }

  lemma FromIndexed(v: Json, to: nat)
    requires v.Arr? && |v.items| <= to
    ensures FromSlots(v, Slots(v, IndexLabels(0, to))) == v
  {
    IndexSlotsFrom(v, 0, to);
  }

  /** Containers with the same children are equal. */
  lemma AlikeEqual(b: Json, a: Json)
    requires Canonical(b) && Canonical(a) && Alike(b, a)
    requires forall l :: Fits(b, a, l) ==> At(b, l) == At(a, l)
    ensures b == a
  {
    hide StrLe, Merge, At, Slots;
    CanonicalIsWellFormed(b);
    CanonicalIsWellFormed(a);
    var labels := Labels(b, a);
    LabelsCover(b, a);
    SlotsSame(b, a, labels);
    if b.Obj? {
      var names := Merge(Keys(b.members), Keys(a.members));
      MergeIsUnion(Keys(b.members), Keys(a.members));
      FromNamed(true, b, names);
      FromNamed(true, a, names);
    } else if Keyed(b.items, a.items) {
      var names := Merge(SortedIds(b.items), SortedIds(a.items));
      SortedIdsAre(b.items);
      SortedIdsAre(a.items);
      MergeIsUnion(SortedIds(b.items), SortedIds(a.items));
      FromNamed(false, b, names);
      FromNamed(false, a, names);
    } else {
      FromIndexed(b, Max(|b.items|, |a.items|));
      FromIndexed(a, Max(|b.items|, |a.items|));
    }
  }

  lemma EntriesFit(b: Json, a: Json, es: seq<Entry>)
    requires WellFormed(b) && WellFormed(a) && Alike(b, a) && EntriesOf(es, b, a)
    ensures Whole(es).None?
    ensures forall e :: e in es ==> e.path != [] && Fits(b, a, e.path[0])
  {
    LabelsCover(b, a);
    MultisetMembers(es, DiffLabels(b, a, Labels(b, a)));
    forall e | e in es
      ensures e.path != [] && Fits(b, a, e.path[0])
    {
      LabelledEntries(b, a, Labels(b, a), e);
    }
    NoWhole(es);
  }

  lemma NothingIsMentioned(byKey: bool, b: Json, a: Json, es: seq<Entry>, x: string)
    requires Named(byKey, b) && Named(byKey, a) && x in Names(byKey, a)
    requires TurnsInto(b, a, es, Name(byKey, x))
    ensures x in AllNames(byKey, b, es)
  {
    hide StrLe;
    var l := Name(byKey, x);
    AtName(byKey, b, x);
    AtName(byKey, a, x);
    if x !in Names(byKey, b) {
      assert Sub(es, l) != [];
      HeadMentioned(byKey, es, x);
    }
    StrLeIsTotalOrder();
    SortUnique(StrLe, Names(byKey, b) + HeadNames(byKey, es));
  }

  /** At every name, the entries turn the one container's child into the other's; so they rebuild it. */
  lemma RebuildsNamed(byKey: bool, b: Json, a: Json, es: seq<Entry>)
    requires Named(byKey, b) && Named(byKey, a) && StrictlySortedNames(Names(byKey, a))
    requires forall x :: TurnsInto(b, a, es, Name(byKey, x))
    ensures FromSlots(b, PatchSlots(b, es, NameLabels(byKey, AllNames(byKey, b, es)))) == a
  {
    hide StrLe, TurnsInto, Names;
    var names := AllNames(byKey, b, es);
    StrLeIsTotalOrder();
    SortUnique(StrLe, Names(byKey, b) + HeadNames(byKey, es));
    forall x | x in Names(byKey, a)
      ensures x in names
    {
      assert TurnsInto(b, a, es, Name(byKey, x));
      NothingIsMentioned(byKey, b, a, es, x);
    }
    NameLabelsDistinct(byKey, names);
    SlotsAgree(b, a, es, NameLabels(byKey, names));
    FromNamed(byKey, a, names);
  }

  lemma {:induction false} AddedCount(b: Json, a: Json, from: nat, to: nat)
    requires b.Arr? && a.Arr? && from <= to && to == Max(|b.items|, |a.items|)
    ensures |DiffLabels(b, a, IndexLabels(from, to))| >= |a.items| - Max(from, |b.items|)
    decreases (to as int) - (from as int)
  {
    if from < to {
      AddedCount(b, a, from + 1, to);
      assert IndexLabels(from, to)[1..] == IndexLabels(from + 1, to);
    }
  }

  /** The entries leave room for every added element. */
  lemma EnoughLabels(b: Json, a: Json, es: seq<Entry>)
    requires b.Arr? && a.Arr? && !Keyed(b.items, a.items) && EntriesOf(es, b, a)
    ensures |a.items| <= |b.items| + |es|
  {
    hide Keyed, DiffLabels;
    AddedCount(b, a, 0, Max(|b.items|, |a.items|));
    assert |es| == |multiset(es)| == |DiffLabels(b, a, Labels(b, a))|;
  }

  lemma RebuildsIndexed(b: Json, a: Json, es: seq<Entry>)
    requires b.Arr? && a.Arr? && !Keyed(b.items, a.items) && EntriesOf(es, b, a)
    requires forall i: nat :: TurnsInto(b, a, es, Index(i))
    ensures FromSlots(b, PatchSlots(b, es, IndexLabels(0, |b.items| + |es|))) == a
  {
    hide TurnsInto, Keyed, EntriesOf, PatchSlots;
    var labels := IndexLabels(0, |b.items| + |es|);
    EnoughLabels(b, a, es);
    forall l | l in labels
      ensures TurnsInto(b, a, es, l)
    {
      assert TurnsInto(b, a, es, Index(l.i));
    }
    SlotsAgree(b, a, es, labels);
    FromIndexed(a, |b.items| + |es|);
  }

  lemma NoEntries(b: Json, a: Json)
    requires Canonical(b) && Canonical(a) && Alike(b, a)
    requires forall l :: Fits(b, a, l) ==> TurnsInto(b, a, [], l)
    ensures b == a
  {
    forall l | Fits(b, a, l)
      ensures At(b, l) == At(a, l)
    {
      assert TurnsInto(b, a, [], l);
    }
    AlikeEqual(b, a);
  }

  /** Identified arrays that are compared by identity are strictly sorted by it in the later value. */
  ghost predicate InOrder(b: Json, a: Json) {
    b.Arr? && a.Arr? && Keyed(b.items, a.items) ==> StrictlySortedNames(IdsOf(a.items))
  }

  lemma RebuildsContainer(b: Json, a: Json, es: seq<Entry>)
    requires WellFormed(b) && WellFormed(a) && Alike(b, a) && EntriesOf(es, b, a) && InOrder(b, a)
    requires es == [] ==> b == a
    requires forall l :: Fits(b, a, l) ==> TurnsInto(b, a, es, l)
    ensures Apply(Some(b), es) == Some(a)
  {
    hide TurnsInto, PatchSlots, FromSlots, EntriesOf;
    EntriesFit(b, a, es);
    if es != [] {
      assert es[0] in es;
      if b.Obj? {
        forall x
          ensures TurnsInto(b, a, es, Name(true, x))
        {
          assert Fits(b, a, Key(x));
        }
        RebuildsNamed(true, b, a, es);
      } else if Keyed(b.items, a.items) {
        forall x
          ensures TurnsInto(b, a, es, Name(false, x))
        {
          assert Fits(b, a, Id(x));
        }
        RebuildsNamed(false, b, a, es);
      } else {
        forall i: nat
          ensures TurnsInto(b, a, es, Index(i))
        {
          assert Fits(b, a, Index(i));
        }
        RebuildsIndexed(b, a, es);
      }
    }
  }

  lemma RebuildsCanonical(b: Json, a: Json, es: seq<Entry>)
    requires Canonical(b) && Canonical(a) && Alike(b, a) && EntriesOf(es, b, a)
    requires forall l :: Fits(b, a, l) ==> TurnsInto(b, a, es, l)
    ensures Apply(Some(b), es) == Some(a)
  {
    assert InOrder(b, a);
    hide TurnsInto, Canonical, EntriesOf, WellFormed, Fits, InOrder, Apply;
    CanonicalIsWellFormed(b);
    CanonicalIsWellFormed(a);
    if es == [] {
      NoEntries(b, a);
    }
    RebuildsContainer(b, a, es);
  }

  lemma ChildCanonical(v: Json, l: Label)
    requires Canonical(v)
    ensures At(v, l).Some? ==> Canonical(At(v, l).value)
    ensures l == Key(UPGRADED_FROM) ==> At(v, l).None?
  {
  }

  lemma {:induction false} ChildTurnsInto(b: Json, a: Json, es: seq<Entry>, l: Label)
    requires Canonical(b) && Canonical(a) && Alike(b, a) && EntriesOf(es, b, a) && Fits(b, a, l)
    ensures TurnsInto(b, a, es, l)
    decreases b, 0
  {
    hide Canonical, At, WellFormed, PatchSlots, FromSlots, PatchLabels, Fits;
    CanonicalIsWellFormed(b);
    CanonicalIsWellFormed(a);
    LabelsCover(b, a);
    ChildCanonical(b, l);
    ChildCanonical(a, l);
    SubPermutes(es, DiffLabels(b, a, Labels(b, a)), l);
    SubOfLabels(b, a, Labels(b, a), l);
    var x, y := At(b, l), At(a, l);
    if x.Some? && y.Some? {
      ChildSmaller(b, l);
      EntriesRebuild(x.value, y.value, Sub(es, l));
    } else if l in Labels(b, a) {
      SingletonMultiset(Sub(es, l), Entry([], x, y));
    } else {
      assert |Sub(es, l)| == |multiset(Sub(es, l))| == 0;
    }
  }

  /** The entries, applied in any order, rebuild the later value from the earlier one. */
  lemma {:induction false} EntriesRebuild(b: Json, a: Json, es: seq<Entry>)
    requires Canonical(b) && Canonical(a)
    requires multiset(es) == multiset(Changes(b, a))
    ensures Apply(Some(b), es) == Some(a)
    decreases b, 1
  {
    hide Canonical, At, PatchSlots, FromSlots, PatchLabels;
    if b == a {
      assert |es| == |multiset(es)| == 0;
    } else if Alike(b, a) {
      forall l | Fits(b, a, l)
        ensures TurnsInto(b, a, es, l)
      {
        ChildTurnsInto(b, a, es, l);
      }
      RebuildsCanonical(b, a, es);
    } else {
      SingletonMultiset(es, Entry([], Some(b), Some(a)));
    }
  }

  /** Read backwards, they rebuild the earlier value from the later one. */
  lemma EntriesRevert(b: Json, a: Json, es: seq<Entry>)
    requires Canonical(b) && Canonical(a)
    requires multiset(es) == multiset(Changes(b, a))
    ensures Apply(Some(a), Mirrored(es)) == Some(b)
  {
    CanonicalIsWellFormed(b);
    CanonicalIsWellFormed(a);
    SwapMirrors(b, a);
    forall e
      ensures multiset(Mirrored(es))[e] == multiset(Mirrored(Changes(b, a)))[e]
    {
      MirroredCounts(es, e);
      MirroredCounts(Changes(b, a), e);
    }
    assert multiset(Mirrored(es)) == multiset(Mirrored(Changes(b, a)));
    EntriesRebuild(a, b, Mirrored(es));
  }

  function Flip(e: Entry): Entry { Entry(e.path, e.after, e.before) }

  lemma {:induction false} MirroredCounts(es: seq<Entry>, e: Entry)
    ensures multiset(Mirrored(es))[e] == multiset(es)[Flip(e)]
  {
    hide Flip;
    if es != [] {
      MirroredCounts(es[1..], e);
      MirroredFirst(es);
      FlipsBack(es[0], e);
      CountsFirst(Mirrored(es), e);
      CountsFirst(es, Flip(e));
    }
  }

  lemma CountsFirst<T>(s: seq<T>, x: T)
    requires s != []
    ensures multiset(s)[x] == (if s[0] == x then 1 else 0) + multiset(s[1..])[x]
  {
    assert s == [s[0]] + s[1..];
  }

  lemma FlipsBack(x: Entry, e: Entry)
    ensures Flip(x) == e <==> x == Flip(e)
  {
  }

  lemma MirroredFirst(es: seq<Entry>)
    requires es != []
    ensures Mirrored(es) != [] && Mirrored(es)[0] == Flip(es[0]) && Mirrored(es)[1..] == Mirrored(es[1..])
  {
  }

  /** Between canonical values there are no entries exactly when they are equal. */
  lemma NoEntriesIffEqual(b: Json, a: Json)
    requires Canonical(b) && Canonical(a)
    ensures Changes(b, a) == [] <==> b == a
  {
    if Changes(b, a) == [] {
      EntriesRebuild(b, a, []);
    }
  }

  // ----- what the condition shuts out ------------------------------------------------------

  function WithId(id: string): Json { Obj([Member("id", Str(id))]) }

  lemma IdentityOf(id: string)
    ensures WellFormed(WithId(id)) && (id != "" ==> Identity(WithId(id)) == Some(id))
  {
    assert Keys([Member("id", Str(id))]) == ["id"];
  }

  lemma PairAt(x: string, y: string, id: string)
    requires x != "" && y != ""
    ensures var pair := Arr([WithId(x), WithId(y)]);
      && WellFormed(pair) && Identified(pair.items)
      && At(pair, Id(id)) == if id == x then Some(WithId(x)) else if id == y then Some(WithId(y)) else None
  {
    hide WithId;
    IdentityOf(x);
    IdentityOf(y);
    assert IdsOf([WithId(x), WithId(y)]) == [x, y];
    assert y in [x, y][1..] && IndexOf([x, y][1..], y) == 0;
  }

  /** Identified elements in another order differ without an entry. */
  lemma OrderGoesUnseen(x: string, y: string)
    requires x != "" && y != "" && x != y
    ensures Arr([WithId(x), WithId(y)]) != Arr([WithId(y), WithId(x)])
    ensures Changes(Arr([WithId(x), WithId(y)]), Arr([WithId(y), WithId(x)])) == []
  {
    assert WithId(x) != WithId(y);
    hide WithId;
    var xy, yx := Arr([WithId(x), WithId(y)]), Arr([WithId(y), WithId(x)]);
    PairAt(x, y, x);
    PairAt(y, x, x);
    hide At, Identified, WellFormed;
    forall l | Fits(xy, yx, l)
      ensures SameAt(xy, yx, l)
    {
      PairAt(x, y, l.id);
      PairAt(y, x, l.id);
    }
    NoEntriesIffSame(xy, yx);
  }

  /** So do repetitions of an identity. */
  lemma RepetitionGoesUnseen(x: string)
    requires x != ""
    ensures Arr([WithId(x), WithId(x)]) != Arr([WithId(x)])
    ensures Changes(Arr([WithId(x), WithId(x)]), Arr([WithId(x)])) == []
  {
    assert |[WithId(x), WithId(x)]| != |[WithId(x)]|;
    hide WithId;
    var xx, one := Arr([WithId(x), WithId(x)]), Arr([WithId(x)]);
    PairAt(x, x, x);
    OneAt(x, x);
    hide At, Identified, WellFormed;
    forall l | Fits(xx, one, l)
      ensures SameAt(xx, one, l)
    {
      PairAt(x, x, l.id);
      OneAt(x, l.id);
    }
    NoEntriesIffSame(xx, one);
  }

  lemma OneAt(x: string, id: string)
    requires x != ""
    ensures var one := Arr([WithId(x)]);
      && WellFormed(one) && Identified(one.items)
      && At(one, Id(id)) == if id == x then Some(WithId(x)) else None
  {
    hide WithId;
    IdentityOf(x);
    assert IdsOf([WithId(x)]) == [x];
  }
}
