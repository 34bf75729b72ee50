/**
 * The semantic diff of two documents (src/diff.cpp:241-426): the entries, with paths kept as lists
 * of steps, and what they amount to: a complete, reversible patch.
 */
module Differences {
  import opened Ordering
  import opened Identities
  import opened JsonValues

  /** One step of a path: an object member, an array element by identity, or by position. */
  datatype Label = Key(key: string) | Id(id: string) | Index(i: nat)

  /** A change at a path: a value that appears, disappears or is replaced. */
  datatype Entry = Entry(path: seq<Label>, before: Option<Json>, after: Option<Json>)

  const UPGRADED_FROM := "upgraded_from"

  // ----- looking inside a value ---------------------------------------------------

  function Identity(v: Json): Option<string> {
    if v.Obj? && "id" in Keys(v.members) then
      var id := v.members[IndexOf(Keys(v.members), "id")].value;
      if id.Str? && id.text != "" then Some(id.text) else None
    else None
  }

  predicate Identified(items: seq<Json>) {
    forall i :: 0 <= i < |items| ==> Identity(items[i]).Some?
  }

  function IdsOf(items: seq<Json>): (r: seq<string>)
    requires Identified(items)
    ensures |r| == |items| && forall i :: 0 <= i < |r| ==> r[i] == Identity(items[i]).value
  {
    seq(|items|, i requires 0 <= i < |items| => Identity(items[i]).value)
  }

  /** Values whose children go by name: objects by key, identified arrays by id. */
  predicate Named(byKey: bool, v: Json) {
    if byKey then v.Obj? else v.Arr? && Identified(v.items)
  }

  function Names(byKey: bool, v: Json): seq<string>
    requires Named(byKey, v)
  {
    if byKey then Keys(v.members) else IdsOf(v.items)
  }

  function Child(byKey: bool, v: Json, i: nat): Json
    requires Named(byKey, v) && i < |Names(byKey, v)|
  {
    if byKey then v.members[i].value else v.items[i]
  }

  function Name(byKey: bool, name: string): Label { if byKey then Key(name) else Id(name) }

  ghost function ByName(byKey: bool, v: Json, name: string): (r: Option<Json>)
    ensures r.Some? ==> r.value < v
  {
    if Named(byKey, v) && name in Names(byKey, v)
    then Some(Child(byKey, v, IndexOf(Names(byKey, v), name)))
    else None
  }

  ghost function At(v: Json, l: Label): (r: Option<Json>)
    ensures r.Some? ==> r.value < v
  {
    match l
    case Key(k) => ByName(true, v, k)
    case Id(id) => ByName(false, v, id)
    case Index(i) => if v.Arr? && i < |v.items| then Some(v.items[i]) else None
  }

  // ----- the entries of a pair of values --------------------------------------------

  /** Two sorted lists of names, walked with two cursors. */
  function Merge(l: seq<string>, r: seq<string>): seq<string>
    decreases |l| + |r|
  {
    if l == [] && r == [] then []
    else if r == [] || (l != [] && StrLt(l[0], r[0])) then [l[0]] + Merge(l[1..], r)
    else if l == [] || StrLt(r[0], l[0]) then [r[0]] + Merge(l, r[1..])
    else [l[0]] + Merge(l[1..], r[1..])
  }

  function NameLabels(byKey: bool, names: seq<string>): (r: seq<Label>)
    ensures |r| == |names| && forall i :: 0 <= i < |r| ==> r[i] == Name(byKey, names[i])
  {
    seq(|names|, i requires 0 <= i < |names| => Name(byKey, names[i]))
  }

  function IndexLabels(from: nat, to: nat): (r: seq<Label>)
    requires from <= to
    ensures |r| == to - from && forall i :: 0 <= i < |r| ==> r[i] == Index(from + i)
  {
    seq(to - from, i requires 0 <= i => Index(from + i))
  }

  predicate Keyed(b: seq<Json>, a: seq<Json>) {
    b != [] && a != [] && Identified(b) && Identified(a)
  }

  /** The names of an identified array in the order of std::map. */
  function SortedIds(items: seq<Json>): seq<string>
    requires Identified(items)
  {
    Unique(Sort(StrLe, IdsOf(items)))
  }

  /** Where two containers of one kind are compared: every name or position either of them has. */
  ghost function Labels(b: Json, a: Json): seq<Label>
    requires (b.Obj? && a.Obj?) || (b.Arr? && a.Arr?)
  {
    if b.Obj? then NameLabels(true, Merge(Keys(b.members), Keys(a.members)))
    else if Keyed(b.items, a.items) then NameLabels(false, Merge(SortedIds(b.items), SortedIds(a.items)))
    else IndexLabels(0, Max(|b.items|, |a.items|))
  }

  /** Entries seen from further out. */
  function Under(path: seq<Label>, es: seq<Entry>): (r: seq<Entry>)
    ensures |r| == |es|
    ensures forall i :: 0 <= i < |r| ==> r[i] == Entry(path + es[i].path, es[i].before, es[i].after)
  {
    seq(|es|, i requires 0 <= i < |es| => Entry(path + es[i].path, es[i].before, es[i].after))
  }

  /** The changes from b to a, with paths relative to them. */
  ghost function Changes(b: Json, a: Json): seq<Entry>
    decreases b, 2, 0
  {
    if b == a then []
    else if (b.Obj? && a.Obj?) || (b.Arr? && a.Arr?) then DiffLabels(b, a, Labels(b, a))
    else [Entry([], Some(b), Some(a))]
  }

  ghost function DiffLabels(b: Json, a: Json, labels: seq<Label>): seq<Entry>
    decreases b, 1, |labels|
  {
    if labels == [] then []
    else Under([labels[0]], DiffLabel(b, a, labels[0])) + DiffLabels(b, a, labels[1..])
  }

  ghost function DiffLabel(b: Json, a: Json, l: Label): seq<Entry>
    decreases b, 0, 0
  {
    if l == Key(UPGRADED_FROM) then []
    else
      match (At(b, l), At(a, l))
      case (None, None) => []
      case (Some(x), Some(y)) => Changes(x, y)
      case (x, y) => [Entry([], x, y)]
  }

  // ----- the labels a pair of containers is compared at ----------------------------------

  ghost predicate Alike(b: Json, a: Json) { (b.Obj? && a.Obj?) || (b.Arr? && a.Arr?) }

  /** The kind of label two containers are compared at. */
  ghost predicate Fits(b: Json, a: Json, l: Label) {
    match l
    case Key(_) => b.Obj? && a.Obj?
    case Id(_) => b.Arr? && a.Arr? && Keyed(b.items, a.items)
    case Index(_) => b.Arr? && a.Arr? && !Keyed(b.items, a.items)
  }

  ghost predicate StrictlySortedNames(names: seq<string>) { StrictlySorted(StrLe, names) }

  lemma TailSorted(names: seq<string>)
    requires StrictlySortedNames(names) && names != []
    ensures StrictlySortedNames(names[1..])
    ensures forall x :: x in names[1..] <==> x in names && x != names[0]
    ensures forall x :: x in names[1..] ==> StrLe(names[0], x)
  {
    hide StrLe;
    forall x
      ensures x in names[1..] <==> x in names && x != names[0]
    {
      TailMembers(StrLe, names, x);
    }
    forall x | x in names[1..]
      ensures StrLe(names[0], x)
    {
      var i :| 0 <= i < |names[1..]| && names[1..][i] == x;
      assert names[i + 1] == x;
    }
  }

  lemma ConsSorted(x: string, names: seq<string>)
    requires StrictlySortedNames(names) && forall y :: y in names ==> StrLe(x, y) && x != y
    ensures StrictlySortedNames([x] + names)
  {
    hide StrLe;
    var all := [x] + names;
    forall i, j | 0 <= i < j < |all|
      ensures StrLe(all[i], all[j]) && all[i] != all[j]
    {
      assert all[j] == names[j - 1];
      if i > 0 { assert all[i] == names[i - 1]; }
    }
  }

  /** The walk with two cursors visits every name of either list once, in order. */
  lemma {:induction false} MergeIsUnion(l: seq<string>, r: seq<string>)
    requires StrictlySortedNames(l) && StrictlySortedNames(r)
    ensures StrictlySortedNames(Merge(l, r))
    ensures forall x :: x in Merge(l, r) <==> x in l || x in r
    decreases |l| + |r|
  {
    hide StrLe, StrictlySortedNames;
    StrLeIsTotalOrder();
    if l == [] && r == [] {
      assert StrictlySortedNames([]) by { assert l == []; }
    } else if r == [] || (l != [] && StrLt(l[0], r[0])) {
      TailSorted(l);
      if r != [] { TailSorted(r); }
      MergeIsUnion(l[1..], r);
      ConsSorted(l[0], Merge(l[1..], r));
    } else if l == [] || StrLt(r[0], l[0]) {
      TailSorted(r);
      if l != [] { TailSorted(l); }
      MergeIsUnion(l, r[1..]);
      ConsSorted(r[0], Merge(l, r[1..]));
    } else {
      TailSorted(l);
      TailSorted(r);
      MergeIsUnion(l[1..], r[1..]);
      ConsSorted(l[0], Merge(l[1..], r[1..]));
    }
  }

  lemma SortedIdsAre(items: seq<Json>)
    requires Identified(items)
    ensures StrictlySortedNames(SortedIds(items))
    ensures forall x :: x in SortedIds(items) <==> x in IdsOf(items)
  {
    StrLeIsTotalOrder();
    SortUnique(StrLe, IdsOf(items));
  }

  /** The two lists of names that are merged. */
  ghost function SortedNames(byKey: bool, v: Json): seq<string>
    requires Named(byKey, v)
  {
    if byKey then Keys(v.members) else SortedIds(v.items)
  }

  lemma SortedNamesAre(byKey: bool, v: Json)
    requires WellFormed(v) && Named(byKey, v)
    ensures StrictlySortedNames(SortedNames(byKey, v))
    ensures forall x :: x in SortedNames(byKey, v) <==> x in Names(byKey, v)
  {
    if !byKey { SortedIdsAre(v.items); }
  }

  ghost predicate Distinct<T>(s: seq<T>) { forall i, j :: 0 <= i < j < |s| ==> s[i] != s[j] }

  lemma NameLabelsDistinct(byKey: bool, names: seq<string>)
    requires StrictlySortedNames(names)
    ensures Distinct(NameLabels(byKey, names))
    ensures forall l :: l in NameLabels(byKey, names) <==> exists x :: x in names && l == Name(byKey, x)
  {
    hide StrLe;
    var labels := NameLabels(byKey, names);
    forall l | exists x :: x in names && l == Name(byKey, x)
      ensures l in labels
    {
      var x :| x in names && l == Name(byKey, x);
      var i :| 0 <= i < |names| && names[i] == x;
      assert labels[i] == l;
    }
  }

  lemma NameInLabels(byKey: bool, names: seq<string>, x: string)
    requires StrictlySortedNames(names)
    ensures Name(byKey, x) in NameLabels(byKey, names) <==> x in names
  {
    NameLabelsDistinct(byKey, names);
  }

  lemma {:induction false} NamedLabels(byKey: bool, b: Json, a: Json)
    requires WellFormed(b) && WellFormed(a) && Named(byKey, b) && Named(byKey, a)
    requires Labels(b, a) == NameLabels(byKey, Merge(SortedNames(byKey, b), SortedNames(byKey, a)))
    ensures Distinct(Labels(b, a))
    ensures forall l :: l in Labels(b, a) ==> exists x :: l == Name(byKey, x)
    ensures forall x :: Name(byKey, x) in Labels(b, a) <==> At(b, Name(byKey, x)).Some? || At(a, Name(byKey, x)).Some?
  {
    hide StrLe, SortedNames, Labels, Merge;
    SortedNamesAre(byKey, b);
    SortedNamesAre(byKey, a);
    MergeIsUnion(SortedNames(byKey, b), SortedNames(byKey, a));
    var names := Merge(SortedNames(byKey, b), SortedNames(byKey, a));
    NameLabelsDistinct(byKey, names);
    forall x
      ensures Name(byKey, x) in Labels(b, a) <==> At(b, Name(byKey, x)).Some? || At(a, Name(byKey, x)).Some?
    {
      NameInLabels(byKey, names, x);
    }
  }

  /** The labels are, once each, the labels of the fitting kind at which either container has a child. */
  lemma LabelsCover(b: Json, a: Json)
    requires WellFormed(b) && WellFormed(a) && Alike(b, a)
    ensures Distinct(Labels(b, a))
    ensures forall l :: l in Labels(b, a) <==> Fits(b, a, l) && (At(b, l).Some? || At(a, l).Some?)
  {
    var labels := Labels(b, a);
    if b.Obj? {
      NamedLabels(true, b, a);
      forall l
        ensures l in labels <==> Fits(b, a, l) && (At(b, l).Some? || At(a, l).Some?)
      {
        if l.Key? { assert l == Name(true, l.key); }
      }
    } else if Keyed(b.items, a.items) {
      NamedLabels(false, b, a);
      forall l
        ensures l in labels <==> Fits(b, a, l) && (At(b, l).Some? || At(a, l).Some?)
      {
        if l.Id? { assert l == Name(false, l.id); }
      }
    } else {
      forall l | Fits(b, a, l) && (At(b, l).Some? || At(a, l).Some?)
        ensures l in labels
      {
        assert labels[l.i] == l;
      }
    }
  }
}
