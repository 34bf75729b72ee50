/** The recursive walk that emits the entries (src/diff.cpp:283-426), proved against Changes. */
module DiffWalk {
  import opened Ordering
  import opened Identities
  import opened JsonValues
  import opened Differences

  // ----- two cursors over sorted names ----------------------------------------------

  /** What either cursor has passed is not ahead of the other. */
  ghost predicate Apart(ls: seq<string>, rs: seq<string>, i: nat, j: nat) {
    && i <= |ls| && j <= |rs|
    && (forall x, y :: 0 <= x < i && j <= y < |rs| ==> ls[x] != rs[y])
    && forall x, y :: i <= x < |ls| && 0 <= y < j ==> ls[x] != rs[y]
  }

  function Ahead(ls: seq<string>, rs: seq<string>, i: nat, j: nat): seq<string>
    requires i <= |ls| && j <= |rs|
  {
    Merge(ls[i..], rs[j..])
  }

  lemma LessThanRest(x: string, rs: seq<string>, j: nat)
    requires StrictlySortedNames(rs) && j <= |rs| && (j == |rs| || StrLt(x, rs[j]))
    ensures forall y :: j <= y < |rs| ==> x != rs[y]
  {
    hide StrLe;
    StrLeIsTotalOrder();
    forall y | j <= y < |rs|
      ensures x != rs[y]
    {
      assert StrLe(x, rs[j]) && StrLe(rs[j], rs[y]);
    }
  }

  lemma StepLeft(ls: seq<string>, rs: seq<string>, i: nat, j: nat)
    requires StrictlySortedNames(ls) && StrictlySortedNames(rs) && Apart(ls, rs, i, j) && i < |ls|
    requires j == |rs| || StrLt(ls[i], rs[j])
    ensures ls[i] !in rs && Apart(ls, rs, i + 1, j)
    ensures Ahead(ls, rs, i, j) == [ls[i]] + Ahead(ls, rs, i + 1, j)
  {
    LessThanRest(ls[i], rs, j);
    assert ls[i..][1..] == ls[i + 1..];
  }

  lemma StepRight(ls: seq<string>, rs: seq<string>, i: nat, j: nat)
    requires StrictlySortedNames(ls) && StrictlySortedNames(rs) && Apart(ls, rs, i, j) && j < |rs|
    requires i == |ls| || StrLt(rs[j], ls[i])
    ensures rs[j] !in ls && Apart(ls, rs, i, j + 1)
    ensures Ahead(ls, rs, i, j) == [rs[j]] + Ahead(ls, rs, i, j + 1)
  {
    StrLeIsTotalOrder();
    LessThanRest(rs[j], ls, i);
    assert rs[j..][1..] == rs[j + 1..];
    assert i < |ls| ==> !StrLt(ls[i], rs[j]);
  }

  lemma StepBoth(ls: seq<string>, rs: seq<string>, i: nat, j: nat)
    requires StrictlySortedNames(ls) && StrictlySortedNames(rs) && Apart(ls, rs, i, j) && i < |ls| && j < |rs|
    requires !StrLt(ls[i], rs[j]) && !StrLt(rs[j], ls[i])
    ensures ls[i] == rs[j] && Apart(ls, rs, i + 1, j + 1)
    ensures Ahead(ls, rs, i, j) == [ls[i]] + Ahead(ls, rs, i + 1, j + 1)
  {
    StrLeIsTotalOrder();
    hide StrLe;
    assert ls[i] == rs[j];
    assert ls[i..][1..] == ls[i + 1..] && rs[j..][1..] == rs[j + 1..];
  }

  // ----- what is still to be emitted ------------------------------------------------------

  /** The entries at the labels not yet visited, as seen from the root. */
  ghost function ToCome(b: Json, a: Json, path: seq<Label>, labels: seq<Label>): seq<Entry> {
    Under(path, DiffLabels(b, a, labels))
  }

  lemma Visit(b: Json, a: Json, path: seq<Label>, labels: seq<Label>, out: seq<Entry>)
    requires labels != []
    ensures out + ToCome(b, a, path, labels)
         == (out + Under(path + [labels[0]], DiffLabel(b, a, labels[0]))) + ToCome(b, a, path, labels[1..])
  {
    hide DiffLabel;
    var l := labels[0];
    var here, rest := DiffLabel(b, a, l), DiffLabels(b, a, labels[1..]);
    assert Under(path, Under([l], here) + rest) == Under(path, Under([l], here)) + Under(path, rest);
    UnderTwice(path, l, here);
  }

  lemma UnderTwice(path: seq<Label>, l: Label, es: seq<Entry>)
    ensures Under(path, Under([l], es)) == Under(path + [l], es)
  {
    forall i | 0 <= i < |es|
      ensures path + ([l] + es[i].path) == (path + [l]) + es[i].path
    {
    }
  }

  lemma NextName(byKey: bool, name: string, names: seq<string>, rest: seq<string>)
    requires names == [name] + rest
    ensures NameLabels(byKey, names) != []
    ensures NameLabels(byKey, names)[0] == Name(byKey, name)
    ensures NameLabels(byKey, names)[1..] == NameLabels(byKey, rest)
  {
    hide Name;
  }

  /** The entries at the names ahead of both cursors. */
  ghost function Left(byKey: bool, b: Json, a: Json, path: seq<Label>, ls: seq<string>, rs: seq<string>, i: nat, j: nat): seq<Entry>
    requires i <= |ls| && j <= |rs|
  {
    ToCome(b, a, path, NameLabels(byKey, Ahead(ls, rs, i, j)))
  }

  /** Visiting one name moves its entries from what is to come to what is out. */
  lemma VisitName(byKey: bool, b: Json, a: Json, path: seq<Label>, ls: seq<string>, rs: seq<string>, i: nat, j: nat, i': nat, j': nat, name: string, out: seq<Entry>)
    requires i <= i' <= |ls| && j <= j' <= |rs|
    requires Ahead(ls, rs, i, j) == [name] + Ahead(ls, rs, i', j')
    ensures out + Left(byKey, b, a, path, ls, rs, i, j)
         == (out + Under(path + [Name(byKey, name)], DiffLabel(b, a, Name(byKey, name)))) + Left(byKey, b, a, path, ls, rs, i', j')
  {
    hide Ahead, ToCome, DiffLabel, Name;
    NextName(byKey, name, Ahead(ls, rs, i, j), Ahead(ls, rs, i', j'));
    Visit(b, a, path, NameLabels(byKey, Ahead(ls, rs, i, j)), out);
  }

  /** Visiting a name that only one of the two containers has. */
  lemma VisitOneSided(byKey: bool, b: Json, a: Json, path: seq<Label>, ls: seq<string>, rs: seq<string>, i: nat, j: nat, i': nat, j': nat, name: string, out: seq<Entry>)
    requires i <= i' <= |ls| && j <= j' <= |rs|
    requires Ahead(ls, rs, i, j) == [name] + Ahead(ls, rs, i', j')
    requires var l := Name(byKey, name); l != Key(UPGRADED_FROM) && At(b, l).Some? != At(a, l).Some?
    ensures var l := Name(byKey, name);
      out + Left(byKey, b, a, path, ls, rs, i, j)
      == (out + [Entry(path + [l], At(b, l), At(a, l))]) + Left(byKey, b, a, path, ls, rs, i', j')
  {
    hide Ahead, Left, At, Name;
    var l := Name(byKey, name);
    VisitName(byKey, b, a, path, ls, rs, i, j, i', j', name, out);
    EmitsOne(path + [l], At(b, l), At(a, l));
  }

  /** Visiting a name both have. */
  lemma VisitBoth(byKey: bool, b: Json, a: Json, path: seq<Label>, ls: seq<string>, rs: seq<string>, i: nat, j: nat, i': nat, j': nat, name: string, out: seq<Entry>)
    requires i <= i' <= |ls| && j <= j' <= |rs|
    requires Ahead(ls, rs, i, j) == [name] + Ahead(ls, rs, i', j')
    requires var l := Name(byKey, name); l != Key(UPGRADED_FROM) && At(b, l).Some? && At(a, l).Some?
    ensures var l := Name(byKey, name);
      out + Left(byKey, b, a, path, ls, rs, i, j)
      == (out + Under(path + [l], Changes(At(b, l).value, At(a, l).value))) + Left(byKey, b, a, path, ls, rs, i', j')
  {
    hide Ahead, Left, At, Name;
    VisitName(byKey, b, a, path, ls, rs, i, j, i', j', name, out);
  }

  /** Visiting the upgrade mark. */
  lemma VisitMark(b: Json, a: Json, path: seq<Label>, ls: seq<string>, rs: seq<string>, i: nat, j: nat, i': nat, j': nat, out: seq<Entry>)
    requires i <= i' <= |ls| && j <= j' <= |rs|
    requires Ahead(ls, rs, i, j) == [UPGRADED_FROM] + Ahead(ls, rs, i', j')
    ensures out + Left(true, b, a, path, ls, rs, i, j) == out + Left(true, b, a, path, ls, rs, i', j')
  {
    hide Ahead, Left, At;
    VisitName(true, b, a, path, ls, rs, i, j, i', j', UPGRADED_FROM, out);
    assert Under(path + [Key(UPGRADED_FROM)], []) == [];
    assert out + [] == out;
  }

  lemma NoneLeft(byKey: bool, b: Json, a: Json, path: seq<Label>, ls: seq<string>, rs: seq<string>)
    ensures Left(byKey, b, a, path, ls, rs, |ls|, |rs|) == []
    ensures Left(byKey, b, a, path, ls, rs, 0, 0) == ToCome(b, a, path, NameLabels(byKey, Merge(ls, rs)))
  {
    assert ls[0..] == ls && rs[0..] == rs;
  }

  lemma EmitsOne(path: seq<Label>, x: Option<Json>, y: Option<Json>)
    ensures Under(path, [Entry([], x, y)]) == [Entry(path, x, y)]
  {
    assert path + [] == path;
  }

  /** The child of an object at its i-th key. */
  lemma MemberAt(v: Json, i: nat)
    requires v.Obj? && StrictlySortedNames(Keys(v.members)) && i < |v.members|
    ensures At(v, Key(v.members[i].key)) == Some(v.members[i].value)
  {
    hide StrLe;
    var keys := Keys(v.members);
    var k := IndexOf(keys, keys[i]);
    assert keys[k] == keys[i];
  }

  lemma NoMemberAt(v: Json, key: string)
    requires v.Obj? && key !in Keys(v.members)
    ensures At(v, Key(key)).None?
  {
  }

  // ----- the walk ---------------------------------------------------------------------------

  method DiffValues(before: Json, after: Json, path: seq<Label>, entries: seq<Entry>) returns (out: seq<Entry>)
    requires WellFormed(before) && WellFormed(after)
    ensures out == entries + Under(path, Changes(before, after))
    decreases before, 2
  {
    if before == after {
      return entries;
    }
    if before.Obj? && after.Obj? {
      out := DiffObjects(before, after, path, entries);
      return;
    }
    if before.Arr? && after.Arr? {
      out := DiffArrays(before, after, path, entries);
      return;
    }
    EmitsOne(path, Some(before), Some(after));
    out := entries + [Entry(path, Some(before), Some(after))];
  }

  method DiffObjects(before: Json, after: Json, path: seq<Label>, entries: seq<Entry>) returns (out: seq<Entry>)
    requires WellFormed(before) && WellFormed(after) && before.Obj? && after.Obj?
    ensures out == entries + ToCome(before, after, path, Labels(before, after))
    decreases before, 1
  {
    hide StrLe, Apart, Ahead, Left, ToCome, StrictlySorted, WellFormed, At, Changes, StrLt;
    var left, right := before.members, after.members;
    ghost var ls, rs := Keys(left), Keys(right);
    var i, j := 0, 0;
    out := entries;
    NoneLeft(true, before, after, path, ls, rs);
    ObjectParts(before, after);
    while i < |left| || j < |right|
      invariant i <= |ls| && j <= |rs| && Apart(ls, rs, i, j)
      invariant out + Left(true, before, after, path, ls, rs, i, j) == entries + Left(true, before, after, path, ls, rs, 0, 0)
      decreases |left| - i + |right| - j
    {
      if j >= |right| || (i < |left| && StrLt(left[i].key, right[j].key)) {
        StepLeft(ls, rs, i, j);
        if left[i].key == UPGRADED_FROM {
          VisitMark(before, after, path, ls, rs, i, j, i + 1, j, out);
          i := i + 1;
          continue;
        }
        MemberAt(before, i);
        NoMemberAt(after, left[i].key);
        VisitOneSided(true, before, after, path, ls, rs, i, j, i + 1, j, ls[i], out);
        out := out + [Entry(path + [Key(left[i].key)], Some(left[i].value), None)];
        i := i + 1;
        continue;
      }
      if i >= |left| || StrLt(right[j].key, left[i].key) {
        StepRight(ls, rs, i, j);
        if right[j].key == UPGRADED_FROM {
          VisitMark(before, after, path, ls, rs, i, j, i, j + 1, out);
          j := j + 1;
          continue;
        }
        MemberAt(after, j);
        NoMemberAt(before, right[j].key);
        VisitOneSided(true, before, after, path, ls, rs, i, j, i, j + 1, rs[j], out);
        out := out + [Entry(path + [Key(right[j].key)], None, Some(right[j].value))];
        j := j + 1;
        continue;
      }
      StepBoth(ls, rs, i, j);
      if left[i].key == UPGRADED_FROM {
        VisitMark(before, after, path, ls, rs, i, j, i + 1, j + 1, out);
      }
      if left[i].key != UPGRADED_FROM {
        MemberAt(before, i);
        MemberAt(after, j);
        VisitBoth(true, before, after, path, ls, rs, i, j, i + 1, j + 1, ls[i], out);
        out := DiffValues(left[i].value, right[j].value, path + [Key(left[i].key)], out);
      }
      i := i + 1;
      j := j + 1;
    }
  }

  lemma ObjectParts(b: Json, a: Json)
    requires WellFormed(b) && WellFormed(a) && b.Obj? && a.Obj?
    ensures StrictlySortedNames(Keys(b.members)) && StrictlySortedNames(Keys(a.members))
    ensures Apart(Keys(b.members), Keys(a.members), 0, 0)
    ensures forall i :: 0 <= i < |b.members| ==> WellFormed(b.members[i].value)
    ensures forall i :: 0 <= i < |a.members| ==> WellFormed(a.members[i].value)
  {
  }

  method DiffArrays(before: Json, after: Json, path: seq<Label>, entries: seq<Entry>) returns (out: seq<Entry>)
    requires WellFormed(before) && WellFormed(after) && before.Arr? && after.Arr?
    ensures out == entries + ToCome(before, after, path, Labels(before, after))
    decreases before, 1
  {
    hide StrLe, ToCome, WellFormed, Identity;
    var left, right := before.items, after.items;
    var keyed := left != [] && right != [];
    var n := 0;
    while n < |left|
      invariant n <= |left| && (forall i :: 0 <= i < n ==> Identity(left[i]).Some?) && keyed == (left != [] && right != [])
    {
      if Identity(left[n]).None? {
        keyed := false;
        break;
      }
      n := n + 1;
    }
    if keyed {
      n := 0;
      while n < |right|
        invariant n <= |right| && (forall i :: 0 <= i < n ==> Identity(right[i]).Some?) && keyed
      {
        if Identity(right[n]).None? {
          keyed := false;
          break;
        }
        n := n + 1;
      }
    }
    assert keyed == Keyed(left, right);
    if keyed {
      out := DiffKeyed(before, after, path, entries);
      return;
    }
    ArrayParts(before, after);
    out := entries;
    var maximum := Max(|left|, |right|);
    for index := 0 to maximum
      invariant out + ToCome(before, after, path, IndexLabels(index, maximum)) == entries + ToCome(before, after, path, Labels(before, after))
    {
      var child := path + [Index(index)];
      VisitIndex(before, after, path, index, maximum, out);
      if index >= |left| {
        EmitsOne(child, None, Some(right[index]));
        out := out + [Entry(child, None, Some(right[index]))];
        continue;
      }
      if index >= |right| {
        EmitsOne(child, Some(left[index]), None);
        out := out + [Entry(child, Some(left[index]), None)];
        continue;
      }
      out := DiffValues(left[index], right[index], child, out);
    }
    NoIndexLeft(before, after, path, maximum);
  }

  lemma VisitIndex(b: Json, a: Json, path: seq<Label>, index: nat, to: nat, out: seq<Entry>)
    requires index < to
    ensures out + ToCome(b, a, path, IndexLabels(index, to))
         == (out + Under(path + [Index(index)], DiffLabel(b, a, Index(index)))) + ToCome(b, a, path, IndexLabels(index + 1, to))
  {
    hide ToCome, DiffLabel;
    assert IndexLabels(index, to)[1..] == IndexLabels(index + 1, to);
    Visit(b, a, path, IndexLabels(index, to), out);
  }

  lemma NoIndexLeft(b: Json, a: Json, path: seq<Label>, to: nat)
    ensures ToCome(b, a, path, IndexLabels(to, to)) == []
  {
  }

  lemma ArrayParts(b: Json, a: Json)
    requires WellFormed(b) && WellFormed(a) && b.Arr? && a.Arr?
    ensures forall i :: 0 <= i < |b.items| ==> WellFormed(b.items[i])
    ensures forall i :: 0 <= i < |a.items| ==> WellFormed(a.items[i])
  {
  }

  /** The map from identities to elements: the first of each identity stays. */
  method ById(v: Json) returns (byId: map<string, Json>)
    requires v.Arr? && Identified(v.items)
    ensures forall id :: id in byId <==> id in IdsOf(v.items)
    ensures forall id :: At(v, Id(id)) == if id in byId then Some(byId[id]) else None
  {
    hide Identity;
    var items := v.items;
    byId := map[];
    for n := 0 to |items|
      invariant forall id :: id in byId <==> id in IdsOf(items)[..n]
      invariant forall id :: id in byId ==> At(v, Id(id)) == Some(byId[id])
    {
      var id := Identity(items[n]).value;
      assert IdsOf(items)[n] == id;
      assert IdsOf(items)[..n + 1] == IdsOf(items)[..n] + [id];
      if id !in byId {
        FirstIs(IdsOf(items), n);
        byId := byId[id := items[n]];
      }
    }
    assert IdsOf(items)[..|items|] == IdsOf(items);
  }

  lemma FirstIs(ids: seq<string>, n: nat)
    requires n < |ids| && ids[n] !in ids[..n]
    ensures IndexOf(ids, ids[n]) == n
  {
    var k := IndexOf(ids, ids[n]);
    assert forall m :: 0 <= m < n ==> ids[..n][m] == ids[m];
    assert forall m :: 0 <= m < k ==> ids[..k][m] == ids[m];
  }

  /** Identified arrays: two cursors over the two maps, each in the order of its keys. */
  method DiffKeyed(before: Json, after: Json, path: seq<Label>, entries: seq<Entry>) returns (out: seq<Entry>)
    requires WellFormed(before) && WellFormed(after) && before.Arr? && after.Arr? && Keyed(before.items, after.items)
    ensures out == entries + ToCome(before, after, path, Labels(before, after))
    decreases before, 0
  {
    var leftById := ById(before);
    var rightById := ById(after);
    var ls, rs := SortedIds(before.items), SortedIds(after.items);
    SortedIdsAre(before.items);
    SortedIdsAre(after.items);
    KeyedLabels(before, after);
    hide StrLe, Apart, Ahead, Left, ToCome, StrictlySorted, WellFormed, SortedIds, Identity, At, Labels, Identified, Changes, StrLt;
    var i, j := 0, 0;
    out := entries;
    NoneLeft(false, before, after, path, ls, rs);
    NoneApart(ls, rs);
    while i < |ls| || j < |rs|
      invariant i <= |ls| && j <= |rs| && Apart(ls, rs, i, j)
      invariant out + Left(false, before, after, path, ls, rs, i, j) == entries + Left(false, before, after, path, ls, rs, 0, 0)
      decreases |ls| - i + |rs| - j
    {
      if j == |rs| || (i < |ls| && StrLt(ls[i], rs[j])) {
        StepLeft(ls, rs, i, j);
        assert ls[i] in leftById && ls[i] !in rightById;
        VisitOneSided(false, before, after, path, ls, rs, i, j, i + 1, j, ls[i], out);
        out := out + [Entry(path + [Id(ls[i])], Some(leftById[ls[i]]), None)];
        i := i + 1;
        continue;
      }
      if i == |ls| || StrLt(rs[j], ls[i]) {
        StepRight(ls, rs, i, j);
        assert rs[j] in rightById && rs[j] !in leftById;
        VisitOneSided(false, before, after, path, ls, rs, i, j, i, j + 1, rs[j], out);
        out := out + [Entry(path + [Id(rs[j])], None, Some(rightById[rs[j]]))];
        j := j + 1;
        continue;
      }
      StepBoth(ls, rs, i, j);
      assert ls[i] in leftById && rs[j] in rightById;
      VisitBoth(false, before, after, path, ls, rs, i, j, i + 1, j + 1, ls[i], out);
      IdWellFormed(before, ls[i]);
      IdWellFormed(after, rs[j]);
      out := DiffValues(leftById[ls[i]], rightById[rs[j]], path + [Id(ls[i])], out);
      i := i + 1;
      j := j + 1;
    }
  }

  lemma KeyedLabels(b: Json, a: Json)
    requires b.Arr? && a.Arr? && Keyed(b.items, a.items)
    ensures Labels(b, a) == NameLabels(false, Merge(SortedIds(b.items), SortedIds(a.items)))
  {
  }

  lemma NoneApart(ls: seq<string>, rs: seq<string>)
    ensures Apart(ls, rs, 0, 0)
  {
  }

  lemma IdWellFormed(v: Json, id: string)
    requires WellFormed(v)
    ensures At(v, Id(id)).Some? ==> WellFormed(At(v, Id(id)).value) && At(v, Id(id)).value < v
  {
  }
}
