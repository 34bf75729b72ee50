/**
 * What the entries of a diff (src/diff.cpp:283-426) amount to: there are none exactly when the values
 * agree, each states what is really at its path, swapping the arguments mirrors them, and applied in
 * any order they rebuild the later value from the earlier one.
 */
module Patch {
  import opened Ordering
  import opened Identities
  import opened JsonValues
  import opened Differences

  // ----- agreement ----------------------------------------------------------------

  /** Equal apart from upgrade marks and from the order and repetition of identified elements. */
  ghost predicate Same(b: Json, a: Json)
    decreases b, 1
  {
    || b == a
    || (Alike(b, a) && forall l: Label :: Fits(b, a, l) && l != Key(UPGRADED_FROM) ==> SameAt(b, a, l))
  }

  ghost predicate SameAt(b: Json, a: Json, l: Label)
    decreases b, 0
  {
    match (At(b, l), At(a, l))
    case (None, None) => true
    case (Some(x), Some(y)) => Same(x, y)
    case _ => false
  }

  lemma ChildWellFormed(v: Json, l: Label)
    requires WellFormed(v)
    ensures At(v, l).Some? ==> WellFormed(At(v, l).value)
  {
  }

  lemma {:induction false} NoneAtAll(b: Json, a: Json, labels: seq<Label>)
    ensures DiffLabels(b, a, labels) == [] <==> forall l :: l in labels ==> DiffLabel(b, a, l) == []
  {
    hide DiffLabel;
    if labels != [] {
      NoneAtAll(b, a, labels[1..]);
      assert labels == [labels[0]] + labels[1..];
      var first := Under([labels[0]], DiffLabel(b, a, labels[0]));
      assert first == [] <==> DiffLabel(b, a, labels[0]) == [];
      assert DiffLabels(b, a, labels) == [] <==> first == [] && DiffLabels(b, a, labels[1..]) == [];
    }
  }

  /** There are no entries exactly when the two values agree. */
  lemma {:induction false} NoEntriesIffSame(b: Json, a: Json)
    requires WellFormed(b) && WellFormed(a)
    ensures Changes(b, a) == [] <==> Same(b, a)
    decreases b
  {
    if b != a && Alike(b, a) {
      LabelsCover(b, a);
      NoneAtAll(b, a, Labels(b, a));
      forall l | l != Key(UPGRADED_FROM)
        ensures DiffLabel(b, a, l) == [] <==> SameAt(b, a, l)
      {
        ChildWellFormed(b, l);
        ChildWellFormed(a, l);
        if At(b, l).Some? && At(a, l).Some? {
          NoEntriesIffSame(At(b, l).value, At(a, l).value);
        }
      }
    }
  }

  // ----- truth of the entries ------------------------------------------------------

  /** What is at a path. */
  ghost function Resolve(o: Option<Json>, path: seq<Label>): Option<Json>
    decreases |path|
  {
    if path == [] then o
    else if o.None? then None
    else Resolve(At(o.value, path[0]), path[1..])
  }

  ghost predicate States(b: Json, a: Json, e: Entry) {
    && e.before == Resolve(Some(b), e.path)
    && e.after == Resolve(Some(a), e.path)
    && e.before != e.after
  }

  /** Every entry states what the two values hold at its path, and they differ there. */
  lemma {:induction false} EntriesAreTrue(b: Json, a: Json, e: Entry)
    requires e in Changes(b, a)
    ensures States(b, a, e)
    decreases b, 1, 0
  {
    if Alike(b, a) {
      LabelsAreTrue(b, a, Labels(b, a), e);
    }
  }

  lemma {:induction false} LabelsAreTrue(b: Json, a: Json, labels: seq<Label>, e: Entry)
    requires e in DiffLabels(b, a, labels)
    ensures States(b, a, e)
    decreases b, 0, |labels|
  {
    hide Changes, DiffLabel, States, Under;
    var l := labels[0];
    var here := DiffLabel(b, a, l);
    if e in Under([l], here) {
      var i :| 0 <= i < |here| && Under([l], here)[i] == e;
      var inner := here[i];
      if At(b, l).Some? && At(a, l).Some? {
        BothSides(b, a, l);
        EntriesAreTrue(At(b, l).value, At(a, l).value, inner);
      }
      EntryLifts(b, a, l, inner);
    } else {
      LabelsAreTrue(b, a, labels[1..], e);
    }
  }

  lemma BothSides(b: Json, a: Json, l: Label)
    requires At(b, l).Some? && At(a, l).Some?
    ensures forall e :: e in DiffLabel(b, a, l) ==> e in Changes(At(b, l).value, At(a, l).value)
  {
    hide Changes, At;
  }

  /** What is true of a child is true of the whole, one step further down. */
  lemma EntryLifts(b: Json, a: Json, l: Label, inner: Entry)
    requires inner in DiffLabel(b, a, l)
    requires At(b, l).Some? && At(a, l).Some? ==> States(At(b, l).value, At(a, l).value, inner)
    ensures States(b, a, Entry([l] + inner.path, inner.before, inner.after))
  {
    hide Changes, At;
    var path := [l] + inner.path;
    assert path[0] == l && path[1..] == inner.path;
    assert Resolve(Some(b), path) == Resolve(At(b, l), inner.path);
    assert Resolve(Some(a), path) == Resolve(At(a, l), inner.path);
  }

  // ----- reversal --------------------------------------------------------------------

  function Mirrored(es: seq<Entry>): (r: seq<Entry>)
    ensures |r| == |es| && forall i :: 0 <= i < |r| ==> r[i] == Entry(es[i].path, es[i].after, es[i].before)
  {
    seq(|es|, i requires 0 <= i < |es| => Entry(es[i].path, es[i].after, es[i].before))
  }

  lemma MergeCommutes(l: seq<string>, r: seq<string>)
    requires StrictlySortedNames(l) && StrictlySortedNames(r)
    ensures Merge(l, r) == Merge(r, l)
  {
    MergeIsUnion(l, r);
    MergeIsUnion(r, l);
    StrLeIsTotalOrder();
    StrictlySortedUnique(StrLe, Merge(l, r), Merge(r, l));
  }

  lemma LabelsCommute(b: Json, a: Json)
    requires WellFormed(b) && WellFormed(a) && Alike(b, a)
    ensures Labels(b, a) == Labels(a, b)
  {
    if b.Obj? {
      MergeCommutes(Keys(b.members), Keys(a.members));
    } else if Keyed(b.items, a.items) {
      SortedIdsAre(b.items);
      SortedIdsAre(a.items);
      MergeCommutes(SortedIds(b.items), SortedIds(a.items));
    }
  }

  /** Swapping the two values swaps the two sides of every entry. */
  lemma {:induction false} SwapMirrors(b: Json, a: Json)
    requires WellFormed(b) && WellFormed(a)
    ensures Changes(a, b) == Mirrored(Changes(b, a))
    decreases b, 1, 0
  {
    if b != a && Alike(b, a) {
      LabelsCommute(b, a);
      LabelsMirror(b, a, Labels(b, a));
    }
  }

  lemma MirrorsParts(l: Label, here: seq<Entry>, rest: seq<Entry>)
    ensures Mirrored(Under([l], here) + rest) == Under([l], Mirrored(here)) + Mirrored(rest)
  {
  }

  lemma {:induction false} LabelsMirror(b: Json, a: Json, labels: seq<Label>)
    requires WellFormed(b) && WellFormed(a)
    ensures DiffLabels(a, b, labels) == Mirrored(DiffLabels(b, a, labels))
    decreases b, 0, |labels|
  {
    if labels != [] {
      LabelMirrors(b, a, labels[0]);
      LabelsMirror(b, a, labels[1..]);
      hide DiffLabel;
      MirrorsParts(labels[0], DiffLabel(b, a, labels[0]), DiffLabels(b, a, labels[1..]));
    }
  }

  lemma {:induction false} LabelMirrors(b: Json, a: Json, l: Label)
    requires WellFormed(b) && WellFormed(a)
    ensures DiffLabel(a, b, l) == Mirrored(DiffLabel(b, a, l))
    decreases b, 0, 0
  {
    hide WellFormed, At;
    ChildWellFormed(b, l);
    ChildWellFormed(a, l);
    if At(b, l).Some? && At(a, l).Some? {
      ChildSmaller(b, l);
      SwapMirrors(At(b, l).value, At(a, l).value);
    }
  }

  lemma ChildSmaller(v: Json, l: Label)
    ensures At(v, l).Some? ==> At(v, l).value < v
  {
  }
}
