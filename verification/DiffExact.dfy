/**
 * Which entries a diff holds, path by path (src/diff.cpp:283-426): containers are always looked into, and
 * there is one entry for each place where the looking ends in a difference.
 */
module DiffExact {
  import opened Identities
  import opened JsonValues
  import opened Differences
  import opened Patch

  /**
   * The entry stands where two walks along its path part: all the way down both values hold unequal
   * containers of one kind that are compared at the next step, which is no upgrade mark; at the end they
   * hold different values that are not such containers, or only one of them holds a value.
   */
  ghost predicate EntryOf(b: Json, a: Json, e: Entry)
    decreases |e.path|
  {
    if e.path == [] then b != a && !Alike(b, a) && e.before == Some(b) && e.after == Some(a)
    else
      var l := e.path[0];
      && b != a && Alike(b, a) && Fits(b, a, l) && l != Key("upgraded_from")
      && match (At(b, l), At(a, l))
         case (Some(x), Some(y)) => EntryOf(x, y, Entry(e.path[1..], e.before, e.after))
         case (None, None) => false
         case (x, y) => e.path[1..] == [] && e.before == x && e.after == y
  }

  function Inner(e: Entry): Entry
    requires e.path != []
  {
    Entry(e.path[1..], e.before, e.after)
  }

  lemma InUnder(l: Label, es: seq<Entry>, e: Entry)
    ensures e in Under([l], es) <==> e.path != [] && e.path[0] == l && Inner(e) in es
  {
    var r := Under([l], es);
    if e in r {
      var i :| 0 <= i < |r| && r[i] == e;
      assert ([l] + es[i].path)[1..] == es[i].path;
      assert Inner(e) == es[i];
    }
    if e.path != [] && e.path[0] == l && Inner(e) in es {
      var i :| 0 <= i < |es| && es[i] == Inner(e);
      assert [l] + e.path[1..] == e.path;
      assert r[i] == e;
    }
  }

  lemma {:induction false} InLabels(b: Json, a: Json, labels: seq<Label>, e: Entry)
    ensures e in DiffLabels(b, a, labels) <==> e.path != [] && e.path[0] in labels && Inner(e) in DiffLabel(b, a, e.path[0])
  {
    hide DiffLabel, Under;
    if labels != [] {
      InUnder(labels[0], DiffLabel(b, a, labels[0]), e);
      InLabels(b, a, labels[1..], e);
      assert labels == [labels[0]] + labels[1..];
    }
  }

  /** Main result. The entries are exactly those. */
  lemma {:induction false} EntriesExact(b: Json, a: Json, e: Entry)
    requires WellFormed(b) && WellFormed(a)
    ensures e in Changes(b, a) <==> EntryOf(b, a, e)
    decreases |e.path|
  {
    hide WellFormed, At, DiffLabels, Labels;
    if b != a && Alike(b, a) {
      InLabels(b, a, Labels(b, a), e);
      LabelsCover(b, a);
      if e.path != [] {
        var l := e.path[0];
        ChildWellFormed(b, l);
        ChildWellFormed(a, l);
        if At(b, l).Some? && At(a, l).Some? {
          EntriesExact(At(b, l).value, At(a, l).value, Inner(e));
        }
      }
    }
  }

  // ----- one entry a place ----------------------------------------------------------------------------

  ghost predicate PathsApart(es: seq<Entry>) { forall i, j :: 0 <= i < j < |es| ==> es[i].path != es[j].path }

  lemma UnderApart(l: Label, es: seq<Entry>)
    requires PathsApart(es)
    ensures PathsApart(Under([l], es))
  {
    var r := Under([l], es);
    forall i, j | 0 <= i < j < |r|
      ensures r[i].path != r[j].path
    {
      assert ([l] + es[i].path)[1..] == es[i].path && ([l] + es[j].path)[1..] == es[j].path;
    }
  }

  lemma {:induction false} LabelsApart(b: Json, a: Json, labels: seq<Label>)
    requires Distinct(labels) && forall l :: l in labels ==> PathsApart(DiffLabel(b, a, l))
    ensures PathsApart(DiffLabels(b, a, labels))
  {
    hide DiffLabel;
    if labels != [] {
      LabelsApart(b, a, labels[1..]);
      var first, rest := Under([labels[0]], DiffLabel(b, a, labels[0])), DiffLabels(b, a, labels[1..]);
      UnderApart(labels[0], DiffLabel(b, a, labels[0]));
      forall i, j | 0 <= i < |first| && 0 <= j < |rest|
        ensures first[i].path != rest[j].path
      {
        InLabels(b, a, labels[1..], rest[j]);
        InUnder(labels[0], DiffLabel(b, a, labels[0]), first[i]);
        assert first[i] in first && rest[j] in rest;
        assert labels[0] !in labels[1..];
      }
      var all := first + rest;
      forall i, j | 0 <= i < j < |all|
        ensures all[i].path != all[j].path
      {
        assert i < |first| ==> all[i] == first[i];
        assert j < |first| ==> all[j] == first[j];
        assert i >= |first| ==> all[i] == rest[i - |first|];
        assert j >= |first| ==> all[j] == rest[j - |first|];
      }
    }
  }

  /** No two entries have one path. */
  lemma {:induction false} EntriesApart(b: Json, a: Json)
    requires WellFormed(b) && WellFormed(a)
    ensures PathsApart(Changes(b, a))
    decreases b, 1
  {
    hide WellFormed, DiffLabels, Labels, PathsApart;
    if b != a && Alike(b, a) {
      LabelsCover(b, a);
      forall l | l in Labels(b, a)
        ensures PathsApart(DiffLabel(b, a, l))
      {
        ChildWellFormed(b, l);
        ChildWellFormed(a, l);
        LabelApart(b, a, l);
      }
      LabelsApart(b, a, Labels(b, a));
    } else {
      FewApart(Changes(b, a));
    }
  }

  lemma LabelApart(b: Json, a: Json, l: Label)
    requires At(b, l).Some? ==> WellFormed(At(b, l).value)
    requires At(a, l).Some? ==> WellFormed(At(a, l).value)
    ensures PathsApart(DiffLabel(b, a, l))
    decreases b, 0
  {
    hide WellFormed, Changes, PathsApart;
    if At(b, l).Some? && At(a, l).Some? && l != Key(UPGRADED_FROM) {
      EntriesApart(At(b, l).value, At(a, l).value);
    } else {
      FewApart(DiffLabel(b, a, l));
    }
  }

  lemma FewApart(es: seq<Entry>)
    requires |es| <= 1
    ensures PathsApart(es)
  {
  }
}
