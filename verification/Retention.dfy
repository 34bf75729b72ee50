/**
 * The bound on retained generations. A commit is refused when the retained count has reached it; the count
 * is that of the record files except after a prune that found nothing to remove, which resets it to zero.
 */
module Retention {
  import opened Identities
  import opened Disk
  import opened Store
  import opened StoreRuns

  /** An open store counts its record files exactly. */
  ghost predicate CountExact(s: System) { s.live.Some? ==> s.live.value.retained == |RecordNames(s.disk)| }

  ghost predicate EmptyPrune(s: System, e: Event) { e.Prune? && Prunable(s.disk, e.keepFrom) == {} }

  ghost predicate Accepted(c: Config, s: System, e: Event) {
    e.Commit? && s.live.Some? && CommitCheck(s.live.value, c.maxGenerations, e.request, e.fence).None?
  }

  /** Every commit accepted along the run finds fewer record files than the bound. */
  ghost predicate BoundKept(c: Config, s: System, events: seq<Event>)
    decreases |events|
  {
    events == [] || !Enabled(s, events[0])
    || ((Accepted(c, s, events[0]) ==> |RecordNames(s.disk)| < c.maxGenerations)
        && BoundKept(c, After(c, s, events[0]), events[1..]))
  }

  /** Every prune along the run finds something to remove. */
  ghost predicate NoEmptyPrune(c: Config, s: System, events: seq<Event>)
    decreases |events|
  {
    events == [] || !Enabled(s, events[0])
    || (!EmptyPrune(s, events[0]) && NoEmptyPrune(c, After(c, s, events[0]), events[1..]))
  }

  /** Since the last opening, or since before if that is so already, a prune found nothing to remove. */
  ghost predicate Drifted(c: Config, s: System, events: seq<Event>, before: bool)
    decreases |events|
  {
    if events == [] || !Enabled(s, events[0]) then before
    else Drifted(c, After(c, s, events[0]), events[1..], !events[0].Open? && (before || EmptyPrune(s, events[0])))
  }

  // ----- one event ----------------------------------------------------------------------

  lemma NamesBounded(c: Config, s: System)
    requires SystemInv(c, s)
    ensures |s.history| > 0 && |RecordNames(s.disk)| >= 1
    ensures s.live.Some? ==> s.live.value.retained <= |RecordNames(s.disk)| && s.live.value.HeadGeneration() == |s.history|
  {
    var last := s.history[|s.history| - 1];
    assert VersionOk(c.domain, s.history, |s.history| - 1);
    assert last.head.file in RecordNames(s.disk);
  }

  /** Pruning with power for all removals: what is left, on the disk and in memory. */
  lemma PruneCounts(c: Config, s: System, e: Event)
    requires SystemInv(c, s) && e.Prune? && Enabled(s, e) && After(c, s, e).live.Some?
    ensures var t := After(c, s, e); var removed := |Prunable(s.disk, e.keepFrom)|;
      && removed < |RecordNames(s.disk)| && |RecordNames(t.disk)| == |RecordNames(s.disk)| - removed
      && RecordNames(t.disk) == RecordNames(s.disk) - Prunable(s.disk, e.keepFrom)
      && t.live.value == s.live.value.(retained := RetainedAfterPrune(s.live.value.retained, removed))
  {
    hide WellLinked, LiveInv, ApplyAll, Listing;
    var names := Prunable(s.disk, e.keepFrom);
    var steps := RemovalSteps(Listing(names));
    ListingMembers(names);
    RemovalEffect(s.disk, Listing(names));
    assert RecordNames(After(c, s, e).disk) == RecordNames(s.disk) - names;
    assert names <= RecordNames(s.disk);
    LastStays(c, s, e.keepFrom);
    var last := s.history[|s.history| - 1].head.file;
    assert last in RecordNames(s.disk) - names;
    assert |RecordNames(s.disk) - names| == |RecordNames(s.disk)| - |names|;
  }

  lemma LastStays(c: Config, s: System, keepFrom: nat)
    requires SystemInv(c, s) && s.live.Some? && keepFrom <= s.live.value.HeadGeneration()
    ensures |s.history| > 0 && var last := s.history[|s.history| - 1].head.file;
      last in RecordNames(s.disk) && last !in Prunable(s.disk, keepFrom)
  {
    assert VersionOk(c.domain, s.history, |s.history| - 1);
  }

  /** A commit that answers adds one record file and one to the count. */
  lemma CommitCounts(c: Config, s: System, e: Event)
    requires SystemInv(c, s) && Accepted(c, s, e) && Enabled(s, e) && After(c, s, e).live.Some?
    ensures var t := After(c, s, e);
      && |RecordNames(t.disk)| == |RecordNames(s.disk)| + 1
      && t.live.value.retained == s.live.value.retained + 1
  {
    var v := NewVersion(s.live.value, e.request, e.text);
    var t := After(c, s, e);
    CommitEffect(s.disk, v);
    assert VersionOk(c.domain, s.history, |s.history| - 1);
    assert v.head.file !in RecordNames(s.disk);
    hide WellLinked, ApplyAll, CommitSteps;
    forall name
      ensures name in RecordNames(t.disk) <==> name in RecordNames(s.disk) + {v.head.file}
    {
      assert name != v.head.file ==> SameFile(s.disk, t.disk, RecordPath(name));
    }
    assert RecordNames(t.disk) == RecordNames(s.disk) + {v.head.file};
  }

  /** An open counts what it leaves. */
  lemma OpenCounts(c: Config, s: System, e: Event)
    requires SystemInv(c, s) && e.Open? && Enabled(s, e)
    ensures CountExact(After(c, s, e))
  {
    hide Readable, WellLinked, LiveInv, ApplyAll, OpenSteps, Choose, HeadReads, AfterOpenEvent, RestoreSteps;
    var t := After(c, s, e);
    if t.live.Some? {
      var n := |s.history|;
      RecoveryChoice(c, s);
      if HeadReads(s.disk, s.history, n - 1) {
        CountAfterPrimary(c, s, e);
      } else if FallsBack(s.disk, s.history) {
        CountAfterBackup(c, s, e);
      } else {
        RefusedOpens(c, s, e);
      }
    }
  }

  lemma RefusedOpens(c: Config, s: System, e: Event)
    requires e.Open? && Choose(s.disk, c.domain).Refused?
    ensures AfterOpenEvent(c, s, e) == s
  {
  }

  lemma CountAfterPrimary(c: Config, s: System, e: Event)
    requires SystemInv(c, s) && e.Open? && Enabled(s, e) && AfterOpenEvent(c, s, e).live.Some?
    requires Choose(s.disk, c.domain) == Chosen(s.history[|s.history| - 1].head, false)
    ensures CountExact(AfterOpenEvent(c, s, e))
  {
    hide Readable, WellLinked, LiveInv, ApplyAll, Choose, AfterOpenEvent, Listing, RecordNames;
    var n := |s.history|;
    var head := s.history[n - 1].head;
    HeadNumber(c.domain, s.history, n);
    OpenOutcome(c, s, e, head, false);
    var steps := OpenSteps(s.disk, Chosen(head, false));
    assert steps == RemovalSteps(Listing(Orphans(s.disk, n)));
    OrphansRemoved(c.domain, s.disk, s.history, |steps|);
  }

  lemma CountAfterBackup(c: Config, s: System, e: Event)
    requires SystemInv(c, s) && e.Open? && Enabled(s, e) && AfterOpenEvent(c, s, e).live.Some?
    requires FallsBack(s.disk, s.history) && Choose(s.disk, c.domain) == Chosen(s.history[|s.history| - 2].head, true)
    ensures CountExact(AfterOpenEvent(c, s, e))
  {
    hide Readable, WellLinked, LiveInv, ApplyAll, Choose, AfterOpenEvent, OpenSteps, RecordNames;
    var n := |s.history|;
    var head := s.history[n - 2].head;
    HeadNumber(c.domain, s.history, n - 1);
    BackupNeedsPower(c, s, e, head);
    OpenOutcome(c, s, e, head, true);
    var steps := OpenSteps(s.disk, Chosen(head, true));
    BackupPlan(c.domain, s.disk, s.history, n - 1, |steps|);
  }

  lemma BackupNeedsPower(c: Config, s: System, e: Event, head: HeadPointer)
    requires e.Open? && s.live.None? && AfterOpenEvent(c, s, e).live.Some? && Choose(s.disk, c.domain) == Chosen(head, true)
    ensures e.opening >= |OpenSteps(s.disk, Chosen(head, true))| >= 3
  {
    hide Choose, Listing;
  }

  /** An event leaves the count exact when it opens the store, or the count was exact and no empty prune happens. */
  lemma StepCount(c: Config, s: System, e: Event)
    requires SystemInv(c, s) && Enabled(s, e) && After(c, s, e).live.Some?
    ensures CountExact(After(c, s, e)) <==> e.Open? || (CountExact(s) && !EmptyPrune(s, e))
    ensures !e.Open? ==> s.live.Some?
  {
    hide WellLinked, DiskInv, ApplyAll, AfterOpenEvent;
    NamesBounded(c, s);
    match e
    case Commit(_, _, _, _, _) =>
      if Accepted(c, s, e) {
        CommitCounts(c, s, e);
      }
    case Prune(_, _) => PruneCounts(c, s, e);
    case Open(_, _) => OpenCounts(c, s, e);
    case Crash =>
  }

  // ----- runs ---------------------------------------------------------------------------

  /** The count is exact at the end of a run exactly when no prune since the last opening found nothing. */
  lemma {:induction false} RunCountIff(c: Config, s: System, events: seq<Event>, t: System, before: bool)
    requires SystemInv(c, s) && Run(c, s, events, t)
    requires s.live.Some? ==> (CountExact(s) <==> !before)
    ensures SystemInv(c, t)
    ensures t.live.Some? ==> (CountExact(t) <==> !Drifted(c, s, events, before))
    decreases |events|
  {
    hide WellLinked, DiskInv, LiveInv, After, CountExact, EmptyPrune;
    if events != [] {
      var next := After(c, s, events[0]);
      EventKeeps(c, s, events[0]);
      if next.live.Some? {
        StepCount(c, s, events[0]);
      }
      RunCountIff(c, next, events[1..], t, !events[0].Open? && (before || EmptyPrune(s, events[0])));
    }
  }

  /** From an exact count, a run without empty prunes keeps the bound. */
  lemma {:induction false} ExactKeepsBound(c: Config, s: System, events: seq<Event>, t: System)
    requires SystemInv(c, s) && CountExact(s) && Run(c, s, events, t) && NoEmptyPrune(c, s, events)
    ensures BoundKept(c, s, events)
    decreases |events|
  {
    hide WellLinked, DiskInv, LiveInv, After, EmptyPrune;
    if events != [] {
      var next := After(c, s, events[0]);
      EventKeeps(c, s, events[0]);
      if next.live.Some? {
        StepCount(c, s, events[0]);
      }
      ExactKeepsBound(c, next, events[1..], t);
    }
  }

  // ----- losing the bound ------------------------------------------------------------------

  function NextCommit(c: Config, m: Memory, power: nat): Event {
    var doc := Doc(0, 0, Shape(0, 0, 0, 0, 0, true));
    Commit(Request(c.domain, m.HeadGeneration() + 1, "writer", 0, Some(doc)),
           Fence(m.HeadGeneration(), m.epoch, m.incarnation, "writer"), PayloadText(0, 0), power, true)
  }

  /** The next commit with power for all its steps. */
  ghost function FullCommit(c: Config, s: System): (e: Event)
    requires s.live.Some?
  {
    var probe := NextCommit(c, s.live.value, 0);
    NextCommit(c, s.live.value, |CommitSteps(s.disk, NewVersion(s.live.value, probe.request, probe.text))|)
  }

  lemma CommitGoesThrough(c: Config, s: System)
    requires SystemInv(c, s) && s.live.Some?
    requires s.live.value.retained < c.maxGenerations && |s.history| < MAX_GENERATION
    ensures var e := FullCommit(c, s); var t := After(c, s, e);
      Accepted(c, s, e) && t.live.Some? && |t.history| == |s.history| + 1
  {
    NamesBounded(c, s);
    hide WellLinked, DiskInv, ApplyAll, CommitSteps;
  }

  /** When the count lags behind the files, commits that find the bound not reached go past it. */
  lemma {:induction false} LaggingRun(c: Config, s: System) returns (events: seq<Event>, t: System)
    requires SystemInv(c, s) && s.live.Some?
    requires s.live.value.retained < |RecordNames(s.disk)| && s.live.value.retained < c.maxGenerations
    requires |s.history| + (c.maxGenerations - s.live.value.retained) <= MAX_GENERATION
    ensures Run(c, s, events, t) && NoEmptyPrune(c, s, events) && !BoundKept(c, s, events)
    decreases c.maxGenerations - s.live.value.retained
  {
    hide WellLinked, DiskInv, LiveInv, CommitSteps, ApplyAll, CommitCheck;
    var e := FullCommit(c, s);
    CommitGoesThrough(c, s);
    var next := After(c, s, e);
    EventKeeps(c, s, e);
    CommitCounts(c, s, e);
    if s.live.value.retained + 1 == c.maxGenerations {
      events, t := [e], next;
      assert Run(c, next, [], next);
    } else {
      var rest;
      rest, t := LaggingRun(c, next);
      events := [e] + rest;
      assert events[1..] == rest;
    }
  }

  /** Pruning up to the head leaves one record file and, when the count lags, a count of zero. */
  lemma PruneToHead(c: Config, s: System) returns (e: Event)
    requires SystemInv(c, s) && s.live.Some?
    requires s.live.value.retained < |RecordNames(s.disk)| && |RecordNames(s.disk)| > 1
    ensures e.Prune? && Enabled(s, e) && !EmptyPrune(s, e)
    ensures var t := After(c, s, e);
      t.live.Some? && t.live.value.retained == 0 && |RecordNames(t.disk)| == 1 && |t.history| == |s.history|
  {
    hide DiskInv, WellLinked, LiveInv, ApplyAll, Listing;
    var n := |s.history|;
    NamesBounded(c, s);
    var names := Prunable(s.disk, n);
    e := Prune(n, |RemovalSteps(Listing(names))|);
    PruneCounts(c, s, e);
    OnlyLastStays(c, s);
    hide RecordNames, Prunable, After;
    assert |RecordNames(s.disk) - names| == 1;
  }

  lemma OnlyLastStays(c: Config, s: System)
    requires SystemInv(c, s) && s.live.Some?
    ensures |s.history| > 0 && RecordNames(s.disk) - Prunable(s.disk, |s.history|) == {s.history[|s.history| - 1].head.file}
  {
    hide WellLinked;
    LastStays(c, s, |s.history|) by { NamesBounded(c, s); }
  }

  /** From any state whose count lags, some run without empty prunes accepts a commit past the bound. */
  lemma LaggingBreaksBound(c: Config, s: System) returns (events: seq<Event>, t: System)
    requires SystemInv(c, s) && s.live.Some? && !CountExact(s)
    requires 1 <= c.maxGenerations && |s.history| + c.maxGenerations <= MAX_GENERATION
    ensures Run(c, s, events, t) && NoEmptyPrune(c, s, events) && !BoundKept(c, s, events)
  {
    NamesBounded(c, s);
    hide WellLinked, DiskInv, LiveInv, After, EmptyPrune;
    if |RecordNames(s.disk)| == 1 {
      events, t := LaggingRun(c, s);
    } else {
      var prune := PruneToHead(c, s);
      var next := After(c, s, prune);
      EventKeeps(c, s, prune);
      var rest;
      rest, t := LaggingRun(c, next);
      events := [prune] + rest;
      assert events[1..] == rest;
    }
  }

  /**
   * Main result. After any run from an exact count, the store stays within its retention bound in every
   * continuation whose prunes find something to remove exactly when no prune since the last opening found
   * nothing.
   */
  lemma BoundIff(c: Config, s: System, events: seq<Event>, t: System)
    requires SystemInv(c, s) && CountExact(s) && Run(c, s, events, t) && t.live.Some?
    requires 1 <= c.maxGenerations && |t.history| + c.maxGenerations <= MAX_GENERATION
    ensures (forall rest, u :: Run(c, t, rest, u) && NoEmptyPrune(c, t, rest) ==> BoundKept(c, t, rest))
      <==> !Drifted(c, s, events, false)
  {
    RunCountIff(c, s, events, t, false);
    if CountExact(t) {
      forall rest, u | Run(c, t, rest, u) && NoEmptyPrune(c, t, rest)
        ensures BoundKept(c, t, rest)
      {
        ExactKeepsBound(c, t, rest, u);
      }
    } else {
      var rest, u := LaggingBreaksBound(c, t);
      assert Run(c, t, rest, u) && NoEmptyPrune(c, t, rest) && !BoundKept(c, t, rest);
    }
  }

  /** The bound is really lost: from any open store, one prune with nothing to remove and then commits. */
  lemma EmptyPruneBreaksBound(c: Config, s: System) returns (events: seq<Event>, t: System)
    requires SystemInv(c, s) && s.live.Some?
    requires 1 <= c.maxGenerations && |s.history| + c.maxGenerations <= MAX_GENERATION
    ensures events != [] && events[0] == Prune(0, 0) && Run(c, s, events, t) && !BoundKept(c, s, events)
  {
    hide WellLinked, DiskInv, LiveInv, ApplyAll;
    var prune := Prune(0, 0);
    assert Prunable(s.disk, 0) == {};
    assert RemovalSteps(Listing({})) == [];
    var next := After(c, s, prune);
    EventKeeps(c, s, prune);
    StepCount(c, s, prune);
    var rest;
    rest, t := LaggingBreaksBound(c, next);
    events := [prune] + rest;
    assert events[1..] == rest;
  }

  /**
   * After a prune the retention count is still the number of record files exactly when the prune
   * removed something: a prune that finds nothing to remove resets the count to zero.
   */
  lemma PruneKeepsCountIff(c: Config, s: System, keepFrom: nat, power: nat)
    requires SystemInv(c, s) && Enabled(s, Prune(keepFrom, power))
    requires s.live.value.retained == |RecordNames(s.disk)| && power >= |Prunable(s.disk, keepFrom)|
    ensures var t := AfterPruneEvent(s, Prune(keepFrom, power));
      t.live.Some? && (t.live.value.retained == |RecordNames(t.disk)| <==> Prunable(s.disk, keepFrom) != {})
  {
    hide DiskInv, WellLinked, LiveInv, ApplyAll, Listing;
    NamesBounded(c, s);
    ListingMembers(Prunable(s.disk, keepFrom));
    var e := Prune(keepFrom, power);
    PruneCounts(c, s, e);
    assert Prunable(s.disk, keepFrom) != {} <==> |Prunable(s.disk, keepFrom)| > 0;
  }
}
