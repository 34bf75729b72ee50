/**
 * What opening a store brings back, over every run: exactly the committed generations whose records are
 * within the limits that reading enforces and writing does not.
 */
module Recovery {
  import opened Identities
  import opened Disk
  import opened Store
  import opened StoreRuns

  /** Losing power now, the next open would choose the last committed generation. */
  ghost predicate Recovers(c: Config, s: System)
    requires |s.history| > 0
  {
    Choose(s.disk, c.domain) == Chosen(s.history[|s.history| - 1].head, false)
  }

  /** The last record, and its predecessor if that is retained, are within the limits. */
  ghost predicate LastReads(s: System)
    requires |s.history| > 0
  {
    HeadReads(s.disk, s.history, |s.history| - 1)
  }

  lemma RecoversIff(c: Config, s: System)
    requires SystemInv(c, s)
    ensures Recovers(c, s) <==> LastReads(s)
  {
    RecoveryChoice(c, s);
  }

  /** If a generation was committed between the two states, its record is within the limits. */
  ghost predicate NewReads(s: System, t: System) {
    |t.history| > |s.history| ==> Readable(t.history[|s.history|].record.envelope)
  }

  /** Every commit that takes effect along the run writes a record within the limits. */
  ghost predicate ReadableCommits(c: Config, s: System, events: seq<Event>)
    decreases |events|
  {
    events == [] || !Enabled(s, events[0])
    || (NewReads(s, After(c, s, events[0])) && ReadableCommits(c, After(c, s, events[0]), events[1..]))
  }

  /** In every state along the run, the next open would choose the last committed generation. */
  ghost predicate RecoversThroughout(c: Config, s: System, events: seq<Event>)
    decreases |events|
  {
    && |s.history| > 0 && Recovers(c, s)
    && (events == [] || !Enabled(s, events[0]) || RecoversThroughout(c, After(c, s, events[0]), events[1..]))
  }

  // ----- one event ----------------------------------------------------------------------

  /** The step creates no record file of a generation up to n. */
  ghost predicate AddsNone(step: Step, n: nat) {
    match step
    case Write(path, _) => !path.RecordPath?
    case Rename(_, to) => to.RecordPath? ==> to.name.generation > n
    case Remove(_) => true
  }

  lemma {:induction false} NoNewRecords(d: Disk, steps: seq<Step>, n: nat)
    requires forall i :: 0 <= i < |steps| ==> AddsNone(steps[i], n)
    ensures forall name :: RecordPath(name) in ApplyAll(d, steps) && name.generation <= n ==> RecordPath(name) in d
  {
    if steps != [] {
      NoNewRecords(d, steps[..|steps| - 1], n);
      assert AddsNone(steps[|steps| - 1], n);
    }
  }

  lemma CommitAddsOne(d: Disk, v: Version, n: nat, k: nat)
    requires v.head.file.generation > n && k <= |CommitSteps(d, v)|
    ensures forall name :: RecordPath(name) in ApplyAll(d, CommitSteps(d, v)[..k]) && name.generation <= n ==> RecordPath(name) in d
  {
    var steps := CommitSteps(d, v);
    forall i | 0 <= i < k
      ensures AddsNone(steps[..k][i], n)
    {
      if i < |RecordSteps(d, v)| {
        assert steps[i] == RecordSteps(d, v)[i];
      } else {
        assert steps[i] == HeadSteps(d, v)[i - |RecordSteps(d, v)|];
      }
    }
    NoNewRecords(d, steps[..k], n);
  }

  lemma OpenAddsNone(d: Disk, choice: Choice, n: nat, k: nat)
    requires k <= |OpenSteps(d, choice)|
    ensures forall name :: RecordPath(name) in ApplyAll(d, OpenSteps(d, choice)[..k]) && name.generation <= n ==> RecordPath(name) in d
  {
    hide ApplyAll, Listing;
    var steps := OpenSteps(d, choice);
    if choice.Chosen? {
      var first := RestoreSteps(d, choice.head, choice.fromBackup);
      forall i | 0 <= i < k
        ensures AddsNone(steps[..k][i], n)
      {
        if i < |first| {
          assert steps[i] == first[i];
        } else {
          assert steps[i] == RemovalSteps(Listing(Orphans(d, choice.head.generation)))[i - |first|];
        }
      }
    }
    NoNewRecords(d, steps[..k], n);
  }

  /** No event brings a record file of an earlier generation back. */
  lemma EarlierRecords(c: Config, s: System, e: Event)
    requires SystemInv(c, s) && Enabled(s, e)
    ensures forall name :: RecordPath(name) in After(c, s, e).disk && name.generation <= |s.history| ==> RecordPath(name) in s.disk
  {
    hide ApplyAll, CommitSteps, OpenSteps, Listing, Choose, DiskInv, WellLinked, CommitCheck, OpenedMemory, RestoreSteps;
    var n := |s.history|;
    match e
    case Commit(request, fence, text, power, _) =>
      var m := s.live.value;
      NeverPowerLost(m, c.maxGenerations, request, fence);
      if CommitCheck(m, c.maxGenerations, request, fence).None? {
        var v := NewVersion(m, request, text);
        NextNumber(c, s, request, fence, text);
        var steps := CommitSteps(s.disk, v);
        CommitAddsOne(s.disk, v, n, if power < |steps| then power else |steps|);
        assert steps[..|steps|] == steps;
      }
    case Prune(keepFrom, pruning) =>
      var steps := RemovalSteps(Listing(Prunable(s.disk, keepFrom)));
      var k := if pruning < |steps| then pruning else |steps|;
      NoNewRecords(s.disk, steps[..k], n);
      assert steps[..|steps|] == steps;
    case Open(_, opening) =>
      var choice := Choose(s.disk, c.domain);
      var steps := OpenSteps(s.disk, choice);
      OpenAddsNone(s.disk, choice, n, if opening < |steps| then opening else |steps|);
      assert steps[..|steps|] == steps;
    case Crash =>
  }

  lemma HistoryGrowsByOne(c: Config, s: System, e: Event)
    requires Enabled(s, e)
    ensures |After(c, s, e).history| <= |s.history| + 1
  {
  }

  /** From a state that recovers, the next state recovers unless a record beyond the limits was committed. */
  lemma StepRecovers(c: Config, s: System, e: Event)
    requires SystemInv(c, s) && LastReads(s) && Enabled(s, e)
    ensures var t := After(c, s, e);
      SystemInv(c, t) && s.history <= t.history && (LastReads(t) <==> NewReads(s, t))
  {
    hide After, Readable, ApplyAll, WellLinked, DiskInv, LiveInv, HeadReads;
    EventKeeps(c, s, e);
    EarlierRecords(c, s, e);
    HistoryGrowsByOne(c, s, e);
    Numbered(c, s);
    LastReadsNext(s, After(c, s, e));
  }

  lemma LastReadsNext(s: System, t: System)
    requires |s.history| > 0 && LastReads(s) && s.history <= t.history && |t.history| <= |s.history| + 1
    requires forall i :: 0 <= i < |s.history| ==> s.history[i].head.file.generation == i + 1
    requires forall name :: RecordPath(name) in t.disk && name.generation <= |s.history| ==> RecordPath(name) in s.disk
    ensures LastReads(t) <==> NewReads(s, t)
  {
    hide Readable;
    if |t.history| == |s.history| {
      assert t.history == s.history;
    }
  }

  lemma Numbered(c: Config, s: System)
    requires SystemInv(c, s)
    ensures |s.history| > 0 && forall i :: 0 <= i < |s.history| ==> s.history[i].head.file.generation == i + 1
  {
    forall i | 0 <= i < |s.history|
      ensures s.history[i].head.file.generation == i + 1
    {
      assert VersionOk(c.domain, s.history, i);
    }
  }

  // ----- runs ------------------------------------------------------------------------------

  /**
   * Main result. In every run from a state with a completed first commit, wherever power is lost, the last
   * committed generation is the one the next open would choose at every moment, exactly when it is at the
   * start and every commit that takes effect writes a record within the reader's limits.
   */
  lemma {:induction false} RunRecoversIff(c: Config, s: System, events: seq<Event>, t: System)
    requires SystemInv(c, s) && Run(c, s, events, t)
    ensures RecoversThroughout(c, s, events) <==> LastReads(s) && ReadableCommits(c, s, events)
    ensures RecoversThroughout(c, s, events) ==> s.history <= t.history && Recovers(c, t)
    decreases |events|
  {
    assert |s.history| > 0;
    hide Recovers, LastReads, NewReads, After, WellLinked, DiskInv, LiveInv;
    RecoversIff(c, s);
    if events != [] {
      var next := After(c, s, events[0]);
      EventKeeps(c, s, events[0]);
      RunRecoversIff(c, next, events[1..], t);
      if LastReads(s) {
        StepRecovers(c, s, events[0]);
      }
    }
  }

  // ----- an acknowledged generation ------------------------------------------------------------

  /** A commit that was accepted and had the power for all its steps. */
  ghost predicate Completes(c: Config, s: System, commit: Event) {
    && commit.Commit? && Enabled(s, commit)
    && CommitCheck(s.live.value, c.maxGenerations, commit.request, commit.fence).None?
    && commit.power >= |CommitSteps(s.disk, NewVersion(s.live.value, commit.request, commit.text))|
  }

  /** The generation it commits. */
  function Committed(s: System, commit: Event): Version
    requires commit.Commit? && s.live.Some? && commit.request.doc.Some?
  {
    NewVersion(s.live.value, commit.request, commit.text)
  }

  lemma CommitExtends(c: Config, s: System, commit: Event)
    requires SystemInv(c, s) && Completes(c, s, commit)
    ensures After(c, s, commit).history == s.history + [Committed(s, commit)]
    ensures SystemInv(c, After(c, s, commit))
  {
    EventKeeps(c, s, commit);
  }

  /** With a record beyond the limits, the backup is what an open falls back to. */
  lemma FallsBackAfter(c: Config, s: System, commit: Event)
    requires SystemInv(c, s) && LastReads(s) && Completes(c, s, commit)
    ensures FallsBack(After(c, s, commit).disk, s.history + [Committed(s, commit)])
  {
    hide Readable, ApplyAll, CommitSteps;
    var v := Committed(s, commit);
    hide CommitCheck;
    var n := |s.history|;
    CommitEffect(s.disk, v);
    EarlierRecords(c, s, commit);
    Numbered(c, s);
    NextNumber(c, s, commit.request, commit.fence, commit.text);
    assert SameFile(s.disk, After(c, s, commit).disk, RecordPath(s.history[n - 1].head.file));
  }

  /**
   * A commit whose record is beyond the limits is acknowledged and lost: after a crash the next open, with
   * power for the restoration, falls back to the generation before it, and once the store is open its record
   * is gone.
   */
  lemma UnreadableIsLost(c: Config, s: System, commit: Event, incarnation: nat, power: nat)
    requires SystemInv(c, s) && LastReads(s) && Completes(c, s, commit)
    requires !Readable(Committed(s, commit).record.envelope)
    requires incarnation !in s.used && power >= 3
    ensures var crashed := After(c, After(c, s, commit), Crash); var t := After(c, crashed, Open(incarnation, power));
      && SystemInv(c, t) && t.history == s.history
      && (t.live.Some? ==> t.live.value.head == Some(s.history[|s.history| - 1].head)
                           && RecordPath(Committed(s, commit).head.file) !in t.disk)
  {
    hide Readable, WellLinked, DiskBody, ApplyAll, CommitSteps, CommitCheck, Choose, OpenSteps, AfterOpenEvent, LiveInv;
    CommitExtends(c, s, commit);
    FallsBackAfter(c, s, commit);
    var crashed := After(c, After(c, s, commit), Crash);
    var n := |crashed.history|;
    assert crashed.used == s.used;
    EventKeeps(c, After(c, s, commit), Crash);
    RecoveryChoice(c, crashed);
    OpenOnBackup(c, crashed, n - 1, Open(incarnation, power));
    NextNumber(c, s, commit.request, commit.fence, commit.text);
    if After(c, crashed, Open(incarnation, power)).live.Some? {
      LiveKnows(c, After(c, crashed, Open(incarnation, power)));
    }
  }

  lemma LiveKnows(c: Config, s: System)
    requires SystemInv(c, s) && s.live.Some?
    ensures |s.history| > 0 && s.live.value.head == Some(s.history[|s.history| - 1].head)
    ensures forall name :: RecordPath(name) in s.disk ==> name.generation <= |s.history|
  {
  }

  lemma FreshIncarnation(used: set<nat>) returns (incarnation: nat)
    ensures incarnation !in used
  {
    var rest := used;
    incarnation := 0;
    while rest != {}
      invariant rest <= used && forall x :: x in used && x !in rest ==> x < incarnation
      decreases rest
    {
      var x :| x in rest;
      rest := rest - {x};
      if x >= incarnation { incarnation := x + 1; }
    }
  }

  /** The generation stays in the history of every later run that commits only what can be read. */
  ghost predicate Survives(c: Config, s: System, commit: Event)
    requires Completes(c, s, commit)
  {
    forall rest, t :: Run(c, After(c, s, commit), rest, t) && ReadableCommits(c, After(c, s, commit), rest) ==>
      s.history + [Committed(s, commit)] <= t.history
  }

  /**
   * Main result. A generation that was acknowledged survives every later run, and every open finds the last
   * one, exactly when its own record is within the limits that reading enforces.
   */
  lemma AcknowledgedSurvives(c: Config, s: System, commit: Event)
    requires SystemInv(c, s) && LastReads(s) && Completes(c, s, commit)
    ensures Survives(c, s, commit) <==> Readable(Committed(s, commit).record.envelope)
    ensures Survives(c, s, commit) ==>
      forall rest, t :: Run(c, After(c, s, commit), rest, t) && ReadableCommits(c, After(c, s, commit), rest) ==>
        |t.history| > 0 && Recovers(c, t)
  {
    var v := Committed(s, commit);
    var after := After(c, s, commit);
    CommitExtends(c, s, commit);
    hide Readable, WellLinked, DiskInv, LiveInv, CommitCheck, CommitSteps, NewVersion, ApplyAll, AfterCommitEvent;
    if Readable(v.record.envelope) {
      StepRecovers(c, s, commit);
      forall rest, t | Run(c, after, rest, t) && ReadableCommits(c, after, rest)
        ensures s.history + [v] <= t.history && Recovers(c, t)
      {
        RunRecoversIff(c, after, rest, t);
      }
    } else {
      LosingRun(c, s, commit);
    }
  }

  lemma LosingRun(c: Config, s: System, commit: Event)
    requires SystemInv(c, s) && LastReads(s) && Completes(c, s, commit)
    requires !Readable(Committed(s, commit).record.envelope)
    ensures !Survives(c, s, commit)
  {
    hide Readable, WellLinked, DiskInv, LiveInv, CommitCheck, CommitSteps, NewVersion, ApplyAll, AfterOpenEvent;
    var after := After(c, s, commit);
    var incarnation := FreshIncarnation(s.used);
    var open := Open(incarnation, 3);
    UnreadableIsLost(c, s, commit, incarnation, 3);
    CommitExtends(c, s, commit);
    var crashed := After(c, after, Crash);
    assert crashed.used == s.used;
    var t := After(c, crashed, open);
    var rest := [Crash, open];
    assert rest[1..] == [open] && [open][1..] == [];
    assert Run(c, t, [], t);
    assert Run(c, crashed, [open], t);
    assert Run(c, after, rest, t);
    assert ReadableCommits(c, t, []);
    assert ReadableCommits(c, crashed, [open]);
    assert ReadableCommits(c, after, rest);
  }

  // ----- opening with enough power -----------------------------------------------------------

  /**
   * Given power for its steps, an open gives a store at the last committed generation, one epoch after every
   * committed one, exactly when the records it reads are within the limits and the epoch is not exhausted.
   */
  lemma OpenSucceeds(c: Config, s: System, incarnation: nat, power: nat)
    requires SystemInv(c, s) && Enabled(s, Open(incarnation, power))
    requires power >= |OpenSteps(s.disk, Choose(s.disk, c.domain))|
    ensures var last := s.history[|s.history| - 1].head; var t := After(c, s, Open(incarnation, power));
      && (t.live.Some? && t.live.value.head == Some(last) <==> LastReads(s) && last.epoch < MAX_EPOCH)
      && (LastReads(s) ==> t.history == s.history)
      && (t.live.Some? ==> t.live.value.incarnation == incarnation
                           && forall i :: 0 <= i < |t.history| ==> t.history[i].head.epoch < t.live.value.epoch)
  {
    hide Readable, WellLinked, DiskBody, LiveInv, ApplyAll, OpenSteps, Choose, HeadReads, FallsBack, AfterOpenEvent;
    var n := |s.history|;
    Numbered(c, s);
    var open := Open(incarnation, power);
    RecoveryChoice(c, s);
    OpenKeeps(c, s, open);
    EpochsBelow(c.domain, s.history);
    if LastReads(s) {
      HeadNumber(c.domain, s.history, n);
      OpenOutcome(c, s, open, s.history[n - 1].head, false);
    } else if FallsBack(s.disk, s.history) {
      OpenGoesBack(c, s, open);
    } else {
      RefusedStays(c, s, open);
    }
  }

  lemma OpenGoesBack(c: Config, s: System, open: Event)
    requires SystemInv(c, s) && open.Open? && !LastReads(s) && FallsBack(s.disk, s.history) && s.live.None?
    requires open.opening >= |OpenSteps(s.disk, Choose(s.disk, c.domain))|
    ensures var t := AfterOpenEvent(c, s, open); var n := |s.history|;
      n > 1 && t.history == s.history[..n - 1]
      && (t.live.Some? ==> t.live.value.head == Some(s.history[n - 2].head) && s.history[n - 2].head != s.history[n - 1].head
                           && t.live.value.epoch == s.history[n - 2].head.epoch + 1 && t.live.value.incarnation == open.incarnation)
  {
    hide Readable, WellLinked, DiskInv, LiveInv, ApplyAll, Choose, HeadReads, AfterOpenEvent, Listing, AtomicWriteSteps;
    var n := |s.history|;
    RecoveryChoice(c, s);
    HeadNumber(c.domain, s.history, n - 1);
    HeadsApart(c.domain, s.history);
    RestoreSize(s.disk, s.history[n - 2].head);
    OpenOutcome(c, s, open, s.history[n - 2].head, true);
  }

  lemma EpochsBelow(domain: string, history: seq<Version>)
    requires WellLinked(domain, history)
    ensures forall i, j :: 0 <= i <= j < |history| ==> history[i].head.epoch <= history[j].head.epoch
  {
    forall i, j | 0 <= i <= j < |history|
      ensures history[i].head.epoch <= history[j].head.epoch
    {
      EpochsRise(domain, history, i, j);
    }
  }

  // ----- a damaged head pointer ----------------------------------------------------------------

  /** The disk after its head pointer file was damaged in place. */
  function Damaged(d: Disk): Disk { d[HeadPath := Torn] }

  /** What an open chooses then: the last generation or the one before it, as the backup says, or nothing. */
  lemma DamagedChoice(c: Config, s: System)
    requires SystemInv(c, s)
    ensures var n := |s.history|; var d := Damaged(s.disk);
      Choose(d, c.domain)
      == if LastReads(s) && BackupPath in d && d[BackupPath] == HeadData(s.history[n - 1].head) then Chosen(s.history[n - 1].head, true)
         else if FallsBack(d, s.history) then Chosen(s.history[n - 2].head, true)
         else Refused
  {
    var n := |s.history|;
    var d := Damaged(s.disk);
    hide Readable, WellLinked, LoadCandidate;
    BackupChoice(c.domain, d, s.history);
    assert HeadReads(d, s.history, n - 1) == LastReads(s);
    assert LoadCandidate(d, HeadPath, c.domain) == None by { TornIsNoHead(d, c.domain); }
    Numbered(c, s);
    if n > 1 { HeadsApart(c.domain, s.history); }
  }

  lemma TornIsNoHead(d: Disk, domain: string)
    requires HeadPath in d && d[HeadPath] == Torn
    ensures LoadCandidate(d, HeadPath, domain) == None
  {
  }

  lemma HeadsApart(domain: string, history: seq<Version>)
    requires WellLinked(domain, history) && |history| > 1
    ensures history[|history| - 1].head != history[|history| - 2].head
  {
    assert VersionOk(domain, history, |history| - 1);
    assert VersionOk(domain, history, |history| - 2);
  }

  /**
   * With the head pointer itself damaged, open refuses and changes nothing, or, with power for the
   * restoration, gives back a store that keeps the invariant, with all of the history or all but its last
   * generation; an open cut off earlier leaves both damage and history as they were.
   */
  lemma DamagedHeadIsConservative(c: Config, s: System, e: Event)
    requires SystemInv(c, s) && s.live.None? && e.Open?
    ensures var u := s.(disk := Damaged(s.disk)); var t := AfterOpenEvent(c, u, e); var n := |s.history|;
      if Choose(u.disk, c.domain).Refused? then t == u
      else if e.opening >= 3 then SystemInv(c, t) && (t.history == s.history || (n > 1 && t.history == s.history[..n - 1]))
      else t.live.None? && t.history == s.history && HeadPath in t.disk && t.disk[HeadPath] == Torn
  {
    var u := s.(disk := Damaged(s.disk));
    var n := |s.history|;
    DamagedChoice(c, s);
    hide Readable, WellLinked, ApplyAll, OpenSteps, Choose, HeadReads, AfterOpenEvent;
    var choice := Choose(u.disk, c.domain);
    if choice.Refused? {
      RefusedStays(c, u, e);
    } else if e.opening >= 3 {
      OpenOnBackup(c, u, if choice.head == s.history[n - 1].head then n else n - 1, e);
      assert s.history[..n] == s.history;
    } else {
      CutBeforeRename(c, u, e, choice.head);
    }
  }

  lemma RefusedStays(c: Config, u: System, e: Event)
    requires e.Open? && Choose(u.disk, c.domain).Refused?
    ensures AfterOpenEvent(c, u, e) == u
  {
  }

  lemma CutBeforeRename(c: Config, u: System, e: Event, head: HeadPointer)
    requires e.Open? && Choose(u.disk, c.domain) == Chosen(head, true) && e.opening < 3
    requires HeadPath in u.disk && u.live.None?
    ensures var t := AfterOpenEvent(c, u, e);
      t.live.None? && t.history == u.history && HeadPath in t.disk && t.disk[HeadPath] == u.disk[HeadPath]
  {
    hide Choose, Listing;
    var steps := OpenSteps(u.disk, Chosen(head, true));
    var first := RestoreSteps(u.disk, head, true);
    forall i | 0 <= i < e.opening
      ensures !Touches(steps[..e.opening][i], HeadPath)
    {
      assert steps[i] == first[i];
    }
    Untouched(u.disk, steps[..e.opening], HeadPath);
  }
}
