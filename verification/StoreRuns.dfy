/**
 * Every run of a store: commits, prunes and opens, each of which may lose power after any
 * number of durable steps. `history` lists the generations whose head rename took effect.
 */
module StoreRuns {
  import opened Identities
  import opened Disk
  import opened Store
  import opened Ordering

  /** live is the open store, None when no process holds the store; used are the incarnations drawn so far. */
  datatype System = System(disk: Disk, live: Option<Memory>, used: set<nat>, history: seq<Version>)

  datatype Config = Config(domain: string, maxGenerations: nat)

  /** power bounds the durable steps of the event; a commit that completes may still die before it answers. */
  datatype Event =
    | Commit(request: Request, fence: Fence, text: PayloadText, power: nat, answers: bool)
    | Prune(keepFrom: nat, pruning: nat)
    | Open(incarnation: nat, opening: nat)
    | Crash

  ghost predicate Enabled(s: System, e: Event) {
    match e
    case Commit(_, _, _, _, _) => s.live.Some?
    case Prune(keepFrom, _) => s.live.Some? && keepFrom <= s.live.value.HeadGeneration()
    case Open(incarnation, _) => s.live.None? && incarnation !in s.used
    case Crash => true
  }

  ghost function AfterCommitEvent(c: Config, s: System, e: Event): System
    requires e.Commit? && s.live.Some?
  {
    var m := s.live.value;
    if CommitCheck(m, c.maxGenerations, e.request, e.fence).Some? then s
    else
      var v := NewVersion(m, e.request, e.text);
      var steps := CommitSteps(s.disk, v);
      if e.power < |steps| then s.(disk := ApplyAll(s.disk, steps[..e.power]), live := None)
      else s.(disk := ApplyAll(s.disk, steps), live := if e.answers then Some(AfterCommit(m, v)) else None,
              history := s.history + [v])
  }

  ghost function AfterPruneEvent(s: System, e: Event): System
    requires e.Prune? && s.live.Some?
  {
    var m := s.live.value;
    var names := Prunable(s.disk, e.keepFrom);
    var steps := RemovalSteps(Listing(names));
    if e.pruning < |steps| then s.(disk := ApplyAll(s.disk, steps[..e.pruning]), live := None)
    else s.(disk := ApplyAll(s.disk, steps), live := Some(m.(retained := RetainedAfterPrune(m.retained, |names|))))
  }

  /** The generations up to n: what is left when a head pointer is restored from the backup. */
  function Cut(history: seq<Version>, n: nat): seq<Version> { if n <= |history| then history[..n] else history }

  ghost function AfterOpenEvent(c: Config, s: System, e: Event): System
    requires e.Open?
  {
    var choice := Choose(s.disk, c.domain);
    var steps := OpenSteps(s.disk, choice);
    if choice.Refused? then s
    else
      var restored := choice.Chosen? && choice.fromBackup && e.opening >= |RestoreSteps(s.disk, choice.head, true)|;
      var s' := if restored then s.(history := Cut(s.history, choice.head.generation)) else s;
      if e.opening < |steps| then s'.(disk := ApplyAll(s.disk, steps[..e.opening]))
      else if choice.Chosen? && choice.head.epoch >= MAX_EPOCH then s'.(disk := ApplyAll(s.disk, steps))
      else s'.(disk := ApplyAll(s.disk, steps), live := Some(OpenedMemory(s.disk, c.domain, choice, e.incarnation)),
               used := s.used + {e.incarnation})
  }

  ghost function After(c: Config, s: System, e: Event): System
    requires Enabled(s, e)
  {
    match e
    case Commit(_, _, _, _, _) => AfterCommitEvent(c, s, e)
    case Prune(_, _) => AfterPruneEvent(s, e)
    case Open(_, _) => AfterOpenEvent(c, s, e)
    case Crash => s.(live := None)
  }

  /** t is reached from s by the events, each enabled when it happens. */
  ghost predicate Run(c: Config, s: System, events: seq<Event>, t: System)
    decreases |events|
  {
    if events == [] then s == t
    else Enabled(s, events[0]) && Run(c, After(c, s, events[0]), events[1..], t)
  }

  // ----- the store object takes exactly these steps --------------------------------

  /** The store object in its machine, seen as a system with the given incarnations and history. */
  ghost function Observed(store: IntentStore, used: set<nat>, history: seq<Version>): System
    reads store, store.fs
  {
    System(store.fs.disk, Some(store.Snapshot()), used, history)
  }

  /** A commit call is a commit event whose power is what the machine has left. */
  method CommitRefines(c: Config, store: IntentStore, request: Request, fence: Fence, text: PayloadText,
                       ghost used: set<nat>, ghost history: seq<Version>)
    returns (r: Outcome<HeadPointer>, ghost e: Event, ghost t: System)
    requires store.fs.Valid() && store.maxGenerations == c.maxGenerations
    modifies store, store.fs
    ensures store.fs.Valid()
    ensures e == Commit(request, fence, text, old(store.fs.budget), true)
    ensures t == After(c, old(Observed(store, used, history)), e)
    ensures store.fs.disk == t.disk && (t.live.Some? ==> t.live == Some(store.Snapshot()))
    ensures r.Success? ==> t.live.Some? && |t.history| == |history| + 1 && t.history[|history|].head == r.value
    ensures t.live.None? <==> r == Failure(PowerLost)
  {
    hide ApplyAll, CommitSteps, NewVersion, Listing, CommitCheck;
    e := Commit(request, fence, text, store.fs.budget, true);
    ghost var s := Observed(store, used, history);
    t := After(c, s, e);
    NeverPowerLost(s.live.value, c.maxGenerations, request, fence);
    r := store.Commit(request, fence, text);
    if CommitCheck(s.live.value, c.maxGenerations, request, fence).None? {
      ghost var steps := CommitSteps(s.disk, NewVersion(s.live.value, request, text));
      ApplyAppend(store.fs.start, old(store.fs.log), if r.Success? then steps else steps[..e.power]);
      assert steps[..|steps|] == steps;
    } else {
      ApplyAppend(store.fs.start, old(store.fs.log), []);
      ApplyNothing(s.disk);
    }
  }

  lemma NeverPowerLost(m: Memory, maxGenerations: nat, request: Request, fence: Fence)
    ensures CommitCheck(m, maxGenerations, request, fence) != Some(PowerLost)
    ensures CommitCheck(m, maxGenerations, request, fence).None? ==> request.doc.Some?
  {
  }

  lemma ApplyNothing(d: Disk)
    ensures ApplyAll(d, []) == d
  {
  }

  /** A prune call is a prune event. */
  method PruneRefines(c: Config, store: IntentStore, keepFrom: nat, ghost used: set<nat>, ghost history: seq<Version>)
    returns (ok: bool, ghost t: System)
    requires store.fs.Valid()
    modifies store, store.fs
    ensures store.fs.Valid()
    ensures t == AfterPruneEvent(old(Observed(store, used, history)), Prune(keepFrom, old(store.fs.budget)))
    ensures store.fs.disk == t.disk && (t.live.Some? <==> ok) && (ok ==> t.live == Some(store.Snapshot()))
  {
    hide ApplyAll, Listing;
    ghost var s := Observed(store, used, history);
    ghost var power := store.fs.budget;
    ghost var steps := RemovalSteps(Listing(Prunable(s.disk, keepFrom)));
    t := AfterPruneEvent(s, Prune(keepFrom, power));
    ok := store.PruneBefore(keepFrom);
    ApplyAppend(store.fs.start, old(store.fs.log), if ok then steps else steps[..power]);
    assert steps[..|steps|] == steps;
  }

  /** An open call is an open event. */
  method OpenRefines(c: Config, fs: FileSystem, incarnation: nat, ghost used: set<nat>, ghost history: seq<Version>)
    returns (r: Outcome<IntentStore>, ghost t: System)
    requires fs.Valid()
    modifies fs
    ensures fs.Valid()
    ensures t == AfterOpenEvent(c, System(old(fs.disk), None, used, history), Open(incarnation, old(fs.budget)))
    ensures fs.disk == t.disk && (r.Success? <==> t.live.Some?) && (r.Success? ==> t.live == Some(r.value.Snapshot()))
  {
    hide ApplyAll, Listing, Choose, OpenSteps, OpenedMemory;
    ghost var s := System(fs.disk, None, used, history);
    ghost var power := fs.budget;
    ghost var choice := Choose(s.disk, c.domain);
    ghost var steps := OpenSteps(s.disk, choice);
    t := AfterOpenEvent(c, s, Open(incarnation, power));
    r := Store.Open(fs, c.domain, incarnation, c.maxGenerations);
    ApplyNothing(s.disk);
    NothingToDo(s.disk, choice);
    ApplyAppend(fs.start, old(fs.log), if power < |steps| then steps[..power] else steps);
    assert steps[..|steps|] == steps;
  }

  lemma NothingToDo(d: Disk, choice: Choice)
    ensures !choice.Chosen? ==> OpenSteps(d, choice) == []
  {
  }

  // ----- the invariant ----------------------------------------------------------

  /** Generation i + 1 continues generation i by number, content, head digest, lineage and epoch. */
  ghost predicate VersionOk(domain: string, history: seq<Version>, i: nat)
    requires i < |history|
  {
    var v := history[i];
    && v.head.domain == domain == v.record.envelope.domain
    && v.head.generation == i + 1 == v.record.generation == v.record.envelope.generation
    && v.head.file.generation == i + 1
    && v.record.head == HeadHash(v.head)
    && v.record.envelope.doc == v.head.doc && v.record.envelope.lineage == v.head.lineage
    && v.record.envelope.epoch == v.head.epoch && v.record.envelope.incarnation == v.head.incarnation
    && v.record.envelope.parent == v.head.parent
    && v.head.parent == ParentOf(if i == 0 then None else Some(history[i - 1].head))
    && v.head.lineage == NextLineage(if i == 0 then Genesis(domain) else history[i - 1].head.lineage, domain, i + 1, v.head.doc)
    && (i > 0 ==> history[i - 1].head.epoch <= v.head.epoch)
  }

  ghost predicate WellLinked(domain: string, history: seq<Version>) {
    forall i :: 0 <= i < |history| ==> VersionOk(domain, history, i)
  }

  /** What holds of the record files and the backup at every moment, also in the middle of an operation. */
  ghost predicate DiskBody(d: Disk, history: seq<Version>) {
    var n := |history|;
    && n > 0
    && RecordPath(history[n - 1].head.file) in d
    && (forall name :: RecordPath(name) in d ==> name.generation >= 1)
    && (forall name :: RecordPath(name) in d && name.generation <= n ==>
          name == history[name.generation - 1].head.file && d[RecordPath(name)] == RecordData(history[name.generation - 1].record))
    && (BackupPath in d ==>
          || d[BackupPath] == Torn
          || d[BackupPath] == HeadData(history[n - 1].head)
          || (n > 1 && d[BackupPath] == HeadData(history[n - 2].head)))
  }

  /** And the head pointer names the last generation. */
  ghost predicate DiskInv(d: Disk, history: seq<Version>) {
    DiskBody(d, history) && HeadPath in d && d[HeadPath] == HeadData(history[|history| - 1].head)
  }

  /** What an idle open store knows. */
  ghost predicate LiveInv(domain: string, d: Disk, m: Memory, history: seq<Version>)
    requires |history| > 0
  {
    var last := history[|history| - 1].head;
    && m.domain == domain
    && m.head == Some(last)
    && m.lineage == last.lineage
    && m.epoch >= last.epoch
    && (forall name :: RecordPath(name) in d ==> name.generation <= |history|)
    && m.retained <= |RecordNames(d)|
  }

  ghost predicate SystemInv(c: Config, s: System) {
    && WellLinked(c.domain, s.history)
    && DiskInv(s.disk, s.history)
    && (s.live.Some? ==> LiveInv(c.domain, s.disk, s.live.value, s.history) && s.live.value.incarnation in s.used)
    && (forall i :: 0 <= i < |s.history| ==> s.history[i].head.incarnation in s.used)
  }

  // ----- steps that leave the committed generations alone -----------------------

  ghost predicate Benign(history: seq<Version>, step: Step)
    requires |history| > 0
  {
    match step
    case Write(path, file) =>
      || path.Temp? || path == JournalPath
      || (path == BackupPath && (file == Torn || file == HeadData(history[|history| - 1].head)))
    case Rename(from, to) => from.Temp? && to.RecordPath? && to.name.generation > |history|
    case Remove(path) => path.RecordPath? && path.name.generation != |history|
  }

  lemma BenignKeeps(domain: string, d: Disk, history: seq<Version>, step: Step)
    requires WellLinked(domain, history) && DiskInv(d, history) && Benign(history, step)
    ensures DiskInv(Apply(d, step), history)
  {
    var last := history[|history| - 1];
    assert VersionOk(domain, history, |history| - 1);
  }

  lemma {:induction false} BenignRun(domain: string, d: Disk, history: seq<Version>, steps: seq<Step>)
    requires WellLinked(domain, history) && DiskInv(d, history)
    requires forall i :: 0 <= i < |steps| ==> Benign(history, steps[i])
    ensures DiskInv(ApplyAll(d, steps), history)
  {
    if steps != [] {
      BenignRun(domain, d, history, steps[..|steps| - 1]);
      BenignKeeps(domain, ApplyAll(d, steps[..|steps| - 1]), history, steps[|steps| - 1]);
    }
  }

  // ----- the effect of the plans --------------------------------------------------

  /** A completed atomic write sets its file and, with a backup, copies the previous contents. */
  lemma AtomicWriteEffect(d: Disk, path: Path, file: File, keepBackup: bool)
    requires !path.Temp? && path != BackupPath
    ensures var e := ApplyAll(d, AtomicWriteSteps(d, path, file, keepBackup));
      && path in e && e[path] == file
      && (keepBackup && path in d ==> BackupPath in e && e[BackupPath] == d[path])
      && (forall other :: other != path && other != Temp(path) && (other != BackupPath || !keepBackup || path !in d) ==> SameFile(d, e, other))
  {
    var steps := AtomicWriteSteps(d, path, file, keepBackup);
    var d1 := Apply(d, Write(Temp(path), Torn));
    var d2 := Apply(d1, Write(Temp(path), file));
    ApplyOneMore(d, [], steps[0]);
    ApplyOneMore(d, [steps[0]], steps[1]);
    assert [] + [steps[0]] == [steps[0]] && [steps[0]] + [steps[1]] == steps[..2];
    assert ApplyAll(d, steps[..2]) == d2;
    if keepBackup && path in d {
      ApplyOneMore(d, steps[..2], steps[2]);
      ApplyOneMore(d, steps[..3], steps[3]);
      ApplyOneMore(d, steps[..4], steps[4]);
      assert steps[..2] + [steps[2]] == steps[..3] && steps[..3] + [steps[3]] == steps[..4] && steps[..4] + [steps[4]] == steps;
    } else {
      ApplyOneMore(d, steps[..2], steps[2]);
      assert steps[..2] + [steps[2]] == steps;
    }
  }

  lemma {:induction false} RemovalEffect(d: Disk, names: seq<FileName>)
    ensures var e := ApplyAll(d, RemovalSteps(names));
      && (forall name :: RecordPath(name) in e <==> RecordPath(name) in d && name !in names)
      && (forall name :: RecordPath(name) in e ==> e[RecordPath(name)] == d[RecordPath(name)])
      && SameFile(d, e, HeadPath) && SameFile(d, e, BackupPath)
  {
    if names != [] {
      var m := |names| - 1;
      RemovalEffect(d, names[..m]);
      assert RemovalSteps(names) == RemovalSteps(names[..m]) + [Remove(RecordPath(names[m]))];
      ApplyOneMore(d, RemovalSteps(names[..m]), Remove(RecordPath(names[m])));
      assert names == names[..m] + [names[m]];
    }
  }

  // ----- commit -------------------------------------------------------------------

  lemma NewVersionOk(c: Config, m: Memory, request: Request, fence: Fence, text: PayloadText, history: seq<Version>)
    requires WellLinked(c.domain, history)
    requires if history == [] then m.domain == c.domain && m.head == None && m.lineage == Genesis(c.domain)
             else LiveFacts(c.domain, m, history)
    requires CommitCheck(m, c.maxGenerations, request, fence).None?
    ensures WellLinked(c.domain, history + [NewVersion(m, request, text)])
  {
    var v := NewVersion(m, request, text);
    var after := history + [v];
    if history != [] {
      assert VersionOk(c.domain, history, |history| - 1);
    }
    forall i | 0 <= i < |after|
      ensures VersionOk(c.domain, after, i)
    {
      if i < |history| {
        assert VersionOk(c.domain, history, i);
      }
    }
  }

  /** The part of LiveInv that does not mention the disk. */
  ghost predicate LiveFacts(domain: string, m: Memory, history: seq<Version>) {
    && |history| > 0
    && var last := history[|history| - 1].head;
    && m.domain == domain && m.head == Some(last) && m.lineage == last.lineage && m.epoch >= last.epoch
  }

  /** Until the head rename a commit leaves the committed generations as they were. */
  lemma CommitInterrupted(c: Config, d: Disk, m: Memory, history: seq<Version>, v: Version, k: nat)
    requires WellLinked(c.domain, history) && DiskInv(d, history)
    requires v.head.file.generation == |history| + 1
    requires k < |CommitSteps(d, v)|
    ensures DiskInv(ApplyAll(d, CommitSteps(d, v)[..k]), history)
  {
    var steps := CommitSteps(d, v);
    forall i | 0 <= i < k
      ensures Benign(history, steps[i])
    {
      if i < |RecordSteps(d, v)| {
        assert steps[i] == RecordSteps(d, v)[i];
      } else {
        assert steps[i] == HeadSteps(d, v)[i - |RecordSteps(d, v)|];
      }
    }
    BenignRun(c.domain, d, history, steps[..k]);
  }

  lemma CommitEffect(d: Disk, v: Version)
    ensures var e := ApplyAll(d, CommitSteps(d, v));
      && HeadPath in e && e[HeadPath] == HeadData(v.head)
      && (HeadPath in d ==> BackupPath in e && e[BackupPath] == d[HeadPath])
      && (HeadPath !in d ==> SameFile(d, e, BackupPath))
      && RecordPath(v.head.file) in e && e[RecordPath(v.head.file)] == RecordData(v.record)
      && (forall name :: name != v.head.file ==> SameFile(d, e, RecordPath(name)))
  {
    var write := AtomicWriteSteps(d, RecordPath(v.head.file), RecordData(v.record), false);
    var journal := [Write(JournalPath, Torn), Write(JournalPath, JournalAfter(d, v.head.generation))];
    var d1 := ApplyAll(d, write);
    var d2 := ApplyAll(d1, journal);
    var e := ApplyAll(d, CommitSteps(d, v));
    AtomicWriteEffect(d, RecordPath(v.head.file), RecordData(v.record), false);
    forall path | path != JournalPath
      ensures SameFile(d1, d2, path)
    {
      Untouched(d1, journal, path);
    }
    ApplyAppend(d, write, journal);
    ApplyAppend(d, RecordSteps(d, v), HeadSteps(d, v));
    forall path | path == HeadPath || path == BackupPath || (path.RecordPath? && path.name != v.head.file)
      ensures SameFile(d, d2, path)
    {
      assert SameFile(d, d1, path) && SameFile(d1, d2, path);
    }
    SameHeadSteps(d, d2, v);
    AtomicWriteEffect(d2, HeadPath, HeadData(v.head), true);
    assert SameFile(d1, d2, RecordPath(v.head.file)) && SameFile(d2, e, RecordPath(v.head.file));
    forall name | name != v.head.file
      ensures SameFile(d, e, RecordPath(name))
    {
      assert SameFile(d, d2, RecordPath(name)) && SameFile(d2, e, RecordPath(name));
    }
    assert SameFile(d, d2, BackupPath) && (HeadPath !in d ==> SameFile(d2, e, BackupPath));
  }

  lemma CommitCompleted(c: Config, d: Disk, m: Memory, request: Request, fence: Fence, text: PayloadText, history: seq<Version>)
    requires WellLinked(c.domain, history) && DiskInv(d, history) && LiveInv(c.domain, d, m, history)
    requires CommitCheck(m, c.maxGenerations, request, fence).None?
    ensures var v := NewVersion(m, request, text); var e := ApplyAll(d, CommitSteps(d, v));
      WellLinked(c.domain, history + [v]) && DiskInv(e, history + [v])
      && LiveInv(c.domain, e, AfterCommit(m, v), history + [v])
  {
    var v := NewVersion(m, request, text);
    var e := ApplyAll(d, CommitSteps(d, v));
    assert VersionOk(c.domain, history, |history| - 1);
    NewVersionOk(c, m, request, fence, text, history);
    CommitEffect(d, v);
    CommittedDisk(d, e, history, v);
    hide WellLinked, DiskInv, ApplyAll, CommitSteps, NewVersion, CommitCheck;
    CommittedLive(c.domain, d, e, m, history, v);
  }

  lemma CommittedLive(domain: string, d: Disk, e: Disk, m: Memory, history: seq<Version>, v: Version)
    requires |history| > 0 && LiveInv(domain, d, m, history)
    requires v.head.file.generation == |history| + 1 && v.head.epoch == m.epoch
    requires RecordPath(v.head.file) in e
    requires forall name :: name != v.head.file ==> SameFile(d, e, RecordPath(name))
    ensures LiveInv(domain, e, AfterCommit(m, v), history + [v])
  {
    forall name
      ensures name in RecordNames(e) <==> name in RecordNames(d) + {v.head.file}
    {
      assert name != v.head.file ==> SameFile(d, e, RecordPath(name));
    }
    assert v.head.file !in RecordNames(d);
    assert RecordNames(e) == RecordNames(d) + {v.head.file};
    forall name | RecordPath(name) in e
      ensures name.generation <= |history + [v]|
    {
      assert name in RecordNames(e);
    }
  }

  lemma CommittedDisk(d: Disk, e: Disk, history: seq<Version>, v: Version)
    requires DiskInv(d, history) && v.head.file.generation == |history| + 1
    requires forall name :: RecordPath(name) in d ==> name.generation <= |history|
    requires HeadPath in e && e[HeadPath] == HeadData(v.head)
    requires BackupPath in e && e[BackupPath] == d[HeadPath]
    requires RecordPath(v.head.file) in e && e[RecordPath(v.head.file)] == RecordData(v.record)
    requires forall name :: name != v.head.file ==> SameFile(d, e, RecordPath(name))
    ensures DiskInv(e, history + [v])
  {
    var after := history + [v];
    forall name | RecordPath(name) in e && name.generation <= |after|
      ensures name.generation >= 1 && name == after[name.generation - 1].head.file
      ensures e[RecordPath(name)] == RecordData(after[name.generation - 1].record)
    {
      if name != v.head.file {
        assert SameFile(d, e, RecordPath(name));
      }
    }
    forall name | RecordPath(name) in e
      ensures name.generation >= 1
    {
      assert name != v.head.file ==> SameFile(d, e, RecordPath(name));
    }
  }

  // ----- open ---------------------------------------------------------------------

  /** The record of a retained generation passes the reader's checks exactly when it is within its limits. */
  lemma RetainedReads(domain: string, d: Disk, history: seq<Version>, name: FileName)
    requires WellLinked(domain, history) && DiskBody(d, history)
    requires RecordPath(name) in d && name.generation <= |history|
    ensures name.generation >= 1 && name == history[name.generation - 1].head.file
    ensures var record := history[name.generation - 1].record;
      ReadRecord(d, name, domain) == if Readable(record.envelope) then Some(record) else None
  {
    hide Readable;
    assert VersionOk(domain, history, name.generation - 1);
  }

  /** The records that are read to verify a head pointer of generation i + 1 are within the limits. */
  ghost predicate HeadReads(d: Disk, history: seq<Version>, i: nat)
    requires i < |history|
  {
    && Readable(history[i].record.envelope)
    && (i > 0 && RecordPath(history[i - 1].head.file) in d ==> Readable(history[i - 1].record.envelope))
  }

  lemma ChainHolds(domain: string, d: Disk, history: seq<Version>, i: nat)
    requires WellLinked(domain, history) && DiskBody(d, history) && i < |history|
    ensures ChainOk(d, history[i].head)
      <==> (i > 0 && RecordPath(history[i - 1].head.file) in d ==> Readable(history[i - 1].record.envelope))
  {
    hide Readable;
    assert VersionOk(domain, history, i);
    if i > 0 {
      assert VersionOk(domain, history, i - 1);
      var file := history[i - 1].head.file;
      assert RecordPath(file) in d ==> file in FilesOf(d, i);
      if FilesOf(d, i) != {} {
        var name := Least(FilesOf(d, i));
        assert name in FilesOf(d, i);
        RetainedReads(domain, d, history, name);
      }
    }
  }

  /** A head pointer of the history is verified exactly when its records are there and within the limits. */
  lemma CandidateLoads(domain: string, d: Disk, history: seq<Version>, path: Path, i: nat)
    requires WellLinked(domain, history) && DiskBody(d, history)
    requires i < |history| && path in d && d[path] == HeadData(history[i].head)
    ensures LoadCandidate(d, path, domain)
      == if RecordPath(history[i].head.file) in d && HeadReads(d, history, i) then Some(history[i].head) else None
  {
    hide Readable, ChainOk;
    var h := history[i].head;
    assert VersionOk(domain, history, i);
    ChainHolds(domain, d, history, i);
    if RecordPath(h.file) in d {
      RetainedReads(domain, d, history, h.file);
    }
  }

  /** The backup names the last generation but one, and that one can be verified. */
  ghost predicate FallsBack(d: Disk, history: seq<Version>) {
    var n := |history|;
    && n > 1
    && BackupPath in d && d[BackupPath] == HeadData(history[n - 2].head)
    && RecordPath(history[n - 2].head.file) in d && HeadReads(d, history, n - 2)
  }

  /**
   * What opening chooses after any crash: the last generation whose head rename took effect, exactly when
   * its record, and its predecessor's if that is retained, are within the reader's limits. Otherwise it
   * falls back by one generation if the backup allows it, and refuses if not.
   */
  lemma RecoveryChoice(c: Config, s: System)
    requires SystemInv(c, s)
    ensures var n := |s.history|;
      Choose(s.disk, c.domain)
      == if HeadReads(s.disk, s.history, n - 1) then Chosen(s.history[n - 1].head, false)
         else if FallsBack(s.disk, s.history) then Chosen(s.history[n - 2].head, true)
         else Refused
  {
    hide Readable, HeadReads, LoadCandidate;
    var n := |s.history|;
    CandidateLoads(c.domain, s.disk, s.history, HeadPath, n - 1);
    assert VersionOk(c.domain, s.history, n - 1);
    if n > 1 { assert VersionOk(c.domain, s.history, n - 2); }
    BackupChoice(c.domain, s.disk, s.history);
  }

  /** What the backup gives. */
  lemma BackupChoice(domain: string, d: Disk, history: seq<Version>)
    requires WellLinked(domain, history) && DiskBody(d, history)
    ensures var n := |history|; var backup := LoadCandidate(d, BackupPath, domain);
      || (backup == None && !FallsBack(d, history)
          && !(BackupPath in d && d[BackupPath] == HeadData(history[n - 1].head) && HeadReads(d, history, n - 1)))
      || (backup == Some(history[n - 1].head) && HeadReads(d, history, n - 1)
          && BackupPath in d && d[BackupPath] == HeadData(history[n - 1].head))
      || (n > 1 && backup == Some(history[n - 2].head) && FallsBack(d, history))
  {
    hide Readable, HeadReads;
    var n := |history|;
    assert VersionOk(domain, history, n - 1);
    if n > 1 { assert VersionOk(domain, history, n - 2); }
    if BackupPath in d && d[BackupPath] == HeadData(history[n - 1].head) {
      CandidateLoads(domain, d, history, BackupPath, n - 1);
    } else if n > 1 && BackupPath in d && d[BackupPath] == HeadData(history[n - 2].head) {
      CandidateLoads(domain, d, history, BackupPath, n - 2);
    }
  }

  lemma OrphanRemovalBenign(d: Disk, history: seq<Version>, names: seq<FileName>)
    requires |history| > 0 && forall name :: name in names ==> name.generation != |history|
    ensures forall i :: 0 <= i < |names| ==> Benign(history, RemovalSteps(names)[i])
  {
    forall i | 0 <= i < |names|
      ensures Benign(history, RemovalSteps(names)[i])
    {
      assert names[i] in names;
    }
  }

  /** Removing any prefix of the listed orphans keeps the committed generations; removing all leaves none. */
  lemma OrphansRemoved(domain: string, d: Disk, history: seq<Version>, k: nat)
    requires WellLinked(domain, history) && DiskInv(d, history)
    requires k <= |RemovalSteps(Listing(Orphans(d, |history|)))|
    ensures var steps := RemovalSteps(Listing(Orphans(d, |history|))); var e := ApplyAll(d, steps[..k]);
      && DiskInv(e, history)
      && (k == |steps| ==> RecordNames(e) == RecordNames(d) - Orphans(d, |history|)
                           && forall name :: RecordPath(name) in e ==> name.generation <= |history|)
  {
    var orphans := Orphans(d, |history|);
    var steps := RemovalSteps(Listing(orphans));
    ListingMembers(orphans);
    OrphanRemovalBenign(d, history, Listing(orphans));
    BenignRun(domain, d, history, steps[..k]);
    if k == |steps| {
      assert steps[..k] == steps;
      RemovalEffect(d, Listing(orphans));
    }
  }

  /** What an opening that chose a head pointer did, as far as power lasted. */
  lemma OpenOutcome(c: Config, s: System, e: Event, head: HeadPointer, fromBackup: bool)
    requires e.Open? && Choose(s.disk, c.domain) == Chosen(head, fromBackup)
    requires fromBackup ==> e.opening >= 3
    ensures var steps := OpenSteps(s.disk, Chosen(head, fromBackup)); var t := AfterOpenEvent(c, s, e);
      var k := if e.opening < |steps| then e.opening else |steps|;
      && t.disk == ApplyAll(s.disk, steps[..k])
      && t.history == (if fromBackup then Cut(s.history, head.generation) else s.history)
      && if k < |steps| || head.epoch >= MAX_EPOCH then t.live == s.live && t.used == s.used
         else t.live == Some(OpenedMemory(s.disk, c.domain, Chosen(head, fromBackup), e.incarnation)) && t.used == s.used + {e.incarnation}
  {
    RestoreSize(s.disk, head);
    hide Choose, OpenSteps, ApplyAll, OpenedMemory, RestoreSteps, Cut;
    var steps := OpenSteps(s.disk, Chosen(head, fromBackup));
    assert steps[..|steps|] == steps;
  }

  /** The invariant, put together from its parts. */
  lemma Reopened(c: Config, s: System, t: System, incarnation: nat)
    requires WellLinked(c.domain, t.history) && DiskInv(t.disk, t.history) && t.history <= s.history
    requires forall i :: 0 <= i < |s.history| ==> s.history[i].head.incarnation in s.used
    requires s.live.None? && t.used == (if t.live.None? then s.used else s.used + {incarnation})
    requires t.live.Some? ==> LiveInv(c.domain, t.disk, t.live.value, t.history) && t.live.value.incarnation == incarnation
    ensures SystemInv(c, t)
  {
    hide WellLinked, DiskInv, LiveInv;
  }

  /** Opening on the head pointer itself keeps all of the history. */
  lemma OpenOnPrimary(c: Config, s: System, e: Event)
    requires SystemInv(c, s) && e.Open? && Enabled(s, e) && HeadReads(s.disk, s.history, |s.history| - 1)
    ensures SystemInv(c, AfterOpenEvent(c, s, e)) && AfterOpenEvent(c, s, e).history == s.history
  {
    var n := |s.history|;
    var last := s.history[n - 1].head;
    RecoveryChoice(c, s);
    assert last.generation == n by { assert VersionOk(c.domain, s.history, n - 1); }
    OpenOutcome(c, s, e, last, false);
    var t := AfterOpenEvent(c, s, e);
    hide AfterOpenEvent, Listing, Choose, DiskInv, LiveInv, Orphans, WellLinked, HeadReads, ApplyAll, OpenedMemory;
    var steps := OpenSteps(s.disk, Chosen(last, false));
    if last.epoch >= MAX_EPOCH {
      assert steps == [];
      ApplyNothing(s.disk);
    } else {
      var removals := RemovalSteps(Listing(Orphans(s.disk, n)));
      assert steps == removals;
      var k := if e.opening < |steps| then e.opening else |steps|;
      OrphansRemoved(c.domain, s.disk, s.history, k);
      if k == |steps| {
        OpenedLive(c, s.disk, s.history, t.disk, e.incarnation, false);
      }
    }
    Reopened(c, s, t, e.incarnation);
  }

  /** Restoring generation j from the backup gives a disk on which it is the last one. */
  lemma Restored(domain: string, d: Disk, history: seq<Version>, j: nat)
    requires WellLinked(domain, history) && DiskBody(d, history)
    requires 1 <= j <= |history| && RecordPath(history[j - 1].head.file) in d
    requires BackupPath in d && d[BackupPath] == HeadData(history[j - 1].head)
    ensures var d' := ApplyAll(d, RestoreSteps(d, history[j - 1].head, true));
      WellLinked(domain, history[..j]) && DiskInv(d', history[..j]) && RecordNames(d') == RecordNames(d)
  {
    var d' := ApplyAll(d, RestoreSteps(d, history[j - 1].head, true));
    AtomicWriteEffect(d, HeadPath, HeadData(history[j - 1].head), false);
    assert SameFile(d, d', BackupPath);
    forall name
      ensures SameFile(d, d', RecordPath(name))
    {
    }
    forall name
      ensures name in RecordNames(d') <==> name in RecordNames(d)
    {
      assert SameFile(d, d', RecordPath(name));
    }
    forall i | 0 <= i < j
      ensures VersionOk(domain, history[..j], i)
    {
      assert VersionOk(domain, history, i);
    }
    forall name | RecordPath(name) in d'
      ensures name.generation >= 1
      ensures name.generation <= j ==> name == history[name.generation - 1].head.file
      ensures name.generation <= j ==> d'[RecordPath(name)] == RecordData(history[name.generation - 1].record)
    {
      assert SameFile(d, d', RecordPath(name));
    }
  }

  /** The steps of such an opening: the restoration, then the removals. */
  lemma BackupSteps(d: Disk, e: Disk, head: HeadPointer, k: nat)
    requires e == ApplyAll(d, RestoreSteps(d, head, true)) && RecordNames(e) == RecordNames(d)
    requires 3 <= k <= |OpenSteps(d, Chosen(head, true))|
    ensures var n := head.generation; var removals := RemovalSteps(Listing(Orphans(e, n)));
      && Orphans(e, n) == Orphans(d, n)
      && |OpenSteps(d, Chosen(head, true))| == 3 + (if head.epoch >= MAX_EPOCH then 0 else |removals|)
      && ApplyAll(d, OpenSteps(d, Chosen(head, true))[..k]) == if head.epoch >= MAX_EPOCH then e else ApplyAll(e, removals[..k - 3])
  {
    var first := RestoreSteps(d, head, true);
    RestoreSize(d, head);
    assert Orphans(e, head.generation) == Orphans(d, head.generation);
    hide Listing, RestoreSteps, Orphans, ApplyAll;
    var second := if head.epoch >= MAX_EPOCH then [] else RemovalSteps(Listing(Orphans(e, head.generation)));
    var steps := OpenSteps(d, Chosen(head, true));
    assert steps == first + second;
    assert steps[..k] == first + second[..k - 3];
    ApplyAppend(d, first, second[..k - 3]);
    ApplyNothing(e);
  }

  /** Once the restoration is done, and however many removals follow, the earlier history holds. */
  lemma BackupPlan(domain: string, d: Disk, history: seq<Version>, j: nat, k: nat)
    requires WellLinked(domain, history) && DiskBody(d, history)
    requires 1 <= j <= |history| && RecordPath(history[j - 1].head.file) in d
    requires BackupPath in d && d[BackupPath] == HeadData(history[j - 1].head)
    requires 3 <= k <= |OpenSteps(d, Chosen(history[j - 1].head, true))|
    ensures var head := history[j - 1].head; var steps := OpenSteps(d, Chosen(head, true)); var d' := ApplyAll(d, steps[..k]);
      && WellLinked(domain, history[..j]) && DiskInv(d', history[..j])
      && (k == |steps| && head.epoch < MAX_EPOCH ==>
            RecordNames(d') == RecordNames(d) - Orphans(d, j) && forall name :: RecordPath(name) in d' ==> name.generation <= j)
  {
    var head := history[j - 1].head;
    var e := ApplyAll(d, RestoreSteps(d, head, true));
    assert head.generation == j by { assert VersionOk(domain, history, j - 1); }
    Restored(domain, d, history, j);
    hide Listing, DiskInv, DiskBody, WellLinked, RestoreSteps, Orphans, ApplyAll, OpenSteps, RecordNames;
    BackupSteps(d, e, head, k);
    if head.epoch < MAX_EPOCH {
      OrphansRemoved(domain, e, history[..j], k - 3);
    }
  }

  lemma RestoreSize(d: Disk, head: HeadPointer)
    ensures |RestoreSteps(d, head, true)| == 3
  {
  }

  /** Opening on the backup makes the generation it names the last one, as soon as the rename is done. */
  lemma OpenOnBackup(c: Config, s: System, j: nat, e: Event)
    requires WellLinked(c.domain, s.history) && DiskBody(s.disk, s.history) && s.live.None?
    requires forall i :: 0 <= i < |s.history| ==> s.history[i].head.incarnation in s.used
    requires e.Open? && 1 <= j <= |s.history| && RecordPath(s.history[j - 1].head.file) in s.disk
    requires BackupPath in s.disk && s.disk[BackupPath] == HeadData(s.history[j - 1].head)
    requires Choose(s.disk, c.domain) == Chosen(s.history[j - 1].head, true) && e.opening >= 3
    ensures SystemInv(c, AfterOpenEvent(c, s, e)) && AfterOpenEvent(c, s, e).history == s.history[..j]
  {
    hide AfterOpenEvent, Choose, DiskInv, DiskBody, LiveInv, WellLinked, Orphans, OpenedMemory, ApplyAll, RecordNames, AtomicWriteSteps;
    var head := s.history[j - 1].head;
    var steps := OpenSteps(s.disk, Chosen(head, true));
    var k := if e.opening < |steps| then e.opening else |steps|;
    HeadNumber(c.domain, s.history, j);
    RestoreSize(s.disk, head);
    assert |steps| >= 3;
    BackupPlan(c.domain, s.disk, s.history, j, k);
    OpenOutcome(c, s, e, head, true);
    hide OpenSteps, RestoreSteps;
    var t := AfterOpenEvent(c, s, e);
    if k == |steps| && head.epoch < MAX_EPOCH {
      OpenedLive(c, s.disk, s.history[..j], t.disk, e.incarnation, true);
    }
    Reopened(c, s, t, e.incarnation);
  }

  lemma HeadNumber(domain: string, history: seq<Version>, j: nat)
    requires WellLinked(domain, history) && 1 <= j <= |history|
    ensures history[j - 1].head.generation == j
  {
    assert VersionOk(domain, history, j - 1);
  }

  /** Until the rename, restoring the head pointer changes nothing that matters. */
  lemma RestoreInterrupted(c: Config, s: System, e: Event)
    requires SystemInv(c, s) && e.Open? && FallsBack(s.disk, s.history)
    requires Choose(s.disk, c.domain) == Chosen(s.history[|s.history| - 2].head, true) && e.opening < 3
    ensures SystemInv(c, AfterOpenEvent(c, s, e).(live := None)) && AfterOpenEvent(c, s, e).history == s.history
    ensures AfterOpenEvent(c, s, e).live == s.live
  {
    var head := s.history[|s.history| - 2].head;
    var steps := OpenSteps(s.disk, Chosen(head, true));
    hide Choose, FallsBack, Listing;
    var first := RestoreSteps(s.disk, head, true);
    forall i | 0 <= i < e.opening
      ensures Benign(s.history, steps[i])
    {
      assert steps[i] == first[i];
    }
    BenignRun(c.domain, s.disk, s.history, steps[..e.opening]);
  }

  /** Opening keeps the invariant; only when it falls back to the backup does it give up the last generation. */
  lemma OpenKeeps(c: Config, s: System, e: Event)
    requires SystemInv(c, s) && e.Open? && Enabled(s, e)
    ensures var t := AfterOpenEvent(c, s, e); var n := |s.history|;
      && SystemInv(c, t)
      && (t.history == s.history || (!HeadReads(s.disk, s.history, n - 1) && n > 1 && t.history == s.history[..n - 1]))
  {
    var n := |s.history|;
    RecoveryChoice(c, s);
    if HeadReads(s.disk, s.history, n - 1) {
      OpenOnPrimary(c, s, e);
    } else if FallsBack(s.disk, s.history) {
      if e.opening < 3 {
        RestoreInterrupted(c, s, e);
      } else {
        OpenOnBackup(c, s, n - 1, e);
      }
    }
  }

  lemma OpenedLive(c: Config, d: Disk, history: seq<Version>, d': Disk, incarnation: nat, fromBackup: bool)
    requires |history| > 0 && WellLinked(c.domain, history)
    requires RecordNames(d') == RecordNames(d) - Orphans(d, |history|)
    requires forall name :: RecordPath(name) in d' ==> name.generation <= |history|
    ensures var last := history[|history| - 1].head;
      LiveInv(c.domain, d', OpenedMemory(d, c.domain, Chosen(last, fromBackup), incarnation), history)
      && OpenedMemory(d, c.domain, Chosen(last, fromBackup), incarnation).incarnation == incarnation
  {
    assert VersionOk(c.domain, history, |history| - 1);
  }

  // ----- prune --------------------------------------------------------------------

  /** Removing any prefix of the listed earlier records keeps what is left of the committed generations. */
  lemma PrefixPruned(domain: string, d: Disk, history: seq<Version>, names: set<FileName>, k: nat)
    requires WellLinked(domain, history) && DiskInv(d, history)
    requires forall name :: name in names ==> name.generation < |history|
    requires k <= |RemovalSteps(Listing(names))|
    ensures var steps := RemovalSteps(Listing(names)); var e := ApplyAll(d, steps[..k]);
      && DiskInv(e, history)
      && (k == |steps| ==> RecordNames(e) == RecordNames(d) - names)
  {
    var steps := RemovalSteps(Listing(names));
    ListingMembers(names);
    OrphanRemovalBenign(d, history, Listing(names));
    BenignRun(domain, d, history, steps[..k]);
    if k == |steps| {
      assert steps[..k] == steps;
      RemovalEffect(d, Listing(names));
    }
  }

  lemma LastNumber(c: Config, s: System)
    requires SystemInv(c, s)
    ensures |s.history| > 0 && s.history[|s.history| - 1].head.generation == |s.history|
  {
    assert VersionOk(c.domain, s.history, |s.history| - 1);
  }

  lemma PruneKeeps(c: Config, s: System, e: Event)
    requires SystemInv(c, s) && e.Prune? && Enabled(s, e)
    ensures SystemInv(c, AfterPruneEvent(s, e))
  {
    hide DiskBody, WellLinked, Listing, ApplyAll;
    var names := Prunable(s.disk, e.keepFrom);
    var steps := RemovalSteps(Listing(names));
    var d := ApplyAll(s.disk, steps);
    LastNumber(c, s);
    ListingMembers(names);
    PrefixPruned(c.domain, s.disk, s.history, names, if e.pruning < |steps| then e.pruning else |steps|);
    assert steps[..|steps|] == steps;
    assert names <= RecordNames(s.disk);
    hide DiskInv, LiveInv, Prunable;
    if e.pruning >= |steps| {
      PrunedLive(c.domain, s.disk, d, s.live.value, s.history, names);
    }
  }

  lemma PrunedLive(domain: string, d: Disk, e: Disk, m: Memory, history: seq<Version>, names: set<FileName>)
    requires |history| > 0 && LiveInv(domain, d, m, history)
    requires names <= RecordNames(d) && RecordNames(e) == RecordNames(d) - names
    ensures LiveInv(domain, e, m.(retained := RetainedAfterPrune(m.retained, |names|)), history)
  {
    forall name | RecordPath(name) in e
      ensures name.generation <= |history|
    {
      assert name in RecordNames(e);
    }
  }

  // ----- runs ---------------------------------------------------------------------

  /** An accepted commit is of the next generation and by the open incarnation. */
  lemma NextNumber(c: Config, s: System, request: Request, fence: Fence, text: PayloadText)
    requires SystemInv(c, s) && s.live.Some? && CommitCheck(s.live.value, c.maxGenerations, request, fence).None?
    ensures request.doc.Some?
    ensures var v := NewVersion(s.live.value, request, text);
      v.head.file.generation == |s.history| + 1 && v.head.incarnation == s.live.value.incarnation
  {
    assert VersionOk(c.domain, s.history, |s.history| - 1);
  }

  lemma CommitKeeps(c: Config, s: System, e: Event)
    requires SystemInv(c, s) && e.Commit? && Enabled(s, e)
    ensures var t := AfterCommitEvent(c, s, e); SystemInv(c, t) && s.history <= t.history
  {
    hide WellLinked, DiskInv, DiskBody, LiveInv, ApplyAll, CommitSteps, Apply;
    var m := s.live.value;
    if CommitCheck(m, c.maxGenerations, e.request, e.fence).None? {
      var v := NewVersion(m, e.request, e.text);
      NextNumber(c, s, e.request, e.fence, e.text);
      hide CommitCheck, NewVersion;
      if e.power < |CommitSteps(s.disk, v)| {
        CommitInterrupted(c, s.disk, m, s.history, v, e.power);
      } else {
        CommitCompleted(c, s.disk, m, e.request, e.fence, e.text, s.history);
      }
    }
  }

  /**
   * Every event, wherever it loses power, keeps the invariant. Nothing but an opening that cannot read the
   * last record takes a committed generation away, and then only that one.
   */
  lemma EventKeeps(c: Config, s: System, e: Event)
    requires SystemInv(c, s) && Enabled(s, e)
    ensures var t := After(c, s, e); var n := |s.history|;
      && SystemInv(c, t)
      && (s.history <= t.history
          || (e.Open? && !HeadReads(s.disk, s.history, n - 1) && n > 1 && t.history == s.history[..n - 1]))
  {
    match e
    case Commit(_, _, _, _, _) => CommitKeeps(c, s, e);
    case Prune(_, _) => PruneKeeps(c, s, e);
    case Open(_, _) => OpenKeeps(c, s, e);
    case Crash =>
  }

  lemma {:induction false} RunKeeps(c: Config, s: System, events: seq<Event>, t: System)
    requires SystemInv(c, s) && Run(c, s, events, t)
    ensures SystemInv(c, t)
    decreases |events|
  {
    if events != [] {
      EventKeeps(c, s, events[0]);
      RunKeeps(c, After(c, s, events[0]), events[1..], t);
    }
  }

  lemma {:induction false} EpochsRise(domain: string, history: seq<Version>, i: nat, j: nat)
    requires WellLinked(domain, history) && i <= j < |history|
    ensures history[i].head.epoch <= history[j].head.epoch
  {
    if i < j {
      EpochsRise(domain, history, i, j - 1);
      assert VersionOk(domain, history, j);
    }
  }

  // ----- fencing --------------------------------------------------------------------

  /**
   * A token made for an earlier opening of the store is always refused, even when no commit separates
   * the two openings and they share an epoch: the incarnation differs.
   */
  lemma StaleTokenRefused(c: Config, s: System, incarnation: nat, power: nat, events: seq<Event>, t: System,
                          request: Request, fence: Fence)
    requires SystemInv(c, s) && fence.incarnation in s.used && Enabled(s, Open(incarnation, power))
    requires After(c, s, Open(incarnation, power)).live.Some?
    requires Run(c, After(c, s, Open(incarnation, power)), events, t) && t.live.Some?
    ensures CommitCheck(t.live.value, c.maxGenerations, request, fence).Some?
  {
    hide After, Run, SystemInv, CommitCheck;
    OpenDraws(c, s, incarnation, power);
    NewIncarnationStays(c, s.used, After(c, s, Open(incarnation, power)), events, t);
    OtherIncarnation(t.live.value, c.maxGenerations, request, fence);
  }

  /** The open store has the incarnation drawn, and every earlier one is still taken. */
  lemma OpenDraws(c: Config, s: System, incarnation: nat, power: nat)
    requires Enabled(s, Open(incarnation, power))
    ensures var t := After(c, s, Open(incarnation, power));
      s.used <= t.used && (t.live.Some? ==> t.live.value.incarnation == incarnation && incarnation !in s.used)
  {
    hide Choose, OpenSteps, ApplyAll, RestoreSteps;
  }

  lemma OtherIncarnation(m: Memory, maxGenerations: nat, request: Request, fence: Fence)
    requires m.incarnation != fence.incarnation
    ensures CommitCheck(m, maxGenerations, request, fence).Some?
  {
  }

  lemma {:induction false} NewIncarnationStays(c: Config, earlier: set<nat>, s: System, events: seq<Event>, t: System)
    requires earlier <= s.used && (s.live.Some? ==> s.live.value.incarnation !in earlier)
    requires Run(c, s, events, t)
    ensures t.live.Some? ==> t.live.value.incarnation !in earlier
    decreases |events|
  {
    hide After;
    if events != [] {
      IncarnationStays(c, earlier, s, events[0]);
      NewIncarnationStays(c, earlier, After(c, s, events[0]), events[1..], t);
    }
  }

  lemma IncarnationStays(c: Config, earlier: set<nat>, s: System, e: Event)
    requires earlier <= s.used && (s.live.Some? ==> s.live.value.incarnation !in earlier) && Enabled(s, e)
    ensures var t := After(c, s, e);
      earlier <= t.used && (t.live.Some? ==> t.live.value.incarnation !in earlier)
  {
    hide Choose, OpenSteps, ApplyAll, RestoreSteps, CommitSteps, CommitCheck, Listing;
  }
}
