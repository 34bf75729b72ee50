/**
 * The window before the first commit completes. Without a head pointer `open` removes nothing
 * (src/store.cpp:890-900), so record files of interrupted first commits stay behind. This module
 * proves exactly when the recovery guarantee of Recovery holds from the first commit on.
 */
module FirstCommit {
  import opened Identities
  import opened Disk
  import opened Store
  import opened StoreRuns
  import opened Recovery
  import JsonGrammar

  /** A store just created. */
  function Created(c: Config, incarnation: nat): System {
    System(map[], Some(Memory(c.domain, 1, incarnation, None, Genesis(c.domain), 0)), {incarnation}, [])
  }

  /** The record files all belong to attempts at generation 1. */
  ghost predicate OnlyAttempts(d: Disk) {
    forall name :: RecordPath(name) in d ==>
      name.generation == 1 && d[RecordPath(name)].RecordData? && d[RecordPath(name)].record.head.head.file == name
  }

  ghost predicate BeforeFirst(c: Config, s: System) {
    && s.history == []
    && HeadPath !in s.disk && BackupPath !in s.disk
    && OnlyAttempts(s.disk)
    && (s.live.Some? ==>
          var m := s.live.value;
          m.domain == c.domain && m.head == None && m.lineage == Genesis(c.domain) && m.retained == 0 && m.incarnation in s.used)
  }

  /** The first commit has completed; attempts that never completed may still lie around. */
  ghost predicate FirstDone(c: Config, s: System) {
    && |s.history| == 1
    && WellLinked(c.domain, s.history)
    && HeadPath in s.disk && s.disk[HeadPath] == HeadData(s.history[0].head)
    && BackupPath !in s.disk
    && OnlyAttempts(s.disk)
    && RecordPath(s.history[0].head.file) in s.disk
    && s.disk[RecordPath(s.history[0].head.file)] == RecordData(s.history[0].record)
    && s.history[0].head.incarnation in s.used
    && (s.live.Some? ==>
          LiveFacts(c.domain, s.live.value, s.history) && s.live.value.retained <= 1 && s.live.value.incarnation in s.used)
  }

  /** Every later run that commits only what can be read leaves a disk from which the last generation is recovered. */
  ghost predicate AlwaysRecovers(c: Config, s: System) {
    forall events, t :: Run(c, s, events, t) && ReadableCommits(c, s, events) ==> |t.history| > 0 && Recovers(c, t)
  }

  lemma CreatedIsBeforeFirst(c: Config, incarnation: nat)
    ensures BeforeFirst(c, Created(c, incarnation))
  {
  }

  // ----- attempts -------------------------------------------------------------------

  /** A step of an attempt that neither touches the head pointer nor its backup. */
  ghost predicate AttemptStep(step: Step) {
    match step
    case Write(path, _) => path.Temp? || path == JournalPath
    case Rename(from, to) => false
    case Remove(path) => false
  }

  lemma {:induction false} AttemptSteps(d: Disk, steps: seq<Step>)
    requires forall i :: 0 <= i < |steps| ==> AttemptStep(steps[i])
    ensures var e := ApplyAll(d, steps); forall path: Path :: !path.Temp? && path != JournalPath ==> SameFile(d, e, path)
  {
    forall path: Path | !path.Temp? && path != JournalPath
      ensures SameFile(d, ApplyAll(d, steps), path)
    {
      forall i | 0 <= i < |steps|
        ensures !Touches(steps[i], path)
      {
        assert AttemptStep(steps[i]);
      }
      Untouched(d, steps, path);
    }
  }

  /** An interrupted first commit leaves at most one more attempt behind. */
  lemma AttemptInterrupted(d: Disk, v: Version, k: nat)
    requires HeadPath !in d && BackupPath !in d && OnlyAttempts(d)
    requires v.head.file.generation == 1 && v.record.head == HeadHash(v.head)
    requires k < |CommitSteps(d, v)|
    ensures var e := ApplyAll(d, CommitSteps(d, v)[..k]); HeadPath !in e && BackupPath !in e && OnlyAttempts(e)
  {
    hide ApplyAll, OnlyAttempts;
    var steps := CommitSteps(d, v);
    var write := AtomicWriteSteps(d, RecordPath(v.head.file), RecordData(v.record), false);
    assert |write| == 3 && write == steps[..3];
    if k < 3 {
      assert forall i :: 0 <= i < k ==> AttemptStep(steps[i]);
      AttemptSteps(d, steps[..k]);
      SameAttempts(d, ApplyAll(d, steps[..k]));
    } else {
      var rest := steps[3..k];
      assert steps[..k] == write + rest;
      ApplyAppend(d, write, rest);
      AtomicWriteEffect(d, RecordPath(v.head.file), RecordData(v.record), false);
      var d1 := ApplyAll(d, write);
      assert SameFile(d, d1, HeadPath) && SameFile(d, d1, BackupPath);
      MoreAttempts(d, d1, v);
      assert HeadSteps(d, v) == [Write(Temp(HeadPath), Torn), Write(Temp(HeadPath), HeadData(v.head)), Rename(Temp(HeadPath), HeadPath)];
      forall i | 0 <= i < |rest|
        ensures AttemptStep(rest[i])
      {
        assert rest[i] == steps[i + 3];
        if i + 3 >= 5 { assert rest[i] == HeadSteps(d, v)[i + 3 - 5]; }
      }
      AttemptSteps(d1, rest);
      SameAttempts(d1, ApplyAll(d1, rest));
    }
  }

  lemma SameAttempts(d: Disk, e: Disk)
    requires HeadPath !in d && BackupPath !in d && OnlyAttempts(d)
    requires forall path: Path :: !path.Temp? && path != JournalPath ==> SameFile(d, e, path)
    ensures HeadPath !in e && BackupPath !in e && OnlyAttempts(e)
  {
    assert SameFile(d, e, HeadPath) && SameFile(d, e, BackupPath);
    forall name | RecordPath(name) in e
      ensures RecordPath(name) in d && e[RecordPath(name)] == d[RecordPath(name)]
    {
      assert SameFile(d, e, RecordPath(name));
    }
  }

  lemma MoreAttempts(d: Disk, e: Disk, v: Version)
    requires OnlyAttempts(d) && v.head.file.generation == 1 && v.record.head == HeadHash(v.head)
    requires RecordPath(v.head.file) in e && e[RecordPath(v.head.file)] == RecordData(v.record)
    requires forall path: Path :: path.RecordPath? && path != RecordPath(v.head.file) ==> SameFile(d, e, path)
    ensures OnlyAttempts(e) && RecordNames(e) == RecordNames(d) + {v.head.file}
  {
    forall name | name != v.head.file
      ensures RecordPath(name) in e <==> RecordPath(name) in d
      ensures RecordPath(name) in e ==> e[RecordPath(name)] == d[RecordPath(name)]
    {
      assert SameFile(d, e, RecordPath(name));
    }
  }

  lemma FirstCommitCompleted(c: Config, s: System, e: Event)
    requires BeforeFirst(c, s) && e.Commit? && Enabled(s, e)
    requires CommitCheck(s.live.value, c.maxGenerations, e.request, e.fence).None?
    requires e.power >= |CommitSteps(s.disk, NewVersion(s.live.value, e.request, e.text))|
    ensures FirstDone(c, After(c, s, e))
    ensures RecordNames(After(c, s, e).disk) == RecordNames(s.disk) + {NewVersion(s.live.value, e.request, e.text).head.file}
  {
    var v := NewVersion(s.live.value, e.request, e.text);
    var d := ApplyAll(s.disk, CommitSteps(s.disk, v));
    CommitEffect(s.disk, v);
    NewVersionOk(c, s.live.value, e.request, e.fence, e.text, []);
    assert [] + [v] == [v];
    forall path: Path | path.RecordPath? && path != RecordPath(v.head.file)
      ensures SameFile(s.disk, d, path)
    {
      assert SameFile(s.disk, d, RecordPath(path.name));
    }
    MoreAttempts(s.disk, d, v);
  }

  /** Until the first commit completes, whatever happens leaves only attempts behind. */
  lemma BeforeFirstKeeps(c: Config, s: System, e: Event)
    requires BeforeFirst(c, s) && Enabled(s, e)
    ensures BeforeFirst(c, After(c, s, e)) || FirstDone(c, After(c, s, e))
  {
    match e
    case Commit(_, _, _, _, _) =>
      if CommitCheck(s.live.value, c.maxGenerations, e.request, e.fence).None? {
        var v := NewVersion(s.live.value, e.request, e.text);
        if e.power < |CommitSteps(s.disk, v)| {
          AttemptInterrupted(s.disk, v, e.power);
        } else {
          FirstCommitCompleted(c, s, e);
        }
      }
    case Prune(_, _) =>
      assert Prunable(s.disk, e.keepFrom) == {};
      assert RemovalSteps(Listing({})) == [];
      assert ApplyAll(s.disk, []) == s.disk;
    case Open(_, _) =>
      assert ApplyAll(s.disk, []) == s.disk;
    case Crash =>
  }

  // ----- when the guarantee holds ---------------------------------------------------

  lemma CleanIsSystemInv(c: Config, s: System)
    requires FirstDone(c, s) && RecordNames(s.disk) == {s.history[0].head.file}
    ensures SystemInv(c, s)
  {
    assert VersionOk(c.domain, s.history, 0);
    forall name | RecordPath(name) in s.disk
      ensures name == s.history[0].head.file
    {
      assert name in RecordNames(s.disk);
    }
  }

  /** Alone in its directory and within the limits, the first generation is recovered in every later run. */
  lemma CleanRecovers(c: Config, s: System)
    requires FirstDone(c, s) && RecordNames(s.disk) == {s.history[0].head.file}
    requires Readable(s.history[0].record.envelope)
    ensures AlwaysRecovers(c, s)
  {
    hide Readable;
    CleanIsSystemInv(c, s);
    forall events, t | Run(c, s, events, t) && ReadableCommits(c, s, events)
      ensures |t.history| > 0 && Recovers(c, t)
    {
      RunRecoversIff(c, s, events, t);
      RunKeeps(c, s, events, t);
    }
  }

  /** A first generation beyond the limits is never recovered. */
  lemma UnreadableRefuses(c: Config, s: System)
    requires FirstDone(c, s) && !Readable(s.history[0].record.envelope)
    ensures Choose(s.disk, c.domain) == Refused && !AlwaysRecovers(c, s)
  {
    hide Readable;
    assert Run(c, s, [], s) && ReadableCommits(c, s, []);
  }

  /** Once its process is gone, every open refuses, for good. */
  lemma {:induction false} RefusedForever(c: Config, s: System, events: seq<Event>, t: System)
    requires FirstDone(c, s) && !Readable(s.history[0].record.envelope) && s.live.None?
    requires Run(c, s, events, t)
    ensures t == s
    decreases |events|
  {
    UnreadableRefuses(c, s);
    hide Choose, FirstDone;
    if events != [] {
      RefusedForever(c, s, events[1..], t);
    }
  }

  /** When another attempt answers for generation 1, a head pointer that names generation 1 as parent is rejected. */
  lemma StrayHidesHead(c: Config, d: Disk, first: HeadPointer, h: HeadPointer)
    requires h.domain == c.domain && h.parent == ParentOf(Some(first)) && first.generation == 1
    requires HeadPath in d && d[HeadPath] == HeadData(h)
    requires FilesOf(d, 1) != {} && Least(FilesOf(d, 1)) != first.file
    requires forall name :: RecordPath(name) in d && name.generation == 1 ==>
      d[RecordPath(name)].RecordData? && d[RecordPath(name)].record.head.head.file == name
    ensures Choose(d, c.domain) != Chosen(h, false)
  {
    var name := Least(FilesOf(d, 1));
    assert name in FilesOf(d, 1);
    assert !ChainOk(d, h);
  }

  const LONGEST: nat := JsonGrammar.DEFAULT_LIMITS.maxString
  const TINY := Shape(0, 0, 0, 0, 0, true)

  function SecondCommit(c: Config, m: Memory, power: nat): Event {
    Commit(Request(c.domain, 2, "writer", 0, Some(Doc(0, 0, TINY))), Fence(1, m.epoch, m.incarnation, "writer"), PayloadText(0, 0), power, true)
  }

  /** After a second commit that answered, the disk holds both heads' records and the strays. */
  lemma SecondCommitEffect(c: Config, s: System) returns (e: Event, h: HeadPointer)
    requires FirstDone(c, s) && s.live.Some? && s.live.value.retained < c.maxGenerations
    ensures e.Commit? && Enabled(s, e) && NewReads(s, After(c, s, e))
    ensures var t := After(c, s, e);
      && |t.history| == 2 && t.history[1].head == h && t.live.Some? && t.live.value.HeadGeneration() == 2
      && h.domain == c.domain && h.parent == ParentOf(Some(s.history[0].head)) && s.history[0].head.generation == 1
      && HeadPath in t.disk && t.disk[HeadPath] == HeadData(h)
      && (forall name: FileName :: name.generation == 1 ==> SameFile(s.disk, t.disk, RecordPath(name)))
      && (forall name :: RecordPath(name) in t.disk && name.generation < 2 ==> name.generation == 1)
  {
    var m := s.live.value;
    assert VersionOk(c.domain, s.history, 0);
    var probe := SecondCommit(c, m, 0);
    var v := NewVersion(m, probe.request, probe.text);
    e := SecondCommit(c, m, |CommitSteps(s.disk, v)|);
    h := v.head;
    CommitEffect(s.disk, v);
    var t := After(c, s, e);
    hide ApplyAll, CommitSteps, WellLinked;
    forall name | RecordPath(name) in t.disk && name.generation < 2
      ensures name.generation == 1
    {
      assert SameFile(s.disk, t.disk, RecordPath(name));
    }
  }

  /** Pruning with nothing to prune resets the count and does nothing else. */
  lemma EmptyPruneFirst(c: Config, s: System)
    requires FirstDone(c, s) && s.live.Some?
    ensures Enabled(s, Prune(0, 0))
    ensures var t := After(c, s, Prune(0, 0));
      FirstDone(c, t) && t.live.Some? && t.live.value.retained == 0 && t.disk == s.disk && t.history == s.history
  {
    assert Prunable(s.disk, 0) == {};
    assert RemovalSteps(Listing({})) == [];
    assert ApplyAll(s.disk, []) == s.disk;
  }

  /** With a second record file of generation 1, some continuation loses an acknowledged generation. */
  lemma StrayLoses(c: Config, s: System)
    requires FirstDone(c, s) && s.live.Some? && c.maxGenerations >= 1
    requires RecordNames(s.disk) != {s.history[0].head.file}
    ensures !AlwaysRecovers(c, s)
  {
    EmptyPruneFirst(c, s);
    var reset := Prune(0, 0);
    var r := After(c, s, reset);
    var rest, u := StrayRun(c, r);
    var events := [reset] + rest;
    hide FirstDone, Recovers;
    assert events[1..] == rest;
    assert Run(c, s, events, u);
    assert ReadableCommits(c, s, events);
  }

  lemma StrayRun(c: Config, s: System) returns (events: seq<Event>, u: System)
    requires FirstDone(c, s) && s.live.Some? && s.live.value.retained < c.maxGenerations
    requires RecordNames(s.disk) != {s.history[0].head.file}
    ensures Run(c, s, events, u) && ReadableCommits(c, s, events) && |u.history| > 0 && !Recovers(c, u)
  {
    hide Choose, ApplyAll, WellLinked, LiveFacts, ChainOk, LoadCandidate, Listing, AfterOpenEvent, AfterCommitEvent;
    var first := s.history[0].head;
    var e, h := SecondCommitEffect(c, s);
    var t := After(c, s, e);
    var stray :| RecordPath(stray) in s.disk && stray != first.file;
    assert SameFile(s.disk, t.disk, RecordPath(stray)) && SameFile(s.disk, t.disk, RecordPath(first.file));
    assert stray in FilesOf(t.disk, 1) && first.file in FilesOf(t.disk, 1);
    AttemptsRemain(s.disk, t.disk);
    hide Choose, After, NewReads, FirstDone, OnlyAttempts;
    if Least(FilesOf(t.disk, 1)) != first.file {
      StrayHidesHead(c, t.disk, first, h);
      events, u := [e], t;
      OneStep(c, s, e);
    } else {
      var prune := Prune(2, 1);
      u := After(c, t, prune);
      PruneOneFile(c, t, first.file, stray);
      assert stray in FilesOf(u.disk, 1);
      assert Least(FilesOf(u.disk, 1)) in FilesOf(u.disk, 1);
      StrayHidesHead(c, u.disk, first, h);
      events := [e, prune];
      TwoSteps(c, s, e, prune);
    }
  }

  lemma OneStep(c: Config, s: System, e: Event)
    requires Enabled(s, e) && NewReads(s, After(c, s, e))
    ensures Run(c, s, [e], After(c, s, e)) && ReadableCommits(c, s, [e])
  {
    hide After, NewReads;
    assert [e][1..] == [];
    assert Run(c, After(c, s, e), [], After(c, s, e)) && ReadableCommits(c, After(c, s, e), []);
  }

  lemma TwoSteps(c: Config, s: System, e: Event, e': Event)
    requires Enabled(s, e) && NewReads(s, After(c, s, e))
    requires Enabled(After(c, s, e), e') && NewReads(After(c, s, e), After(c, After(c, s, e), e'))
    ensures Run(c, s, [e, e'], After(c, After(c, s, e), e')) && ReadableCommits(c, s, [e, e'])
  {
    hide After, NewReads;
    OneStep(c, After(c, s, e), e');
    assert [e, e'][1..] == [e'];
  }

  lemma AttemptsRemain(d: Disk, e: Disk)
    requires OnlyAttempts(d) && forall name: FileName :: name.generation == 1 ==> SameFile(d, e, RecordPath(name))
    ensures forall name :: RecordPath(name) in e && name.generation == 1 ==>
      e[RecordPath(name)].RecordData? && e[RecordPath(name)].record.head.head.file == name
  {
    forall name | RecordPath(name) in e && name.generation == 1
      ensures e[RecordPath(name)].RecordData? && e[RecordPath(name)].record.head.head.file == name
    {
      assert SameFile(d, e, RecordPath(name));
    }
  }

  /** Power fails after a prune has removed one file: the first in directory order. */
  lemma PruneOneFile(c: Config, t: System, first: FileName, stray: FileName)
    requires t.live.Some? && FilesOf(t.disk, 1) != {} && Least(FilesOf(t.disk, 1)) == first
    requires stray in FilesOf(t.disk, 1) && stray != first
    requires forall name :: RecordPath(name) in t.disk && name.generation < 2 ==> name.generation == 1
    requires t.live.value.HeadGeneration() >= 2
    ensures Enabled(t, Prune(2, 1))
    ensures var u := After(c, t, Prune(2, 1));
      u.disk == t.disk - {RecordPath(first)} && u.history == t.history && NewReads(t, u)
  {
    var names := Prunable(t.disk, 2);
    assert names == FilesOf(t.disk, 1);
    var steps := RemovalSteps(Listing(names));
    ListingMembers(names);
    assert |names| >= 2 by {
      assert {first, stray} <= names;
      SubsetSize({first, stray}, names);
    }
    assert Listing(names)[0] == first;
    assert steps[..1] == [Remove(RecordPath(first))];
    ApplyOneMore(t.disk, [], Remove(RecordPath(first)));
    assert [] + [Remove(RecordPath(first))] == [Remove(RecordPath(first))];
  }

  lemma {:induction false} SubsetSize<T>(a: set<T>, b: set<T>)
    requires a <= b
    ensures |a| <= |b|
    decreases |a|
  {
    if a != {} {
      var x :| x in a;
      SubsetSize(a - {x}, b - {x});
    }
  }

  /**
   * Main result. A first commit that answered is recovered in every continuation exactly when the record
   * directory held no record file of another name when it began, and its own record is within the limits
   * that reading enforces.
   */
  lemma FirstCommitDecides(c: Config, s: System, e: Event)
    requires BeforeFirst(c, s) && e.Commit? && Enabled(s, e)
    requires CommitCheck(s.live.value, c.maxGenerations, e.request, e.fence).None?
    requires e.power >= |CommitSteps(s.disk, NewVersion(s.live.value, e.request, e.text))| && e.answers
    ensures var v := NewVersion(s.live.value, e.request, e.text);
      AlwaysRecovers(c, After(c, s, e)) <==> RecordNames(s.disk) <= {v.head.file} && Readable(v.record.envelope)
  {
    hide BeforeFirst;
    var v := NewVersion(s.live.value, e.request, e.text);
    var t := After(c, s, e);
    FirstCommitCompleted(c, s, e);
    assert c.maxGenerations >= 1 && t.history == [v];
    hide Readable, AlwaysRecovers, ApplyAll, CommitSteps, NewVersion;
    if !Readable(v.record.envelope) {
      UnreadableRefuses(c, t);
    } else if RecordNames(s.disk) <= {v.head.file} {
      assert RecordNames(t.disk) == {v.head.file};
      CleanRecovers(c, t);
    } else {
      assert RecordNames(t.disk) != {v.head.file};
      StrayLoses(c, t);
    }
  }

  function FirstAttempt(c: Config, incarnation: nat, tag: nat, power: nat): Event {
    Commit(Request(c.domain, 1, "writer", tag, Some(Doc(tag, 0, TINY))), Fence(0, 1, incarnation, "writer"), PayloadText(tag, 0), power, true)
  }

  /** A first commit cut off right after its record rename leaves that record behind. */
  lemma AttemptLeft(c: Config) returns (cut: Event, s: System, name: FileName)
    ensures Enabled(Created(c, 0), cut) && s == After(c, Created(c, 0), cut)
    ensures BeforeFirst(c, s) && s.live.None? && s.used == {0} && RecordPath(name) in s.disk && name.tag == 0
    requires c.maxGenerations >= 1
  {
    var s0 := Created(c, 0);
    cut := FirstAttempt(c, 0, 0, 3);
    s := After(c, s0, cut);
    var v := NewVersion(s0.live.value, cut.request, cut.text);
    name := v.head.file;
    var write := AtomicWriteSteps(s0.disk, RecordPath(name), RecordData(v.record), false);
    assert CommitSteps(s0.disk, v)[..3] == write;
    AtomicWriteEffect(s0.disk, RecordPath(name), RecordData(v.record), false);
    AttemptInterrupted(s0.disk, v, 3);
  }

  /**
   * The window is real: a first commit cut off after its record rename, a reopening and a second first
   * commit reach a state from which an acknowledged generation can be lost.
   */
  lemma GuaranteeCanFail(c: Config) returns (events: seq<Event>, t: System)
    requires c.maxGenerations >= 1
    ensures Run(c, Created(c, 0), events, t) && |t.history| == 1 && t.live.Some? && !AlwaysRecovers(c, t)
    ensures Readable(t.history[0].record.envelope)
  {
    hide AlwaysRecovers, OnlyAttempts, WellLinked, Listing, RecordSteps, HeadSteps;
    var cut, s1, name := AttemptLeft(c);
    var open := Open(1, 0);
    assert ApplyAll(s1.disk, []) == s1.disk;
    var s2 := After(c, s1, open);
    BeforeFirstKeeps(c, s1, open);
    var probe := FirstAttempt(c, 1, 1, 0);
    var w := NewVersion(s2.live.value, probe.request, probe.text);
    var again := FirstAttempt(c, 1, 1, |CommitSteps(s2.disk, w)|);
    t := After(c, s2, again);
    FirstCommitDecides(c, s2, again);
    FirstCommitCompleted(c, s2, again);
    assert name in RecordNames(s2.disk) && name != w.head.file;
    hide AlwaysRecovers, CommitSteps, NewVersion, Choose, BeforeFirst, FirstDone;
    events := [cut, open, again];
    assert events[1..] == [open, again] && [open, again][1..] == [again] && [again][1..] == [];
    assert Run(c, t, [], t);
    assert Run(c, s2, [again], t);
    assert Run(c, s1, [open, again], t);
  }

  /**
   * So is the other way to fail: a document with one string of 4097 bytes is committed and acknowledged by a
   * new store, and no later open finds it.
   */
  lemma LongStringIsLost(c: Config) returns (commit: Event, t: System)
    requires c.maxGenerations >= 1
    ensures var s := Created(c, 0); Enabled(s, commit) && t == After(c, s, commit)
    ensures commit.Commit? && commit.request.doc.Some? && commit.request.doc.value.shape.longest == LONGEST + 1
    ensures |t.history| == 1 && t.live.Some? && Choose(t.disk, c.domain) == Refused
  {
    var s := Created(c, 0);
    var doc := Doc(0, 0, Shape(5000, 20, 3, LONGEST + 1, 8, true));
    var request := Request(c.domain, 1, "writer", 0, Some(doc));
    var v := NewVersion(s.live.value, request, PayloadText(0, 600));
    commit := Commit(request, Fence(0, 1, 0, "writer"), PayloadText(0, 600), |CommitSteps(s.disk, v)|, true);
    t := After(c, s, commit);
    hide CommitSteps, ApplyAll, Choose;
    FirstCommitCompleted(c, s, commit);
    UnreadableRefuses(c, t);
  }
}
