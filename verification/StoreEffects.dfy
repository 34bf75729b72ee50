/**
 * What the operations of a store leave behind, told from the call, the disk and the open store alone
 * (src/store.cpp:764-985, 1185-1357).
 */
module StoreEffects {
  import opened Identities
  import opened Disk
  import opened Store
  import opened StoreRuns
  import opened Recovery

  // ----- commit -------------------------------------------------------------------------------

  /** The store accepts the request under the fence. */
  predicate Fits(m: Memory, maxGenerations: nat, request: Request, fence: Fence) {
    var last := if m.head.Some? then m.head.value.generation else 0;
    && fence.generation == last && fence.epoch == m.epoch && fence.incarnation == m.incarnation
    && fence.writer != "" && request.writer == fence.writer
    && request.domain == m.domain && request.generation == last + 1 && request.doc.Some?
    && last < MAX_GENERATION && m.retained < maxGenerations
  }

  lemma FitsIff(m: Memory, maxGenerations: nat, request: Request, fence: Fence)
    ensures CommitCheck(m, maxGenerations, request, fence).None? <==> Fits(m, maxGenerations, request, fence)
    ensures fence.writer != "" && fence.generation != m.HeadGeneration()
      ==> CommitCheck(m, maxGenerations, request, fence) == Some(StaleWriter)
    ensures fence.writer != "" && fence.generation == m.HeadGeneration() && (fence.epoch != m.epoch || fence.incarnation != m.incarnation)
      ==> CommitCheck(m, maxGenerations, request, fence) == Some(StaleEpoch)
  {
  }

  /** A request that took effect, and the epoch and incarnation of the store it took effect in. */
  datatype Taken = Taken(request: Request, epoch: nat, incarnation: nat)

  /** The head pointer is that of the request as the given generation of the domain. */
  predicate HeadOf(h: HeadPointer, domain: string, generation: nat, taken: Taken) {
    && h.domain == domain && h.generation == generation == h.file.generation
    && taken.request.doc == Some(h.doc)
    && h.writer == taken.request.writer && h.committedAt == taken.request.committedAt
    && h.epoch == taken.epoch && h.incarnation == taken.incarnation
  }

  /** And so is the record. */
  predicate RecordOf(r: RecordFile, h: HeadPointer, domain: string, generation: nat, taken: Taken) {
    && r.generation == generation && r.head == HeadHash(h) && h.payload == PayloadHash(r.envelope)
    && r.envelope.domain == domain && r.envelope.generation == generation
    && taken.request.doc == Some(r.envelope.doc)
    && r.envelope.writer == taken.request.writer && r.envelope.committedAt == taken.request.committedAt
    && r.envelope.epoch == taken.epoch && r.envelope.incarnation == taken.incarnation
    && r.envelope.lineage == h.lineage && r.envelope.parent == h.parent
  }

  /** The head pointer continues what the store held. */
  predicate Continues(h: HeadPointer, before: Memory) {
    && h.lineage == Next(before.lineage, before.domain, h.generation, ContentHash(h.doc.content))
    && match before.head
       case None => h.parent == None
       case Some(p) => h.parent == Some(Parent(p.generation, ContentHash(p.doc.content), HeadHash(p)))
  }

  /** A durable step of the generation reached the disk: its record, its head pointer and the backup. */
  ghost predicate Installed(before: Disk, after: Disk, h: HeadPointer, domain: string, generation: nat, taken: Taken) {
    && HeadPath in after && after[HeadPath] == HeadData(h)
    && (HeadPath in before ==> BackupPath in after && after[BackupPath] == before[HeadPath])
    && RecordPath(h.file) in after && after[RecordPath(h.file)].RecordData?
    && RecordOf(after[RecordPath(h.file)].record, h, domain, generation, taken)
    && forall name :: name != h.file ==> SameFile(before, after, RecordPath(name))
  }

  lemma NewIsOfRequest(m: Memory, request: Request, text: PayloadText)
    requires request.doc.Some?
    ensures var v := NewVersion(m, request, text); var taken := Taken(request, m.epoch, m.incarnation);
      && HeadOf(v.head, m.domain, request.generation, taken)
      && RecordOf(v.record, v.head, m.domain, request.generation, taken)
      && Continues(v.head, m)
  {
  }

  lemma StepsOfCommit(d: Disk, v: Version)
    ensures |CommitSteps(d, v)| == if HeadPath in d then 10 else 8
  {
  }

  function JournalLines(d: Disk): seq<nat> {
    if JournalPath in d && d[JournalPath].JournalData? then d[JournalPath].lines else []
  }

  /** The journal has one more line for the generation, before the head file is replaced. */
  lemma JournalEffect(d: Disk, v: Version)
    ensures JournalLines(ApplyAll(d, CommitSteps(d, v))) == JournalLines(d) + [v.head.generation]
  {
    var write := AtomicWriteSteps(d, RecordPath(v.head.file), RecordData(v.record), false);
    var journal := JournalAfter(d, v.head.generation);
    var d1 := ApplyAll(d, write);
    Untouched(d, write, JournalPath);
    var d2 := Apply(Apply(d1, Write(JournalPath, Torn)), Write(JournalPath, journal));
    var lines := [Write(JournalPath, Torn), Write(JournalPath, journal)];
    assert ApplyAll(d1, lines) == d2 by {
      ApplyOneMore(d1, [], lines[0]);
      ApplyOneMore(d1, [lines[0]], lines[1]);
      assert [] + [lines[0]] == [lines[0]] && [lines[0]] + [lines[1]] == lines;
      ApplyNothing(d1);
    }
    ApplyAppend(d, write, lines);
    ApplyAppend(d, RecordSteps(d, v), HeadSteps(d, v));
    Untouched(d2, HeadSteps(d, v), JournalPath);
  }

  /** A commit succeeds exactly when the request fits and power lasts, and stores what was requested. */
  method CommitStores(store: IntentStore, request: Request, fence: Fence, text: PayloadText) returns (r: Outcome<HeadPointer>)
    requires store.fs.Valid()
    modifies store, store.fs
    ensures r.Success? <==>
      Fits(old(store.Snapshot()), store.maxGenerations, request, fence) && old(store.fs.budget) >= (if old(HeadPath in store.fs.disk) then 10 else 8)
    ensures r.Success? ==>
      && HeadOf(r.value, store.domain, request.generation, Taken(request, store.epoch, store.incarnation))
      && Continues(r.value, old(store.Snapshot()))
      && Installed(old(store.fs.disk), store.fs.disk, r.value, store.domain, request.generation, Taken(request, store.epoch, store.incarnation))
    ensures r.Success? ==> store.head == Some(r.value) && store.lineage == r.value.lineage && store.retained == old(store.retained) + 1
    ensures r.Success? ==> JournalLines(store.fs.disk) == old(JournalLines(store.fs.disk)) + [request.generation]
    ensures r.Failure? ==> store.Snapshot() == old(store.Snapshot())
    ensures !Fits(old(store.Snapshot()), store.maxGenerations, request, fence) ==> store.fs.disk == old(store.fs.disk)
    ensures fence.writer != "" && fence.generation != old(store.Snapshot()).HeadGeneration() ==> r == Failure(StaleWriter)
    ensures fence.writer != "" && fence.generation == old(store.Snapshot()).HeadGeneration() ==> (fence.epoch != store.epoch || fence.incarnation != store.incarnation) ==> r == Failure(StaleEpoch)
  {
    ghost var m, d := store.Snapshot(), store.fs.disk;
    FitsIff(m, store.maxGenerations, request, fence);
    hide ApplyAll, CommitSteps, NewVersion, CommitCheck, Fits, JournalLines;
    r := store.Commit(request, fence, text);
    if Fits(m, store.maxGenerations, request, fence) {
      ghost var v := NewVersion(m, request, text);
      NewIsOfRequest(m, request, text);
      StepsOfCommit(d, v);
      if r.Success? {
        ApplyAppend(store.fs.start, old(store.fs.log), CommitSteps(d, v));
        CommitEffect(d, v);
        JournalEffect(d, v);
        assert CommitSteps(d, v)[..|CommitSteps(d, v)|] == CommitSteps(d, v);
      }
    } else {
      ApplyAppend(store.fs.start, old(store.fs.log), []);
      ApplyNothing(d);
    }
  }

  // ----- the requests behind a history ------------------------------------------------------------

  /** The generation, on paper and in its record, is that of the request. */
  predicate OfRequest(v: Version, domain: string, generation: nat, taken: Taken) {
    HeadOf(v.head, domain, generation, taken) && RecordOf(v.record, v.head, domain, generation, taken)
  }

  /** Generation i + 1 is that of the i-th request. */
  ghost predicate Matches(domain: string, history: seq<Version>, taken: seq<Taken>) {
    |history| == |taken| && forall i :: 0 <= i < |taken| ==> OfRequest(history[i], domain, i + 1, taken[i])
  }

  /** A retained record file of a committed generation is that of its request. */
  ghost predicate FilesMatch(d: Disk, domain: string, history: seq<Version>, taken: seq<Taken>)
    requires |history| == |taken|
  {
    forall name :: RecordPath(name) in d && 1 <= name.generation <= |taken| ==>
      && d[RecordPath(name)].RecordData?
      && RecordOf(d[RecordPath(name)].record, history[name.generation - 1].head, domain, name.generation, taken[name.generation - 1])
  }

  /** The requests behind the history after one more event: a commit that took effect adds its own. */
  ghost function TakenNext(s: System, e: Event, t: System, taken: seq<Taken>): seq<Taken> {
    if e.Commit? && s.live.Some? && |t.history| > |s.history|
    then taken + [Taken(e.request, s.live.value.epoch, s.live.value.incarnation)]
    else if |t.history| <= |taken| then taken[..|t.history|] else taken
  }

  ghost function TakenAlong(c: Config, s: System, events: seq<Event>, taken: seq<Taken>): seq<Taken>
    decreases |events|
  {
    if events == [] || !Enabled(s, events[0]) then taken
    else TakenAlong(c, After(c, s, events[0]), events[1..], TakenNext(s, events[0], After(c, s, events[0]), taken))
  }

  /** A history that grew did so by the generation of the request. */
  lemma GrowthIsOfRequest(c: Config, s: System, e: Event)
    requires SystemInv(c, s) && Enabled(s, e) && |After(c, s, e).history| > |s.history|
    ensures e.Commit? && s.live.Some?
    ensures var t := After(c, s, e); var n := |s.history|;
      |t.history| == n + 1 && t.history[..n] == s.history
      && OfRequest(t.history[n], c.domain, n + 1, Taken(e.request, s.live.value.epoch, s.live.value.incarnation))
  {
    hide ApplyAll, CommitSteps, NewVersion, WellLinked, DiskInv, LiveInv, CommitCheck, OpenSteps, Choose;
    assert e.Commit?;
    var m := s.live.value;
    if CommitCheck(m, c.maxGenerations, e.request, e.fence).None? {
      NextNumber(c, s, e.request, e.fence, e.text);
      NewIsOfRequest(m, e.request, e.text);
      DomainIs(c, s);
    }
  }

  lemma DomainIs(c: Config, s: System)
    requires SystemInv(c, s) && s.live.Some?
    ensures s.live.value.domain == c.domain
  {
  }

  lemma StepMatches(c: Config, s: System, e: Event, taken: seq<Taken>)
    requires SystemInv(c, s) && Enabled(s, e) && Matches(c.domain, s.history, taken)
    ensures Matches(c.domain, After(c, s, e).history, TakenNext(s, e, After(c, s, e), taken))
  {
    hide OfRequest, After, SystemInv, HeadReads;
    var t, n := After(c, s, e), |s.history|;
    EventKeeps(c, s, e);
    if |t.history| > n {
      GrowthIsOfRequest(c, s, e);
      assert forall i :: 0 <= i < n ==> t.history[i] == t.history[..n][i];
    }
  }

  lemma RetainedMatch(c: Config, s: System, taken: seq<Taken>)
    requires SystemInv(c, s) && Matches(c.domain, s.history, taken)
    ensures FilesMatch(s.disk, c.domain, s.history, taken)
  {
    hide HeadOf, RecordOf, WellLinked, LiveInv;
  }

  /**
   * Main result. In every run, wherever power is lost, generation i + 1 of the history and its record file,
   * while it is retained, hold the document, writer and time of the request that committed it, with the epoch
   * and incarnation of the store that accepted it.
   */
  lemma {:induction false} HistoryIsRequested(c: Config, s: System, events: seq<Event>, t: System, taken: seq<Taken>)
    requires SystemInv(c, s) && Matches(c.domain, s.history, taken) && Run(c, s, events, t)
    ensures var all := TakenAlong(c, s, events, taken);
      Matches(c.domain, t.history, all) && FilesMatch(t.disk, c.domain, t.history, all)
    decreases |events|
  {
    hide Matches, FilesMatch, SystemInv, After, HeadReads, TakenNext;
    if events == [] {
      RetainedMatch(c, s, taken);
      MatchingLength(c.domain, s.history, taken);
    } else {
      var next := After(c, s, events[0]);
      EventKeeps(c, s, events[0]);
      StepMatches(c, s, events[0], taken);
      HistoryIsRequested(c, next, events[1..], t, TakenNext(s, events[0], next, taken));
    }
  }

  lemma MatchingLength(domain: string, history: seq<Version>, taken: seq<Taken>)
    requires Matches(domain, history, taken)
    ensures |history| == |taken|
  {
  }

  lemma RetainedIs(c: Config, s: System, n: nat)
    requires SystemInv(c, s) && n < |s.history|
    ensures forall name :: RecordPath(name) in s.disk && name.generation == n + 1 ==> s.disk[RecordPath(name)] == RecordData(s.history[n].record)
  {
    hide WellLinked, LiveInv;
  }

  /** An acknowledged generation still holds what was requested in every later run that keeps it. */
  lemma AcknowledgedContent(c: Config, s: System, commit: Event, rest: seq<Event>, t: System)
    requires SystemInv(c, s) && LastReads(s) && Completes(c, s, commit)
    requires Readable(Committed(s, commit).record.envelope)
    requires Run(c, After(c, s, commit), rest, t) && ReadableCommits(c, After(c, s, commit), rest)
    ensures var n := |s.history|; var taken := Taken(commit.request, s.live.value.epoch, s.live.value.incarnation);
      && n < |t.history| && t.history[..n] == s.history
      && OfRequest(t.history[n], c.domain, n + 1, taken)
      && forall name :: RecordPath(name) in t.disk && name.generation == n + 1 ==>
           && t.disk[RecordPath(name)].RecordData?
           && RecordOf(t.disk[RecordPath(name)].record, t.history[n].head, c.domain, n + 1, taken)
  {
    var v := Committed(s, commit);
    hide *;
    var n := |s.history|;
    AcknowledgedStays(c, s, commit, rest, t, v);
    CommittedIsOfRequest(c, s, commit);
    RetainedIs(c, t, n);
    OfRequestParts(v, c.domain, n + 1, Taken(commit.request, s.live.value.epoch, s.live.value.incarnation));
  }

  lemma OfRequestParts(v: Version, domain: string, generation: nat, taken: Taken)
    requires OfRequest(v, domain, generation, taken)
    ensures RecordOf(v.record, v.head, domain, generation, taken)
  {
  }

  lemma AcknowledgedStays(c: Config, s: System, commit: Event, rest: seq<Event>, t: System, v: Version)
    requires SystemInv(c, s) && LastReads(s) && Completes(c, s, commit)
    requires v == Committed(s, commit) && Readable(v.record.envelope)
    requires Run(c, After(c, s, commit), rest, t) && ReadableCommits(c, After(c, s, commit), rest)
    ensures SystemInv(c, t) && |s.history| < |t.history| && t.history[..|s.history|] == s.history && t.history[|s.history|] == v
  {
    hide ApplyAll, CommitSteps, NewVersion, SystemInv, CommitCheck, Readable, ReadableCommits, After, LastReads, Recovers;
    AcknowledgedSurvives(c, s, commit);
    CommitExtends(c, s, commit);
    RunKeeps(c, After(c, s, commit), rest, t);
    assert (s.history + [v])[|s.history|] == v;
  }

  lemma CommittedIsOfRequest(c: Config, s: System, commit: Event)
    requires SystemInv(c, s) && Completes(c, s, commit)
    ensures OfRequest(Committed(s, commit), c.domain, |s.history| + 1,
                      Taken(commit.request, s.live.value.epoch, s.live.value.incarnation))
  {
    hide ApplyAll, CommitSteps, NewVersion, SystemInv, HeadOf, RecordOf;
    CommitExtends(c, s, commit);
    GrowthIsOfRequest(c, s, commit);
  }

  // ----- prune --------------------------------------------------------------------------------------

  /** Exactly the record files of the given names are gone; the rest and both head files are as they were. */
  ghost predicate OnlyGone(before: Disk, after: Disk, gone: set<FileName>) {
    && (forall name :: RecordPath(name) in after <==> RecordPath(name) in before && name !in gone)
    && (forall name :: RecordPath(name) in after ==> after[RecordPath(name)] == before[RecordPath(name)])
    && SameFile(before, after, HeadPath) && SameFile(before, after, BackupPath)
  }

  /** Pruning removes the record files of the generations before keepFrom, and nothing else even when cut off. */
  method PruneLeaves(store: IntentStore, keepFrom: nat) returns (ok: bool)
    requires store.fs.Valid()
    modifies store, store.fs
    ensures var old' := set name | name in RecordNames(old(store.fs.disk)) && name.generation < keepFrom;
      && (ok <==> old(store.fs.budget) >= |old'|)
      && (ok ==> OnlyGone(old(store.fs.disk), store.fs.disk, old'))
      && (exists gone :: gone <= old' && OnlyGone(old(store.fs.disk), store.fs.disk, gone))
      && store.Snapshot() == old(store.Snapshot()).(retained := store.retained)
      && store.retained == if !ok then old(store.retained)
                           else if old' != {} && old(store.retained) >= |old'| then old(store.retained) - |old'| else 0
  {
    hide ApplyAll, Listing;
    ghost var d, names := store.fs.disk, Prunable(store.fs.disk, keepFrom);
    ghost var plan := RemovalSteps(Listing(names));
    ghost var power := store.fs.budget;
    ListingMembers(names);
    ok := store.PruneBefore(keepFrom);
    ghost var n := if ok then |plan| else power;
    ghost var gone := Listing(names)[..n];
    ApplyAppend(store.fs.start, old(store.fs.log), plan[..n]);
    assert plan[..n] == RemovalSteps(gone);
    RemovalEffect(d, gone);
    ghost var goneSet := set name | name in gone;
    assert OnlyGone(d, store.fs.disk, goneSet);
    assert goneSet <= names;
    if ok {
      assert gone == Listing(names);
      assert goneSet == names;
    }
  }

  // ----- open ---------------------------------------------------------------------------------------

  /** The file holds a whole record of the domain, within the reader's limits. */
  predicate Sound(d: Disk, name: FileName, domain: string) {
    && RecordPath(name) in d && d[RecordPath(name)].RecordData?
    && d[RecordPath(name)].record.envelope.generation == d[RecordPath(name)].record.generation
    && d[RecordPath(name)].record.envelope.domain == domain
    && Readable(d[RecordPath(name)].record.envelope)
  }

  /** The first file of a generation in directory order. */
  ghost predicate FirstFile(d: Disk, name: FileName, generation: nat) {
    && RecordPath(name) in d && name.generation == generation
    && forall other :: RecordPath(other) in d && other.generation == generation ==> NameLe(name, other)
  }

  /** The head file at path says h, which its record confirms and whose parent, if it is still there, fits. */
  ghost predicate Acceptable(d: Disk, path: Path, domain: string, h: HeadPointer) {
    && path in d && d[path] == HeadData(h) && h.domain == domain
    && Sound(d, h.file, domain)
    && var r := d[RecordPath(h.file)].record;
    && r.generation == h.generation && r.head == HeadHash(h) && r.envelope.doc == h.doc && r.envelope.lineage == h.lineage
    && match h.parent
       case None => true
       case Some(parent) =>
         && r.envelope.parent.Some? && r.envelope.parent.value.generation == parent.generation
         && forall name :: FirstFile(d, name, parent.generation) ==>
              && Sound(d, name, domain)
              && d[RecordPath(name)].record.head == parent.head
              && ContentHash(d[RecordPath(name)].record.envelope.doc.content) == parent.content
  }

  lemma SoundIff(d: Disk, name: FileName, domain: string)
    ensures ReadRecord(d, name, domain) == if Sound(d, name, domain) then Some(d[RecordPath(name)].record) else None
  {
  }

  lemma FirstIsLeast(d: Disk, generation: nat, name: FileName)
    ensures FirstFile(d, name, generation) <==> FilesOf(d, generation) != {} && name == Least(FilesOf(d, generation))
  {
    if FilesOf(d, generation) != {} {
      assert IsLeast(FilesOf(d, generation), Least(FilesOf(d, generation)));
    }
  }

  lemma CandidateIff(d: Disk, path: Path, domain: string, h: HeadPointer)
    ensures LoadCandidate(d, path, domain) == Some(h) <==> Acceptable(d, path, domain, h)
  {
    hide Readable, NameLe, FirstFile;
    SoundIff(d, h.file, domain);
    if h.parent.Some? {
      var g := h.parent.value.generation;
      forall name
        ensures FirstFile(d, name, g) <==> FilesOf(d, g) != {} && name == Least(FilesOf(d, g))
      {
        FirstIsLeast(d, g, name);
      }
      if FilesOf(d, g) != {} {
        SoundIff(d, Least(FilesOf(d, g)), domain);
        assert FirstFile(d, Least(FilesOf(d, g)), g);
      }
    }
  }

  /** What an open finds: the head file wins unless only the backup, or a newer backup, is acceptable. */
  ghost predicate Wins(d: Disk, domain: string, h: HeadPointer) {
    || (Acceptable(d, HeadPath, domain, h) && forall b :: Acceptable(d, BackupPath, domain, b) ==> b.generation <= h.generation)
    || (Acceptable(d, BackupPath, domain, h) && forall p :: Acceptable(d, HeadPath, domain, p) ==> p.generation < h.generation)
  }

  /** The head file names h, the records beyond it are gone and those up to it are as they were. */
  ghost predicate BackTo(before: Disk, after: Disk, h: HeadPointer) {
    && HeadPath in after && after[HeadPath] == HeadData(h)
    && (forall name :: RecordPath(name) in after <==> RecordPath(name) in before && name.generation <= h.generation)
    && (forall name :: RecordPath(name) in after ==> after[RecordPath(name)] == before[RecordPath(name)])
    && SameFile(before, after, BackupPath)
  }

  lemma ChoiceIs(d: Disk, domain: string)
    ensures var choice := Choose(d, domain);
      && (choice.Fresh? <==> HeadPath !in d && BackupPath !in d)
      && (choice.Chosen? <==> exists h :: Wins(d, domain, h))
      && (choice.Chosen? ==> forall h :: Wins(d, domain, h) <==> h == choice.head)
      && (choice.Chosen? && !choice.fromBackup ==> HeadPath in d && d[HeadPath] == HeadData(choice.head))
  {
    hide Acceptable, LoadCandidate;
    forall h
      ensures LoadCandidate(d, HeadPath, domain) == Some(h) <==> Acceptable(d, HeadPath, domain, h)
      ensures LoadCandidate(d, BackupPath, domain) == Some(h) <==> Acceptable(d, BackupPath, domain, h)
    {
      CandidateIff(d, HeadPath, domain, h);
      CandidateIff(d, BackupPath, domain, h);
    }
    NoFileNoCandidate(d, HeadPath, domain);
    NoFileNoCandidate(d, BackupPath, domain);
    if Choose(d, domain).Chosen? {
      assert Wins(d, domain, Choose(d, domain).head);
    }
  }

  lemma NoFileNoCandidate(d: Disk, path: Path, domain: string)
    ensures LoadCandidate(d, path, domain).Some? ==> path in d && d[path] == HeadData(LoadCandidate(d, path, domain).value)
  {
  }

  lemma RestoreEffect(d: Disk, h: HeadPointer, fromBackup: bool)
    requires !fromBackup ==> HeadPath in d && d[HeadPath] == HeadData(h)
    ensures var e := ApplyAll(d, RestoreSteps(d, h, fromBackup));
      && HeadPath in e && e[HeadPath] == HeadData(h) && SameFile(d, e, BackupPath)
      && forall name :: SameFile(d, e, RecordPath(name))
  {
    hide AtomicWriteSteps;
    if fromBackup {
      AtomicWriteEffect(d, HeadPath, HeadData(h), false);
    }
  }

  lemma OpenEffect(d: Disk, h: HeadPointer, fromBackup: bool)
    requires !fromBackup ==> HeadPath in d && d[HeadPath] == HeadData(h)
    requires h.epoch < MAX_EPOCH
    ensures BackTo(d, ApplyAll(d, OpenSteps(d, Chosen(h, fromBackup))), h)
  {
    hide Listing, RestoreSteps, ApplyAll;
    var first := RestoreSteps(d, h, fromBackup);
    var orphans := Orphans(d, h.generation);
    var e := ApplyAll(d, first);
    RestoreEffect(d, h, fromBackup);
    ApplyAppend(d, first, RemovalSteps(Listing(orphans)));
    ListingMembers(orphans);
    RemovalEffect(e, Listing(orphans));
    var after := ApplyAll(e, RemovalSteps(Listing(orphans)));
    forall name
      ensures SameFile(d, e, RecordPath(name)) && (RecordPath(name) in after <==> RecordPath(name) in e && name !in orphans)
    {
    }
    assert SameFile(d, e, BackupPath) && SameFile(e, after, BackupPath);
  }

  /** Opening goes back to the winning head pointer, starts anew when there is none and no head file, or refuses. */
  method OpenLeaves(fs: FileSystem, domain: string, incarnation: nat, maxGenerations: nat) returns (r: Outcome<IntentStore>)
    requires fs.Valid()
    modifies fs
    ensures r == Failure(StoreCorrupt) <==>
      old(HeadPath in fs.disk || BackupPath in fs.disk) && forall h :: !Wins(old(fs.disk), domain, h)
    ensures r.Success? && r.value.head.None? <==> old(HeadPath !in fs.disk && BackupPath !in fs.disk)
    ensures r == Failure(StoreCorrupt) || (r.Success? && r.value.head.None?) ==> fs.disk == old(fs.disk)
    ensures r.Success? && r.value.head.None? ==> r.value.Snapshot() == Memory(domain, 1, incarnation, None, Genesis(domain), 0)
    ensures r.Success? && r.value.head.Some? ==> var h := r.value.head.value;
      && Wins(old(fs.disk), domain, h) && h.epoch < MAX_EPOCH && BackTo(old(fs.disk), fs.disk, h)
      && r.value.Snapshot() == Memory(domain, h.epoch + 1, incarnation, Some(h), h.lineage, |RecordNames(fs.disk)|)
    ensures r == Failure(CounterExhausted) ==> exists h :: Wins(old(fs.disk), domain, h) && h.epoch >= MAX_EPOCH
  {
    ghost var d, choice := fs.disk, Choose(fs.disk, domain);
    ChoiceIs(d, domain);
    hide Choose, Wins, ApplyAll, OpenSteps, BackTo;
    r := Store.Open(fs, domain, incarnation, maxGenerations);
    if choice.Chosen? {
      if r.Success? {
        ghost var steps := OpenSteps(d, choice);
        OpenEffect(d, choice.head, choice.fromBackup);
        ApplyAppend(fs.start, old(fs.log), steps);
        assert steps[..|steps|] == steps;
        KeptAre(d, fs.disk, choice.head);
      }
    } else {
      ApplyAppend(fs.start, old(fs.log), []);
      ApplyNothing(d);
    }
  }

  lemma KeptAre(before: Disk, after: Disk, h: HeadPointer)
    requires BackTo(before, after, h)
    ensures RecordNames(before) - Orphans(before, h.generation) == RecordNames(after)
  {
  }
}
