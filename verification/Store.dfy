/** Committing, opening, pruning and verifying a store (src/store.cpp). */
module Store {
  import opened Identities
  import opened Disk
  import opened Ordering
  import JsonGrammar

  /** A commit request; doc is None when canonicalization of the document fails. */
  datatype Request = Request(domain: string, generation: nat, writer: string, committedAt: nat, doc: Option<Doc>)

  datatype Error =
    | Unauthorized | StaleWriter | StaleEpoch | UnknownDomain | CounterExhausted | RetentionBound | DocumentLimit
    | StoreCorrupt | PowerLost

  type Outcome<+T> = Result<T, Error>

  /** What an open store keeps in memory. */
  datatype Memory = Memory(
    domain: string, epoch: nat, incarnation: nat, head: Option<HeadPointer>, lineage: LineageDigest, retained: nat)
  {
    function HeadGeneration(): nat { if head.Some? then head.value.generation else 0 }
  }

  datatype Version = Version(record: RecordFile, head: HeadPointer)

  // ----- commit ---------------------------------------------------------------

  /** The checks made before anything is written, in order. */
  function CommitCheck(m: Memory, maxGenerations: nat, request: Request, fence: Fence): Option<Error> {
    if fence.writer == "" then Some(Unauthorized)
    else if fence.generation != m.HeadGeneration() then Some(StaleWriter)
    else if fence.epoch != m.epoch then Some(StaleEpoch)
    else if fence.incarnation != m.incarnation then Some(StaleEpoch)
    else if request.domain != m.domain then Some(UnknownDomain)
    else if request.writer != fence.writer then Some(Unauthorized)
    else if m.HeadGeneration() >= MAX_GENERATION then Some(CounterExhausted)
    else if request.generation != m.HeadGeneration() + 1 then Some(StaleWriter)
    else if m.retained >= maxGenerations then Some(RetentionBound)
    else if request.doc.None? then Some(DocumentLimit)
    else None
  }

  function NextLineage(parent: LineageDigest, domain: string, generation: nat, doc: Doc): LineageDigest {
    Next(parent, domain, generation, ContentHash(doc.content))
  }

  function ParentOf(head: Option<HeadPointer>): Option<Parent> {
    match head
    case None => None
    case Some(h) => Some(Parent(h.generation, ContentHash(h.doc.content), HeadHash(h)))
  }

  /** What the text of the payload decides: its shortened digest and the bytes around the document. */
  datatype PayloadText = PayloadText(tag: nat, room: nat)

  /** The record and head pointer of the next generation. */
  function NewVersion(m: Memory, request: Request, text: PayloadText): Version
    requires request.doc.Some?
  {
    var doc := request.doc.value;
    var lineage := NextLineage(m.lineage, m.domain, request.generation, doc);
    var envelope := Envelope(m.domain, request.generation, m.epoch, m.incarnation, request.writer, request.committedAt,
                             doc, lineage, ParentOf(m.head), text.room);
    var head := HeadPointer(m.domain, request.generation, doc, lineage, FileName(request.generation, text.tag),
                            PayloadHash(envelope), m.epoch, m.incarnation, request.writer, request.committedAt,
                            ParentOf(m.head));
    Version(RecordFile(request.generation, HeadHash(head), envelope), head)
  }

  function JournalAfter(d: Disk, generation: nat): File {
    if JournalPath in d && d[JournalPath].JournalData? then JournalData(d[JournalPath].lines + [generation])
    else JournalData([generation])
  }

  function RecordSteps(d: Disk, v: Version): seq<Step> {
    AtomicWriteSteps(d, RecordPath(v.head.file), RecordData(v.record), false)
    + [Write(JournalPath, Torn), Write(JournalPath, JournalAfter(d, v.head.generation))]
  }

  function HeadSteps(d: Disk, v: Version): seq<Step> {
    AtomicWriteSteps(d, HeadPath, HeadData(v.head), true)
  }

  /** The durable steps of a commit: the record, the journal line, then the head pointer. */
  function CommitSteps(d: Disk, v: Version): seq<Step> {
    RecordSteps(d, v) + HeadSteps(d, v)
  }

  lemma SameHeadSteps(a: Disk, b: Disk, v: Version)
    requires SameFile(a, b, HeadPath)
    ensures HeadSteps(a, v) == HeadSteps(b, v)
  {
  }

  function AfterCommit(m: Memory, v: Version): Memory {
    m.(head := Some(v.head), lineage := v.head.lineage, retained := m.retained + 1)
  }

  // ----- reading --------------------------------------------------------------

  /** The values an envelope has beside those of its document. */
  function EnvelopeValues(e: Envelope): nat { if e.parent.Some? then 16 else 13 }

  /** The payload is within the limits that reading enforces, and writing does not. */
  predicate Readable(e: Envelope) {
    var s := e.doc.shape;
    var limits := JsonGrammar.DEFAULT_LIMITS;
    && s.sound
    && s.depth < limits.maxDepth && s.longest <= limits.maxString && s.widest <= JsonGrammar.MAX_COLLECTION
    && EnvelopeValues(e) + s.values <= limits.maxNodes
    && e.room + s.bytes <= MAX_RECORD_BYTES
  }

  /** The record in a file that passes every check of the reader. */
  function ReadRecord(d: Disk, name: FileName, domain: string): Option<RecordFile> {
    if RecordPath(name) in d && d[RecordPath(name)].RecordData?
       && d[RecordPath(name)].record.generation == d[RecordPath(name)].record.envelope.generation
       && d[RecordPath(name)].record.envelope.domain == domain
       && Readable(d[RecordPath(name)].record.envelope)
    then Some(d[RecordPath(name)].record)
    else None
  }

  /** The files of one generation; the first in directory order answers for it. */
  ghost function FilesOf(d: Disk, generation: nat): (names: set<FileName>)
    ensures forall name :: name in names <==> RecordPath(name) in d && name.generation == generation
  {
    set name | name in RecordNames(d) && name.generation == generation
  }

  /** The record named by the head pointer carries what the head file says. */
  predicate Agrees(record: RecordFile, h: HeadPointer) {
    && record.generation == h.generation
    && record.envelope.doc == h.doc
    && record.envelope.lineage == h.lineage
    && record.head == HeadHash(h)
    && (h.parent.Some? ==> record.envelope.parent.Some? && record.envelope.parent.value.generation == h.parent.value.generation)
  }

  /** The retained parent record, if any, is the one the head file names. */
  ghost predicate ChainOk(d: Disk, h: HeadPointer) {
    h.parent.Some? && FilesOf(d, h.parent.value.generation) != {} ==>
      match ReadRecord(d, Least(FilesOf(d, h.parent.value.generation)), h.domain)
      case None => false
      case Some(parent) =>
        parent.head == h.parent.value.head && ContentHash(parent.envelope.doc.content) == h.parent.value.content
  }

  /** The head pointer at path, when it parses, names a sound record and continues the retained chain. */
  ghost function LoadCandidate(d: Disk, path: Path, domain: string): Option<HeadPointer> {
    if path in d && d[path].HeadData? && d[path].head.domain == domain then
      var h := d[path].head;
      match ReadRecord(d, h.file, domain)
      case None => None
      case Some(record) => if Agrees(record, h) && ChainOk(d, h) then Some(h) else None
    else None
  }

  // ----- open -----------------------------------------------------------------

  datatype Choice = Fresh | Refused | Chosen(head: HeadPointer, fromBackup: bool)

  ghost function Choose(d: Disk, domain: string): Choice {
    var primary := LoadCandidate(d, HeadPath, domain);
    var backup := LoadCandidate(d, BackupPath, domain);
    if primary.None? && backup.None? then
      if HeadPath in d || BackupPath in d then Refused else Fresh
    else if primary.None? then Chosen(backup.value, true)
    else if backup.Some? && backup.value.generation > primary.value.generation then Chosen(backup.value, true)
    else Chosen(primary.value, false)
  }

  /** Records newer than the chosen head. */
  ghost function Orphans(d: Disk, generation: nat): (names: set<FileName>)
    ensures forall name :: name in names <==> RecordPath(name) in d && name.generation > generation
  {
    set name | name in RecordNames(d) && name.generation > generation
  }

  function RestoreSteps(d: Disk, head: HeadPointer, fromBackup: bool): seq<Step> {
    if fromBackup then AtomicWriteSteps(d, HeadPath, HeadData(head), false) else []
  }

  /** Restoring the head pointer from the backup if that was chosen, then removing the orphans. */
  ghost function OpenSteps(d: Disk, choice: Choice): seq<Step> {
    match choice
    case Chosen(head, fromBackup) =>
      RestoreSteps(d, head, fromBackup)
      + (if head.epoch >= MAX_EPOCH then [] else RemovalSteps(Listing(Orphans(d, head.generation))))
    case _ => []
  }

  ghost function OpenedMemory(d: Disk, domain: string, choice: Choice, incarnation: nat): Memory {
    match choice
    case Chosen(head, _) =>
      Memory(domain, head.epoch + 1, incarnation, Some(head), head.lineage, |RecordNames(d) - Orphans(d, head.generation)|)
    case _ => Memory(domain, 1, incarnation, None, Genesis(domain), 0)
  }

  // ----- prune ----------------------------------------------------------------

  ghost function Prunable(d: Disk, keepFrom: nat): (names: set<FileName>)
    ensures forall name :: name in names <==> RecordPath(name) in d && name.generation < keepFrom
  {
    set name | name in RecordNames(d) && name.generation < keepFrom
  }

  function RetainedAfterPrune(retained: nat, removed: nat): nat {
    if removed > 0 && retained >= removed then retained - removed else 0
  }

  // ----- verification -----------------------------------------------------------

  predicate GenerationLe(a: RecordFile, b: RecordFile) { a.generation <= b.generation }

  /** The records that can be read, in the order of the given names. */
  function ReadAll(d: Disk, names: seq<FileName>, domain: string): seq<RecordFile> {
    if names == [] then []
    else
      var rest := ReadAll(d, names[..|names| - 1], domain);
      match ReadRecord(d, names[|names| - 1], domain)
      case None => rest
      case Some(record) => rest + [record]
  }

  /** A pruned generation breaks the chain by design; otherwise the parent reference must match. */
  predicate Linked(previous: RecordFile, next: RecordFile) {
    next.generation == previous.generation + 1 ==>
      && next.envelope.parent.Some?
      && next.envelope.parent.value.generation == previous.generation
      && next.envelope.parent.value.content == ContentHash(previous.envelope.doc.content)
  }

  /** The first record of the head's generation exists and carries the head pointer's digest. */
  predicate HeadFound(records: seq<RecordFile>, head: HeadPointer)
  {
    if records == [] then false
    else if records[0].generation == head.generation then records[0].head == HeadHash(head)
    else HeadFound(records[1..], head)
  }

  ghost predicate InChain(records: seq<RecordFile>) { forall i :: 0 < i < |records| ==> Linked(records[i - 1], records[i]) }

  /** Every record file reads, every retained link holds and the head record is present. */
  ghost predicate Verified(d: Disk, m: Memory) {
    var names := Listing(RecordNames(d));
    var records := Sort(GenerationLe, ReadAll(d, names, m.domain));
    && (forall i :: 0 <= i < |names| ==> ReadRecord(d, names[i], m.domain).Some?)
    && InChain(records)
    && (m.head.Some? ==> HeadFound(records, m.head.value))
  }

  // ----- the store object -----------------------------------------------------

  class IntentStore {
    const fs: FileSystem
    const domain: string
    const maxGenerations: nat
    const epoch: nat
    const incarnation: nat
    var head: Option<HeadPointer>
    var lineage: LineageDigest
    var retained: nat

    function Snapshot(): Memory
      reads this
    {
      Memory(domain, epoch, incarnation, head, lineage, retained)
    }

    constructor (fs: FileSystem, maxGenerations: nat, m: Memory)
      ensures this.fs == fs && this.maxGenerations == maxGenerations && Snapshot() == m
    {
      this.fs, this.maxGenerations := fs, maxGenerations;
      domain, epoch, incarnation, head, lineage, retained := m.domain, m.epoch, m.incarnation, m.head, m.lineage, m.retained;
    }

    /** Refuses without effect, or carries out the commit steps as far as power lasts. */
    method Commit(request: Request, fence: Fence, text: PayloadText) returns (r: Outcome<HeadPointer>)
      requires fs.Valid()
      modifies this, fs
      ensures fs.Valid()
      ensures var refusal := CommitCheck(old(Snapshot()), maxGenerations, request, fence);
        refusal.Some? ==> r == Failure(refusal.value) && Snapshot() == old(Snapshot()) && fs.Ran([], true)
      ensures CommitCheck(old(Snapshot()), maxGenerations, request, fence).None? ==>
        request.doc.Some? && fs.Ran(CommitSteps(old(fs.disk), NewVersion(old(Snapshot()), request, text)), r.Success?)
      ensures CommitCheck(old(Snapshot()), maxGenerations, request, fence).None? && r.Success? ==>
        && r.value == NewVersion(old(Snapshot()), request, text).head
        && Snapshot() == AfterCommit(old(Snapshot()), NewVersion(old(Snapshot()), request, text))
      ensures CommitCheck(old(Snapshot()), maxGenerations, request, fence).None? && r.Failure? ==>
        r.error == PowerLost && Snapshot() == old(Snapshot())
    {
      var refusal := CommitCheck(Snapshot(), maxGenerations, request, fence);
      if refusal.Some? {
        return Failure(refusal.value);
      }
      var v := NewVersion(Snapshot(), request, text);
      hide CommitCheck, NewVersion;
      var ok := WriteVersion(v);
      if !ok { return Failure(PowerLost); }
      head, lineage, retained := Some(v.head), v.head.lineage, retained + 1;
      r := Success(v.head);
    }

    /** The record and its journal line, then the head pointer with a backup of the previous one. */
    method WriteVersion(v: Version) returns (ok: bool)
      requires fs.Valid()
      modifies fs
      ensures fs.Valid() && fs.Ran(CommitSteps(old(fs.disk), v), ok)
    {
      hide ApplyAll, AtomicWriteSteps, RecordSteps;
      ghost var first, second := RecordSteps(fs.disk, v), HeadSteps(fs.disk, v);
      ok := WriteRecord(v);
      if !ok {
        PlanPrefix(first, second, old(fs.budget));
        return;
      }
      assert AtomicWriteSteps(fs.disk, HeadPath, HeadData(v.head), true) == second by { SameHeadSteps(old(fs.disk), fs.disk, v); }
      ok := fs.WriteFileAtomic(HeadPath, HeadData(v.head), true);
      if ok {
        assert fs.log == old(fs.log) + (first + second);
      } else {
        PlanPrefix(first, second, old(fs.budget));
      }
    }

    /** Writes the record file, then its journal line. */
    method WriteRecord(v: Version) returns (ok: bool)
      requires fs.Valid()
      modifies fs
      ensures fs.Valid() && fs.Ran(RecordSteps(old(fs.disk), v), ok)
      ensures ok ==> SameFile(old(fs.disk), fs.disk, HeadPath)
    {
      hide ApplyAll;
      ghost var plan := AtomicWriteSteps(fs.disk, RecordPath(v.head.file), RecordData(v.record), false);
      ok := fs.WriteFileAtomic(RecordPath(v.head.file), RecordData(v.record), false);
      if !ok { return; }
      ApplyAppend(fs.start, old(fs.log), plan);
      assert plan[..|plan|] == plan;
      Untouched(old(fs.disk), plan, HeadPath);
      Untouched(old(fs.disk), plan, JournalPath);
      var line := JournalAfter(fs.disk, v.head.generation);
      ok := fs.Do(Write(JournalPath, Torn));
      if !ok { return; }
      ok := fs.Do(Write(JournalPath, line));
    }

    /** Removes the records before keepFrom and adjusts the retention count. */
    method PruneBefore(keepFrom: nat) returns (ok: bool)
      requires fs.Valid()
      modifies this`retained, fs
      ensures fs.Valid() && fs.Ran(RemovalSteps(Listing(Prunable(old(fs.disk), keepFrom))), ok)
      ensures retained == if ok then RetainedAfterPrune(old(retained), |Prunable(old(fs.disk), keepFrom)|) else old(retained)
    {
      var names := set name | name in RecordNames(fs.disk) && name.generation < keepFrom;
      assert names == Prunable(fs.disk, keepFrom);
      ok := fs.RemoveRecords(names);
      if ok {
        retained := RetainedAfterPrune(retained, |names|);
      }
    }

    /** Counts what is wrong with the records and the head pointer. */
    method VerifyAll() returns (problems: nat)
      ensures problems == 0 <==> Verified(fs.disk, Snapshot())
    {
      hide HeadFound, Sort, ReadRecord, InChain;
      var records, unreadable := ReadRecords(fs.disk, domain);
      records := Sort(GenerationLe, records);
      var broken := CountBroken(records);
      problems := unreadable + broken;
      if head.Some? {
        var found := FindHead(records, head.value);
        if !found {
          problems := problems + 1;
        }
      }
    }
  }

  /** Reads every record file in directory order, counting those that fail a check. */
  method ReadRecords(d: Disk, domain: string) returns (records: seq<RecordFile>, unreadable: nat)
    ensures records == ReadAll(d, Listing(RecordNames(d)), domain)
    ensures unreadable == 0 <==>
      forall i :: 0 <= i < |Listing(RecordNames(d))| ==> ReadRecord(d, Listing(RecordNames(d))[i], domain).Some?
  {
    hide ReadRecord;
    ghost var names := Listing(RecordNames(d));
    var pending := RecordNames(d);
    records, unreadable := [], 0;
    ghost var seen := 0;
    while pending != {}
      invariant 0 <= seen <= |names| && Listing(pending) == names[seen..]
      invariant records == ReadAll(d, names[..seen], domain)
      invariant unreadable == 0 <==> forall i :: 0 <= i < seen ==> ReadRecord(d, names[i], domain).Some?
      decreases pending
    {
      LeastExists(pending);
      var name :| name in pending && forall other :: other in pending ==> NameLe(name, other);
      assert NameLe(name, Least(pending)) && NameLe(Least(pending), name);
      assert Listing(pending) == [name] + Listing(pending - {name});
      assert names[seen] == name && names[seen + 1..] == names[seen..][1..];
      assert names[..seen + 1][..seen] == names[..seen];
      var record := ReadRecord(d, name, domain);
      if record.Some? {
        records := records + [record.value];
      } else {
        unreadable := unreadable + 1;
      }
      pending := pending - {name};
      seen := seen + 1;
    }
    assert names[..seen] == names;
  }

  /** Counts the neighbours whose parent reference does not match. */
  method CountBroken(records: seq<RecordFile>) returns (broken: nat)
    ensures broken == 0 <==> InChain(records)
  {
    broken := 0;
    var i := 1;
    while i < |records|
      invariant i >= 1
      invariant broken == 0 <==> forall k :: 0 < k < i && k < |records| ==> Linked(records[k - 1], records[k])
    {
      if !Linked(records[i - 1], records[i]) {
        broken := broken + 1;
      }
      i := i + 1;
    }
  }

  method FindHead(records: seq<RecordFile>, head: HeadPointer) returns (found: bool)
    ensures found == HeadFound(records, head)
  {
    found := false;
    for i := 0 to |records|
      invariant !found && HeadFound(records, head) == HeadFound(records[i..], head)
    {
      if records[i].generation == head.generation {
        found := records[i].head == HeadHash(head);
        return;
      }
    }
  }

  /** The first file of a generation in directory order. */
  method RecordPathFor(d: Disk, generation: nat) returns (found: Option<FileName>)
    ensures found == if FilesOf(d, generation) == {} then None else Some(Least(FilesOf(d, generation)))
  {
    var names := set name | name in RecordNames(d) && name.generation == generation;
    assert names == FilesOf(d, generation);
    if names == {} {
      return None;
    }
    LeastExists(names);
    var name :| name in names && forall other :: other in names ==> NameLe(name, other);
    assert NameLe(name, Least(names)) && NameLe(Least(names), name);
    found := Some(name);
  }

  method ReadCandidate(d: Disk, path: Path, domain: string) returns (candidate: Option<HeadPointer>)
    ensures candidate == LoadCandidate(d, path, domain)
  {
    candidate := None;
    if path !in d || !d[path].HeadData? || d[path].head.domain != domain {
      return;
    }
    var h := d[path].head;
    var record := ReadRecord(d, h.file, domain);
    if record.None? || !Agrees(record.value, h) {
      return;
    }
    if h.parent.Some? {
      var name := RecordPathFor(d, h.parent.value.generation);
      if name.Some? {
        var parent := ReadRecord(d, name.value, h.domain);
        if parent.None? || parent.value.head != h.parent.value.head
           || ContentHash(parent.value.envelope.doc.content) != h.parent.value.content {
          return;
        }
      }
    }
    candidate := Some(h);
  }

  method ChooseHead(d: Disk, domain: string) returns (choice: Choice)
    ensures choice == Choose(d, domain)
  {
    hide LoadCandidate;
    var primary := ReadCandidate(d, HeadPath, domain);
    var backup := ReadCandidate(d, BackupPath, domain);
    if primary.None? && backup.None? {
      return if HeadPath in d || BackupPath in d then Refused else Fresh;
    }
    choice := Chosen(if primary.Some? then primary.value else backup.value, primary.None?);
    if primary.Some? && backup.Some? && backup.value.generation > primary.value.generation {
      choice := Chosen(backup.value, true);
    }
  }

  /** Takes the highest verified head pointer, restores it if needed and removes the orphans. */
  method Open(fs: FileSystem, domain: string, incarnation: nat, maxGenerations: nat) returns (r: Outcome<IntentStore>)
    requires fs.Valid()
    modifies fs
    ensures fs.Valid()
    ensures var choice := Choose(old(fs.disk), domain);
      match choice
      case Refused => r == Failure(StoreCorrupt) && fs.Ran([], true)
      case Fresh =>
        r.Success? && fresh(r.value) && fs.Ran([], true)
        && r.value.Snapshot() == OpenedMemory(old(fs.disk), domain, choice, incarnation)
      case Chosen(head, _) =>
        && (r.Failure? ==> r.error == PowerLost || (r.error == CounterExhausted && head.epoch >= MAX_EPOCH))
        && fs.Ran(OpenSteps(old(fs.disk), choice), r != Failure(PowerLost))
        && (r.Success? ==> head.epoch < MAX_EPOCH && fresh(r.value)
                           && r.value.Snapshot() == OpenedMemory(old(fs.disk), domain, choice, incarnation))
  {
    var choice := ChooseHead(fs.disk, domain);
    hide Choose, ApplyAll, AtomicWriteSteps, Listing;
    if choice.Refused? {
      return Failure(StoreCorrupt);
    }
    if choice.Fresh? {
      var fresh' := new IntentStore(fs, maxGenerations, Memory(domain, 1, incarnation, None, Genesis(domain), 0));
      return Success(fresh');
    }
    var ok, kept := Reclaim(fs, choice);
    if !ok {
      return Failure(PowerLost);
    }
    if choice.head.epoch >= MAX_EPOCH {
      return Failure(CounterExhausted);
    }
    var store := new IntentStore(fs, maxGenerations,
      Memory(domain, choice.head.epoch + 1, incarnation, Some(choice.head), choice.head.lineage, kept));
    r := Success(store);
  }

  /** Restores the head pointer if it came from the backup, then removes the orphans and counts the rest. */
  method Reclaim(fs: FileSystem, choice: Choice) returns (ok: bool, kept: nat)
    requires fs.Valid() && choice.Chosen?
    modifies fs
    ensures fs.Valid() && fs.Ran(OpenSteps(old(fs.disk), choice), ok)
    ensures ok ==> kept == |RecordNames(old(fs.disk)) - Orphans(old(fs.disk), choice.head.generation)|
  {
    hide ApplyAll, AtomicWriteSteps, Listing, RestoreSteps;
    kept := 0;
    ghost var first := RestoreSteps(fs.disk, choice.head, choice.fromBackup);
    ghost var second := if choice.head.epoch >= MAX_EPOCH then [] else RemovalSteps(Listing(Orphans(fs.disk, choice.head.generation)));
    ok := Restore(fs, choice.head, choice.fromBackup);
    if !ok {
      PlanPrefix(first, second, old(fs.budget));
      return;
    }
    var orphans := set name | name in RecordNames(fs.disk) && name.generation > choice.head.generation;
    assert orphans == Orphans(old(fs.disk), choice.head.generation);
    kept := |RecordNames(fs.disk) - orphans|;
    if choice.head.epoch >= MAX_EPOCH {
      assert first + second == first;
      return;
    }
    ok := fs.RemoveRecords(orphans);
    if ok {
      assert fs.log == old(fs.log) + (first + second);
    } else {
      PlanPrefix(first, second, old(fs.budget));
    }
  }

  method Restore(fs: FileSystem, head: HeadPointer, fromBackup: bool) returns (ok: bool)
    requires fs.Valid()
    modifies fs
    ensures fs.Valid() && fs.Ran(RestoreSteps(old(fs.disk), head, fromBackup), ok)
    ensures ok ==> RecordNames(fs.disk) == RecordNames(old(fs.disk))
  {
    ok := true;
    if fromBackup {
      hide ApplyAll;
      ghost var plan := AtomicWriteSteps(fs.disk, HeadPath, HeadData(head), false);
      ok := fs.WriteFileAtomic(HeadPath, HeadData(head), false);
      if ok {
        ApplyAppend(fs.start, old(fs.log), plan);
        assert plan[..|plan|] == plan;
        forall name
          ensures name in RecordNames(fs.disk) <==> name in RecordNames(old(fs.disk))
        {
          Untouched(old(fs.disk), plan, RecordPath(name));
        }
      }
    }
  }
}
