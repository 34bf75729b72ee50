/**
 * The durable state of a store and the elementary file-system steps that change it
 * (src/io.cpp:158-187, src/store.cpp). Digests are modelled as constructors over what they
 * digest, so they are injective; a file whose bytes were cut short fails every integrity
 * check and is represented by Torn.
 */
module Disk {
  import opened Identities

  /** The bound on the payload of a record, enforced only by reading. */
  const MAX_RECORD_BYTES: nat := 256 * 1024 * 1024

  /**
   * What the reader's limits look at in the JSON text of a document: its bytes, the number of its values,
   * its depth, its longest string or name and its widest collection. It is `sound` when strings are valid
   * UTF-8, numbers fit and the reader of documents gives back the document that was written.
   */
  datatype Shape = Shape(bytes: nat, values: nat, depth: nat, longest: nat, widest: nat, sound: bool)

  /** A canonical document: its semantic content, the rest (provenance, schema minor) and its shape as JSON. */
  datatype Doc = Doc(content: nat, provenance: nat, shape: Shape)

  datatype ContentDigest = ContentHash(content: nat)

  datatype LineageDigest =
    | Genesis(domain: string)
    | Next(parent: LineageDigest, domain: string, generation: nat, content: ContentDigest)

  /** The parent reference of a record: generation number, content digest, head digest. */
  datatype Parent = Parent(generation: nat, content: ContentDigest, head: HeadDigest)

  /** The JSON payload of a generation record; room is the number of bytes around the document. */
  datatype Envelope = Envelope(
    domain: string, generation: nat, epoch: nat, incarnation: nat, writer: string, committedAt: nat,
    doc: Doc, lineage: LineageDigest, parent: Option<Parent>, room: nat)

  datatype PayloadDigest = PayloadHash(envelope: Envelope)

  /** gen-<generation>-<tag>.rec, the tag being the shortened payload digest. */
  datatype FileName = FileName(generation: nat, tag: nat)

  datatype HeadPointer = HeadPointer(
    domain: string, generation: nat, doc: Doc, lineage: LineageDigest,
    file: FileName, payload: PayloadDigest,
    epoch: nat, incarnation: nat, writer: string, committedAt: nat,
    parent: Option<Parent>)

  datatype HeadDigest = HeadHash(head: HeadPointer)

  /** A record file: the header's generation and head digest, and the payload. */
  datatype RecordFile = RecordFile(generation: nat, head: HeadDigest, envelope: Envelope)

  datatype File = Torn | RecordData(record: RecordFile) | HeadData(head: HeadPointer) | JournalData(lines: seq<nat>)

  datatype Path = RecordPath(name: FileName) | HeadPath | BackupPath | JournalPath | Temp(of: Path)

  type Disk = map<Path, File>

  /** One durable change: a rename is atomic, a write may be left torn. */
  datatype Step = Write(path: Path, file: File) | Rename(from: Path, to: Path) | Remove(path: Path)

  function Apply(d: Disk, step: Step): Disk {
    match step
    case Write(path, file) => d[path := file]
    case Rename(from, to) => if from in d then d[to := d[from]] - {from} else d
    case Remove(path) => d - {path}
  }

  function ApplyAll(d: Disk, steps: seq<Step>): Disk {
    if steps == [] then d else Apply(ApplyAll(d, steps[..|steps| - 1]), steps[|steps| - 1])
  }

  lemma ApplyOneMore(d: Disk, steps: seq<Step>, step: Step)
    ensures ApplyAll(d, steps + [step]) == Apply(ApplyAll(d, steps), step)
  {
    assert (steps + [step])[..|steps|] == steps;
  }

  lemma {:induction false} ApplyAppend(d: Disk, a: seq<Step>, b: seq<Step>)
    ensures ApplyAll(d, a + b) == ApplyAll(ApplyAll(d, a), b)
  {
    if b == [] {
      assert a + b == a;
    } else {
      var m := |b| - 1;
      ApplyAppend(d, a, b[..m]);
      assert a + b == (a + b[..m]) + [b[m]];
      ApplyOneMore(d, a + b[..m], b[m]);
      assert b == b[..m] + [b[m]];
      ApplyOneMore(ApplyAll(d, a), b[..m], b[m]);
    }
  }

  /** Replacing a file through a temporary sibling, optionally copying the old contents to the backup in place. */
  function AtomicWriteSteps(d: Disk, path: Path, file: File, keepBackup: bool): seq<Step> {
    [Write(Temp(path), Torn), Write(Temp(path), file)]
    + (if keepBackup && path in d then [Write(BackupPath, Torn), Write(BackupPath, d[path])] else [])
    + [Rename(Temp(path), path)]
  }

  predicate Touches(step: Step, path: Path) {
    match step
    case Write(p, _) => p == path
    case Rename(from, to) => from == path || to == path
    case Remove(p) => p == path
  }

  ghost predicate SameFile(a: Disk, b: Disk, path: Path) {
    (path in a <==> path in b) && (path in a ==> a[path] == b[path])
  }

  lemma {:induction false} Untouched(d: Disk, steps: seq<Step>, path: Path)
    requires forall i :: 0 <= i < |steps| ==> !Touches(steps[i], path)
    ensures SameFile(d, ApplyAll(d, steps), path)
  {
    if steps != [] {
      Untouched(d, steps[..|steps| - 1], path);
      assert !Touches(steps[|steps| - 1], path);
    }
  }

  // ----- listing the record directory -----------------------------------------

  predicate NameLe(a: FileName, b: FileName) {
    a.generation < b.generation || (a.generation == b.generation && a.tag <= b.tag)
  }

  /** The names of the record files. */
  function RecordNames(d: Disk): (names: set<FileName>)
    ensures forall name :: name in names <==> RecordPath(name) in d
  {
    set path | path in d && path.RecordPath? :: path.name
  }

  ghost predicate IsLeast(names: set<FileName>, least: FileName) {
    least in names && forall other :: other in names ==> NameLe(least, other)
  }

  lemma {:induction false} LeastExists(names: set<FileName>)
    requires names != {}
    ensures exists least :: IsLeast(names, least)
    decreases |names|
  {
    var x :| x in names;
    if names == {x} {
      assert IsLeast(names, x);
    } else {
      LeastExists(names - {x});
      var y :| IsLeast(names - {x}, y);
      var least := if NameLe(x, y) then x else y;
      forall other | other in names
        ensures NameLe(least, other)
      {
        assert other == x || other in names - {x};
      }
      assert IsLeast(names, least);
    }
  }

  ghost function Least(names: set<FileName>): (least: FileName)
    requires names != {}
    ensures IsLeast(names, least)
  {
    LeastExists(names);
    var least :| IsLeast(names, least);
    least
  }

  /** The names in directory order. */
  ghost function Listing(names: set<FileName>): seq<FileName> {
    if names == {} then [] else [Least(names)] + Listing(names - {Least(names)})
  }

  lemma {:induction false} ListingMembers(names: set<FileName>)
    ensures forall name :: name in Listing(names) <==> name in names
    ensures |Listing(names)| == |names|
    ensures forall i, j :: 0 <= i < j < |Listing(names)| ==> NameLe(Listing(names)[i], Listing(names)[j]) && Listing(names)[i] != Listing(names)[j]
  {
    if names != {} {
      assert IsLeast(names, Least(names));
      ListingMembers(names - {Least(names)});
    }
  }

  /** Removing the record files of the given names, one after the other. */
  function RemovalSteps(names: seq<FileName>): (steps: seq<Step>)
    ensures |steps| == |names|
    ensures forall i :: 0 <= i < |names| ==> steps[i] == Remove(RecordPath(names[i]))
  {
    seq(|names|, i requires 0 <= i < |names| => Remove(RecordPath(names[i])))
  }

  lemma PlanPrefix(a: seq<Step>, b: seq<Step>, n: nat)
    requires n <= |a| + |b|
    ensures (a + b)[..n] == if n <= |a| then a[..n] else a + b[..n - |a|]
  {
  }

  lemma TempDiffers(path: Path)
    ensures Temp(path) != path
  {
    if path.Temp? {
      TempDiffers(path.of);
    }
  }

  /** A machine that may lose power: only `budget` further steps take effect. */
  class FileSystem {
    var disk: Disk
    var budget: nat
    ghost const start: Disk
    ghost var log: seq<Step>

    ghost predicate Valid()
      reads this
    {
      disk == ApplyAll(start, log)
    }

    constructor (disk: Disk, budget: nat)
      ensures Valid() && this.disk == disk && start == disk && this.budget == budget && log == []
    {
      this.disk, this.budget := disk, budget;
      start, log := disk, [];
    }

    /** The first n steps of the plan have been taken since the old state. */
    twostate predicate Took(plan: seq<Step>, n: nat)
      reads this
    {
      n <= |plan| && n + budget == old(budget) && log == old(log) + plan[..n]
    }

    /** The plan has been carried out since the old state, as far as power lasted. */
    twostate predicate Ran(plan: seq<Step>, ok: bool)
      reads this
    {
      if ok then Took(plan, |plan|) else old(budget) < |plan| && Took(plan, old(budget))
    }

    method Do(step: Step) returns (ok: bool)
      requires Valid()
      modifies this
      ensures Valid() && ok == (old(budget) > 0)
      ensures budget == (if ok then old(budget) - 1 else 0)
      ensures log == (if ok then old(log) + [step] else old(log))
      ensures disk == (if ok then Apply(old(disk), step) else old(disk))
    {
      ok := budget > 0;
      if ok {
        ApplyOneMore(start, log, step);
        disk := Apply(disk, step);
        budget := budget - 1;
        log := log + [step];
      }
    }

    /** Temporary file, optional in-place backup of the previous contents, rename. */
    method WriteFileAtomic(path: Path, file: File, keepBackup: bool) returns (ok: bool)
      requires Valid() && path != BackupPath
      modifies this
      ensures Valid() && Ran(AtomicWriteSteps(old(disk), path, file, keepBackup), ok)
    {
      hide ApplyAll;
      ghost var plan := AtomicWriteSteps(disk, path, file, keepBackup);
      TempDiffers(path);
      ok := Do(Write(Temp(path), Torn));
      if !ok { return; }
      ok := Do(Write(Temp(path), file));
      assert ok ==> Took(plan, 2);
      if !ok { return; }
      if keepBackup && path in disk {
        var previous := disk[path];
        ok := Do(Write(BackupPath, Torn));
        if !ok { return; }
        ok := Do(Write(BackupPath, previous));
        assert ok ==> Took(plan, 4);
        if !ok { return; }
      }
      ok := Do(Rename(Temp(path), path));
    }

    /** Removes the record files of the given names in directory order. */
    method RemoveRecords(names: set<FileName>) returns (ok: bool)
      requires Valid()
      modifies this
      ensures Valid() && Ran(RemovalSteps(Listing(names)), ok)
    {
      hide ApplyAll;
      ghost var plan := RemovalSteps(Listing(names));
      ghost var done := 0;
      var pending := names;
      ok := true;
      assert Listing(names)[0..] == Listing(names);
      while pending != {}
        invariant Valid() && ok
        invariant done <= |Listing(names)| && Listing(pending) == Listing(names)[done..]
        invariant Took(plan, done)
        decreases pending
      {
        LeastExists(pending);
        var name :| name in pending && forall other :: other in pending ==> NameLe(name, other);
        assert NameLe(name, Least(pending)) && NameLe(Least(pending), name);
        assert Listing(pending) == [name] + Listing(pending - {name});
        assert plan[done] == Remove(RecordPath(name));
        ok := Do(Remove(RecordPath(name)));
        if !ok { return; }
        pending := pending - {name};
        assert Listing(names)[done..][1..] == Listing(names)[done + 1..];
        assert plan[..done + 1] == plan[..done] + [plan[done]];
        done := done + 1;
      }
    }
  }
}
