/**
 * What the integrity walk over the retained records finds, and what the chain of records and its lineage
 * digests say about the committed history.
 */
module Integrity {
  import opened Identities
  import opened Disk
  import opened Store
  import opened StoreRuns
  import opened Ordering

  // ----- verification -----------------------------------------------------------

  lemma {:induction false} ReadAllRetained(domain: string, d: Disk, history: seq<Version>, names: seq<FileName>)
    requires WellLinked(domain, history) && DiskBody(d, history)
    requires forall name :: name in names ==> RecordPath(name) in d && name.generation <= |history|
    requires forall i, j :: 0 <= i < j < |names| ==> NameLe(names[i], names[j]) && names[i] != names[j]
    requires forall name :: name in names ==> ReadRecord(d, name, domain).Some?
    ensures var records := ReadAll(d, names, domain);
      && |records| == |names|
      && (forall i :: 0 <= i < |names| ==> 1 <= names[i].generation <= |history| && records[i] == history[names[i].generation - 1].record)
      && (forall i, j :: 0 <= i < j < |names| ==> names[i].generation < names[j].generation)
  {
    hide DiskBody, WellLinked, ReadRecord, Readable;
    if names != [] {
      var m := |names| - 1;
      forall i | 0 <= i < |names|
        ensures 1 <= names[i].generation <= |history| && names[i] == history[names[i].generation - 1].head.file
        ensures ReadRecord(d, names[i], domain) == Some(history[names[i].generation - 1].record)
      {
        assert names[i] in names;
        RetainedReads(domain, d, history, names[i]);
      }
      ReadAllRetained(domain, d, history, names[..m]);
      assert forall i :: 0 <= i < m ==> names[..m][i] == names[i];
    }
  }

  lemma {:induction false} HeadIsFound(records: seq<RecordFile>, head: HeadPointer, k: nat)
    requires k < |records| && records[k].generation == head.generation && records[k].head == HeadHash(head)
    requires forall i, j :: 0 <= i < j < |records| ==> records[i].generation < records[j].generation
    ensures HeadFound(records, head)
  {
    if k > 0 {
      HeadIsFound(records[1..], head, k - 1);
    }
  }

  /** Every retained record is within the limits of the reader. */
  ghost predicate AllReadable(s: System)
    requires forall name :: RecordPath(name) in s.disk ==> 1 <= name.generation <= |s.history|
  {
    forall name :: RecordPath(name) in s.disk ==> Readable(s.history[name.generation - 1].record.envelope)
  }

  /** In every reachable idle state the integrity walk finds a problem exactly in a record beyond the limits. */
  lemma VerifiedIff(c: Config, s: System)
    requires SystemInv(c, s) && s.live.Some?
    ensures Verified(s.disk, s.live.value) <==> AllReadable(s)
  {
    var names := Listing(RecordNames(s.disk));
    ListingMembers(RecordNames(s.disk));
    hide Listing, ReadRecord, ReadAll, Sort, Linked, HeadFound, Readable, VersionOk;
    forall i | 0 <= i < |names|
      ensures ReadRecord(s.disk, names[i], c.domain).Some? <==> Readable(s.history[names[i].generation - 1].record.envelope)
    {
      RetainedReads(c.domain, s.disk, s.history, names[i]);
    }
    if AllReadable(s) {
      VerifyFindsNothing(c, s);
    } else {
      var name :| RecordPath(name) in s.disk && !Readable(s.history[name.generation - 1].record.envelope);
      assert name in names;
    }
  }

  lemma VerifyFindsNothing(c: Config, s: System)
    requires SystemInv(c, s) && s.live.Some?
    requires forall name :: RecordPath(name) in s.disk ==> ReadRecord(s.disk, name, c.domain).Some?
    ensures Verified(s.disk, s.live.value)
  {
    hide Listing, ReadRecord, ReadAll, Sort, InChain, HeadFound, Readable, VersionOk;
    var names := Listing(RecordNames(s.disk));
    var n := |s.history|;
    ListingMembers(RecordNames(s.disk));
    ReadAllRetained(c.domain, s.disk, s.history, names);
    var records := ReadAll(s.disk, names, c.domain);
    LinkedRecords(c, s, names);
    var last := s.history[n - 1].head;
    LastRecord(c, s);
    assert last.file in names;
    var k :| 0 <= k < |names| && names[k] == last.file;
    assert Sorted(GenerationLe, records);
    SortKeepsSorted(GenerationLe, records);
    HeadIsFound(records, last, k);
  }

  lemma LastRecord(c: Config, s: System)
    requires SystemInv(c, s)
    ensures var n := |s.history|; var v := s.history[n - 1];
      v.head.file.generation == n == v.head.generation == v.record.generation && v.record.head == HeadHash(v.head)
  {
    assert VersionOk(c.domain, s.history, |s.history| - 1);
  }

  lemma LinkedRecords(c: Config, s: System, names: seq<FileName>)
    requires SystemInv(c, s) && s.live.Some?
    requires var records := ReadAll(s.disk, names, c.domain);
      && |records| == |names|
      && (forall i :: 0 <= i < |names| ==> 1 <= names[i].generation <= |s.history| && records[i] == s.history[names[i].generation - 1].record)
    ensures var records := ReadAll(s.disk, names, c.domain);
      && InChain(records)
      && (forall i :: 0 <= i < |records| ==> records[i].generation == names[i].generation)
  {
    var records := ReadAll(s.disk, names, c.domain);
    forall i | 0 <= i < |names|
      ensures records[i].generation == names[i].generation
      ensures i > 0 ==> Linked(records[i - 1], records[i])
    {
      assert VersionOk(c.domain, s.history, names[i].generation - 1);
      if i > 0 {
        assert VersionOk(c.domain, s.history, names[i - 1].generation - 1);
      }
    }
  }

  // ----- lineage ------------------------------------------------------------------

  /** The lineage digest after committing the given documents, in order, from genesis. */
  function LineageOf(domain: string, docs: seq<Doc>): LineageDigest {
    if docs == [] then Genesis(domain)
    else NextLineage(LineageOf(domain, docs[..|docs| - 1]), domain, |docs|, docs[|docs| - 1])
  }

  function Contents(docs: seq<Doc>): (r: seq<nat>)
    ensures |r| == |docs| && forall i :: 0 <= i < |docs| ==> r[i] == docs[i].content
  {
    seq(|docs|, i requires 0 <= i < |docs| => docs[i].content)
  }

  /** Equal lineage digests mean the same domain and the same content history, and conversely. */
  lemma {:induction false} LineageDeterminesHistory(domain: string, docs: seq<Doc>, domain': string, docs': seq<Doc>)
    ensures LineageOf(domain, docs) == LineageOf(domain', docs') <==> domain == domain' && Contents(docs) == Contents(docs')
    decreases |docs|
  {
    if docs != [] && docs' != [] {
      var m, m' := |docs| - 1, |docs'| - 1;
      LineageDeterminesHistory(domain, docs[..m], domain', docs'[..m']);
      if LineageOf(domain, docs) == LineageOf(domain', docs') {
        assert Contents(docs) == Contents(docs[..m]) + [docs[m].content];
        assert Contents(docs') == Contents(docs'[..m']) + [docs'[m'].content];
      }
      if Contents(docs) == Contents(docs') {
        assert Contents(docs[..m]) == Contents(docs)[..m] && Contents(docs'[..m']) == Contents(docs')[..m'];
        assert docs[m].content == Contents(docs)[m] && docs'[m'].content == Contents(docs')[m'];
      }
    }
  }

  function Docs(history: seq<Version>): (r: seq<Doc>)
    ensures |r| == |history| && forall i :: 0 <= i < |history| ==> r[i] == history[i].head.doc
  {
    seq(|history|, i requires 0 <= i < |history| => history[i].head.doc)
  }

  /** The lineage digest a generation stores is that of the contents committed up to it. */
  lemma {:induction false} StoredLineage(domain: string, history: seq<Version>)
    requires WellLinked(domain, history) && history != []
    ensures history[|history| - 1].head.lineage == LineageOf(domain, Docs(history))
  {
    var n := |history|;
    assert VersionOk(domain, history, n - 1);
    var earlier := history[..n - 1];
    assert Docs(history)[..n - 1] == Docs(earlier);
    if n > 1 {
      forall i | 0 <= i < |earlier|
        ensures VersionOk(domain, earlier, i)
      {
        assert VersionOk(domain, history, i);
      }
      StoredLineage(domain, earlier);
    }
  }

  /** Two stores whose heads carry the same lineage digest have the same domain and content history. */
  lemma SameLineageSameHistory(c: Config, s: System, c': Config, s': System)
    requires SystemInv(c, s) && SystemInv(c', s')
    requires s.history[|s.history| - 1].head.lineage == s'.history[|s'.history| - 1].head.lineage
    ensures c.domain == c'.domain && Contents(Docs(s.history)) == Contents(Docs(s'.history))
  {
    StoredLineage(c.domain, s.history);
    StoredLineage(c'.domain, s'.history);
    LineageDeterminesHistory(c.domain, Docs(s.history), c'.domain, Docs(s'.history));
  }

  /** Each retained record names its predecessor by number, content and head digest, and epochs never fall. */
  lemma RetainedChain(c: Config, s: System, name: FileName)
    requires SystemInv(c, s) && RecordPath(name) in s.disk && 1 < name.generation <= |s.history|
    ensures s.disk[RecordPath(name)].RecordData?
    ensures var record := s.disk[RecordPath(name)].record; var previous := s.history[name.generation - 2];
      && record.envelope.parent == Some(Parent(name.generation - 1, ContentHash(previous.record.envelope.doc.content), previous.record.head))
      && previous.record.envelope.epoch <= record.envelope.epoch
      && record.envelope.lineage == Next(previous.record.envelope.lineage, c.domain, name.generation, ContentHash(record.envelope.doc.content))
      && (forall other :: RecordPath(other) in s.disk && other.generation == name.generation - 1
            ==> s.disk[RecordPath(other)] == RecordData(previous.record))
  {
    assert VersionOk(c.domain, s.history, name.generation - 1);
    assert VersionOk(c.domain, s.history, name.generation - 2);
  }
}
