/**
 * What the integrity walk finds on any disk at all, told from its record files (src/store.cpp:1048-1113).
 * A generation that several readable records claim stands beside its neighbours in no fixed way, so the
 * links are judged between generations that one record alone claims.
 */
module Verification {
  import opened Identities
  import opened Ordering
  import opened Disk
  import opened Store
  import opened StoreEffects

  /** The file holds a readable record of the generation. */
  predicate Claims(d: Disk, domain: string, name: FileName, generation: nat) {
    Sound(d, name, domain) && d[RecordPath(name)].record.generation == generation
  }

  /** It is the only readable record of its generation. */
  ghost predicate Alone(d: Disk, domain: string, name: FileName) {
    && Sound(d, name, domain)
    && forall other :: Claims(d, domain, other, d[RecordPath(name)].record.generation) ==> other == name
  }

  /** The first readable record of a generation in directory order. */
  ghost predicate FirstClaim(d: Disk, domain: string, name: FileName, generation: nat) {
    Claims(d, domain, name, generation) && forall other :: Claims(d, domain, other, generation) ==> NameLe(name, other)
  }

  /** The second record names the first as its parent, by number and content. */
  predicate NamesParent(d: Disk, a: FileName, b: FileName)
    requires RecordPath(a) in d && d[RecordPath(a)].RecordData? && RecordPath(b) in d && d[RecordPath(b)].RecordData?
  {
    var previous, next := d[RecordPath(a)].record, d[RecordPath(b)].record;
    next.envelope.parent.Some?
    && next.envelope.parent.value.generation == previous.generation
    && next.envelope.parent.value.content == ContentHash(previous.envelope.doc.content)
  }

  /** The head's generation is first claimed by a record with the head's digest. */
  ghost predicate HeadPresent(d: Disk, domain: string, head: HeadPointer) {
    exists name :: FirstClaim(d, domain, name, head.generation) && d[RecordPath(name)].record.head == HeadHash(head)
  }

  /** Records of consecutive generations, each alone in its own, that do not fit. */
  ghost predicate BrokenLink(d: Disk, domain: string, a: FileName, b: FileName) {
    && Alone(d, domain, a) && Alone(d, domain, b)
    && d[RecordPath(b)].record.generation == d[RecordPath(a)].record.generation + 1
    && !NamesParent(d, a, b)
  }

  // ----- the records of one generation ---------------------------------------------------------------

  function OfGeneration(g: nat): RecordFile -> bool { (r: RecordFile) => r.generation == g }

  lemma {:induction false} SelectMore<T>(p: T -> bool, s: seq<T>, x: T)
    ensures Select(p, s + [x]) == Select(p, s) + (if p(x) then [x] else [])
  {
    if s == [] {
      assert s + [x] == [x];
      SelectOne(p, x);
    } else {
      assert (s + [x])[1..] == s[1..] + [x];
      SelectMore(p, s[1..], x);
    }
  }

  lemma {:induction false} SelectMembers<T>(p: T -> bool, s: seq<T>)
    ensures forall x :: x in Select(p, s) <==> x in s && p(x)
  {
    if s != [] {
      SelectMembers(p, s[1..]);
      assert s == [s[0]] + s[1..];
    }
  }

  lemma NoneSelected<T>(p: T -> bool, s: seq<T>)
    requires Select(p, s) == []
    ensures forall i :: 0 <= i < |s| ==> !p(s[i])
  {
    SelectMembers(p, s);
    assert forall i :: 0 <= i < |s| ==> s[i] in s;
  }

  /** An element selected alone stands at one place. */
  lemma {:induction false} SelectAlone<T>(p: T -> bool, s: seq<T>, x: T) returns (k: nat)
    requires Select(p, s) == [x]
    ensures k < |s| && s[k] == x && forall i :: 0 <= i < |s| && p(s[i]) ==> i == k
  {
    if p(s[0]) {
      k := 0;
      assert Select(p, s) == [s[0]] + Select(p, s[1..]) && Select(p, s)[0] == s[0];
      NoneSelected(p, s[1..]);
      assert forall i :: 0 < i < |s| ==> s[i] == s[1..][i - 1];
    } else {
      var m := SelectAlone(p, s[1..], x);
      k := m + 1;
      forall i | 0 <= i < |s| && p(s[i])
        ensures i == k
      {
        assert s[1..][i - 1] == s[i];
      }
    }
  }

  /** One more name: its record joins those of its generation, if it has one. */
  lemma OneMoreName(d: Disk, names: seq<FileName>, domain: string, g: nat)
    requires names != []
    ensures var m := |names| - 1;
      Select(OfGeneration(g), ReadAll(d, names, domain))
      == Select(OfGeneration(g), ReadAll(d, names[..m], domain))
         + (if Claims(d, domain, names[m], g) then [d[RecordPath(names[m])].record] else [])
  {
    hide Readable, Select;
    var m := |names| - 1;
    SoundIff(d, names[m], domain);
    if Sound(d, names[m], domain) {
      SelectMore(OfGeneration(g), ReadAll(d, names[..m], domain), d[RecordPath(names[m])].record);
    }
  }

  /** The walk's records of one generation: none without a claim, and first the record of the first claim. */
  lemma {:induction false} RecordsOf(d: Disk, names: seq<FileName>, domain: string, g: nat)
    ensures var s := Select(OfGeneration(g), ReadAll(d, names, domain));
      && (s == [] <==> forall i :: 0 <= i < |names| ==> !Claims(d, domain, names[i], g))
      && (s != [] ==> exists k :: 0 <= k < |names| && Claims(d, domain, names[k], g) && s[0] == d[RecordPath(names[k])].record
                                  && forall i :: 0 <= i < k ==> !Claims(d, domain, names[i], g))
      && (|s| > 1 ==> exists i, j :: 0 <= i < j < |names| && Claims(d, domain, names[i], g) && Claims(d, domain, names[j], g))
  {
    hide Readable, ReadAll, Select;
    if names != [] {
      OneMoreName(d, names, domain, g);
      RecordsOf(d, names[..|names| - 1], domain, g);
    } else {
      NothingRead(d, domain, g);
    }
  }

  lemma NothingRead(d: Disk, domain: string, g: nat)
    ensures Select(OfGeneration(g), ReadAll(d, [], domain)) == []
  {
  }

  /** The records of the walk, in its order. */
  ghost function Walked(d: Disk, domain: string): seq<RecordFile> {
    Sort(GenerationLe, ReadAll(d, Listing(RecordNames(d)), domain))
  }

  lemma WalkedSorted(d: Disk, domain: string)
    ensures Sorted(GenerationLe, Walked(d, domain))
  {
    SortSorts(GenerationLe, ReadAll(d, Listing(RecordNames(d)), domain));
  }

  lemma ClaimListed(d: Disk, domain: string, name: FileName, g: nat)
    requires Claims(d, domain, name, g)
    ensures exists i :: 0 <= i < |Listing(RecordNames(d))| && Listing(RecordNames(d))[i] == name
  {
    hide Readable;
    ListingMembers(RecordNames(d));
    assert name in RecordNames(d);
    assert name in Listing(RecordNames(d));
  }

  lemma ListedFirst(d: Disk, domain: string, g: nat, k: nat)
    requires k < |Listing(RecordNames(d))| && Claims(d, domain, Listing(RecordNames(d))[k], g)
    requires forall i :: 0 <= i < k ==> !Claims(d, domain, Listing(RecordNames(d))[i], g)
    ensures FirstClaim(d, domain, Listing(RecordNames(d))[k], g)
  {
    hide Sound, NameLe, Listing;
    var names := Listing(RecordNames(d));
    ListingMembers(RecordNames(d));
    forall other | Claims(d, domain, other, g)
      ensures NameLe(names[k], other)
    {
      ClaimListed(d, domain, other, g);
      var i :| 0 <= i < |names| && names[i] == other;
      NameLeSelf(other);
    }
  }

  /** The walk meets the records of one generation as a plain look at the directory does. */
  lemma WalkedOf(d: Disk, domain: string, g: nat)
    ensures var s := Select(OfGeneration(g), Walked(d, domain));
      && (s == [] <==> forall name :: !Claims(d, domain, name, g))
      && (s != [] ==> exists name :: FirstClaim(d, domain, name, g) && s[0] == d[RecordPath(name)].record)
      && (|s| > 1 ==> exists a, b :: a != b && Claims(d, domain, a, g) && Claims(d, domain, b, g))
  {
    hide Readable, ReadAll, Sort, NameLe, Listing, Select, FirstClaim;
    var names := Listing(RecordNames(d));
    SortSelects(GenerationLe, OfGeneration(g), ReadAll(d, names, domain));
    RecordsOf(d, names, domain, g);
    var s := Select(OfGeneration(g), ReadAll(d, names, domain));
    if name :| Claims(d, domain, name, g) {
      ClaimListed(d, domain, name, g);
    }
    if s != [] {
      var k :| 0 <= k < |names| && Claims(d, domain, names[k], g) && s[0] == d[RecordPath(names[k])].record
               && forall i :: 0 <= i < k ==> !Claims(d, domain, names[i], g);
      ListedFirst(d, domain, g, k);
    }
    if |s| > 1 {
      var i, j :| 0 <= i < j < |names| && Claims(d, domain, names[i], g) && Claims(d, domain, names[j], g);
      ListingMembers(RecordNames(d));
      assert names[i] != names[j];
    }
  }

  lemma NameLeSelf(name: FileName)
    ensures NameLe(name, name)
  {
  }

  /** A record alone in its generation stands at one place of the walk. */
  lemma AloneAt(d: Disk, domain: string, name: FileName) returns (k: nat)
    requires Alone(d, domain, name)
    ensures var w := Walked(d, domain); var r := d[RecordPath(name)].record;
      k < |w| && w[k] == r && forall i :: 0 <= i < |w| && w[i].generation == r.generation ==> i == k
  {
    var r := d[RecordPath(name)].record;
    var p := OfGeneration(r.generation);
    assert Claims(d, domain, name, r.generation);
    WalkedOf(d, domain, r.generation);
    hide Sound, Walked;
    var s := Select(p, Walked(d, domain));
    assert |s| == 1;
    assert s[0] == r;
    k := SelectAlone(p, Walked(d, domain), r);
    assert forall i :: 0 <= i < |Walked(d, domain)| ==> (p(Walked(d, domain)[i]) <==> Walked(d, domain)[i].generation == r.generation);
  }

  lemma GenerationsRise(w: seq<RecordFile>)
    requires Sorted(GenerationLe, w)
    ensures forall i, j :: 0 <= i <= j < |w| ==> w[i].generation <= w[j].generation
  {
    assert forall i, j :: 0 <= i < j < |w| ==> GenerationLe(w[i], w[j]);
  }

  /** Alone in consecutive generations, they are neighbours in the walk. */
  lemma Neighbours(d: Disk, domain: string, a: FileName, b: FileName) returns (k: nat)
    requires Alone(d, domain, a) && Alone(d, domain, b)
    requires d[RecordPath(b)].record.generation == d[RecordPath(a)].record.generation + 1
    ensures var w := Walked(d, domain); 0 < k < |w| && w[k - 1] == d[RecordPath(a)].record && w[k] == d[RecordPath(b)].record
  {
    var w := Walked(d, domain);
    var i := AloneAt(d, domain, a);
    k := AloneAt(d, domain, b);
    WalkedSorted(d, domain);
    hide Alone, Walked;
    GenerationsRise(w);
    var j := i + 1;
    assert w[i].generation <= w[j].generation <= w[k].generation;
  }

  /** The walk finds the head's record by the first claim of its generation. */
  lemma {:induction false} FoundIsFirst(records: seq<RecordFile>, head: HeadPointer)
    ensures var s := Select(OfGeneration(head.generation), records);
      HeadFound(records, head) <==> s != [] && s[0].head == HeadHash(head)
  {
    if records != [] {
      FoundIsFirst(records[1..], head);
    }
  }

  lemma HeadFoundIff(d: Disk, domain: string, head: HeadPointer)
    ensures HeadFound(Walked(d, domain), head) <==> HeadPresent(d, domain, head)
  {
    var s := Select(OfGeneration(head.generation), Walked(d, domain));
    FoundIsFirst(Walked(d, domain), head);
    WalkedOf(d, domain, head.generation);
    hide Readable, Walked, HeadFound;
    if s != [] {
      var name :| FirstClaim(d, domain, name, head.generation) && s[0] == d[RecordPath(name)].record;
      forall other | FirstClaim(d, domain, other, head.generation)
        ensures other == name
      {
        assert NameLe(name, other) && NameLe(other, name);
      }
    }
  }

  lemma AllReadIff(d: Disk, domain: string)
    ensures var names := Listing(RecordNames(d));
      (forall i :: 0 <= i < |names| ==> ReadRecord(d, names[i], domain).Some?)
      <==> forall name :: RecordPath(name) in d ==> Sound(d, name, domain)
  {
    var names := Listing(RecordNames(d));
    ListingMembers(RecordNames(d));
    hide Readable, Listing;
    forall name
      ensures ReadRecord(d, name, domain).Some? <==> Sound(d, name, domain)
    {
      SoundIff(d, name, domain);
    }
    if forall i :: 0 <= i < |names| ==> ReadRecord(d, names[i], domain).Some? {
      forall name | RecordPath(name) in d
        ensures Sound(d, name, domain)
      {
        assert name in names;
      }
    }
  }

  /** A link that does not fit between records alone in their generations is a problem. */
  lemma BrokenIsFound(d: Disk, m: Memory, a: FileName, b: FileName)
    requires BrokenLink(d, m.domain, a, b)
    ensures !Verified(d, m)
  {
    hide Readable;
    var k := Neighbours(d, m.domain, a, b);
    assert !Linked(Walked(d, m.domain)[k - 1], Walked(d, m.domain)[k]) by { hide Walked; LinkIs(d, m.domain, a, b); }
  }

  lemma LinkIs(d: Disk, domain: string, a: FileName, b: FileName)
    requires Sound(d, a, domain) && Sound(d, b, domain)
    requires d[RecordPath(b)].record.generation == d[RecordPath(a)].record.generation + 1
    ensures Linked(d[RecordPath(a)].record, d[RecordPath(b)].record) <==> NamesParent(d, a, b)
  {
  }

  /** With every generation claimed once, the walk's neighbours fit when all consecutive records do. */
  lemma AllLinked(d: Disk, domain: string)
    requires forall name :: Sound(d, name, domain) ==> Alone(d, domain, name)
    requires forall a, b :: !BrokenLink(d, domain, a, b)
    ensures InChain(Walked(d, domain))
  {
    var w := Walked(d, domain);
    forall i | 0 < i < |w|
      ensures Linked(w[i - 1], w[i])
    {
      hide Readable, Walked;
      if w[i].generation == w[i - 1].generation + 1 {
        var a := ClaimOf(d, domain, i - 1);
        var b := ClaimOf(d, domain, i);
        assert !BrokenLink(d, domain, a, b);
        LinkIs(d, domain, a, b);
      }
    }
  }

  /** Every record of the walk is that of a file. */
  lemma ClaimOf(d: Disk, domain: string, i: nat) returns (name: FileName)
    requires i < |Walked(d, domain)|
    requires forall name :: Sound(d, name, domain) ==> Alone(d, domain, name)
    ensures Sound(d, name, domain) && d[RecordPath(name)].record == Walked(d, domain)[i]
  {
    hide Readable, Walked;
    var w := Walked(d, domain);
    var g := w[i].generation;
    WalkedOf(d, domain, g);
    SelectMembers(OfGeneration(g), w);
    var s := Select(OfGeneration(g), w);
    assert w[i] in s;
    name :| FirstClaim(d, domain, name, g) && s[0] == d[RecordPath(name)].record;
    assert |s| == 1;
    assert s[0] == w[i];
  }

  // ----- what is found ----------------------------------------------------------------------------------

  /** Every file holds a readable record, the links hold, and the head is present. */
  ghost predicate Intact(d: Disk, m: Memory) {
    && (forall name :: RecordPath(name) in d ==> Sound(d, name, m.domain))
    && (forall a, b :: !BrokenLink(d, m.domain, a, b))
    && (m.head.Some? ==> HeadPresent(d, m.domain, m.head.value))
  }

  lemma VerifiedParts(d: Disk, m: Memory)
    ensures Verified(d, m) <==>
      && (forall name :: RecordPath(name) in d ==> Sound(d, name, m.domain))
      && InChain(Walked(d, m.domain))
      && (m.head.Some? ==> HeadPresent(d, m.domain, m.head.value))
  {
    hide Sound, Listing, Sort, ReadAll, ReadRecord, InChain, HeadFound, HeadPresent;
    AllReadIff(d, m.domain);
    if m.head.Some? {
      HeadFoundIff(d, m.domain, m.head.value);
    }
  }

  lemma VerifiedIsIntact(d: Disk, m: Memory)
    ensures Verified(d, m) ==> Intact(d, m)
    ensures (forall name :: Sound(d, name, m.domain) ==> Alone(d, m.domain, name)) && Intact(d, m) ==> Verified(d, m)
  {
    hide Sound, Alone, BrokenLink, Verified, Walked, InChain, HeadPresent;
    VerifiedParts(d, m);
    forall a, b | BrokenLink(d, m.domain, a, b)
      ensures !Verified(d, m)
    {
      BrokenIsFound(d, m, a, b);
    }
    if (forall name :: Sound(d, name, m.domain) ==> Alone(d, m.domain, name)) && Intact(d, m) {
      AllLinked(d, m.domain);
    }
  }

  /** Main result. On any disk, damage is found; and where no generation is claimed twice, nothing else is. */
  method VerifyFinds(store: IntentStore) returns (problems: nat)
    ensures problems == 0 ==> Intact(store.fs.disk, store.Snapshot())
    ensures (forall name :: Sound(store.fs.disk, name, store.domain) ==> Alone(store.fs.disk, store.domain, name))
      ==> (problems == 0 <==> Intact(store.fs.disk, store.Snapshot()))
  {
    hide Verified, Intact, Sound, Alone;
    problems := store.VerifyAll();
    VerifiedIsIntact(store.fs.disk, store.Snapshot());
  }
}
