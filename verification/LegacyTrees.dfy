/**
 * Meaning preserved by schema upgrades: a current tree written in the spelling of an older minor version
 * (README.md, src/model_json.cpp:1530-1652) is read back as it was, apart from the mark.
 */
module LegacyTrees {
  import opened Ordering
  import opened Identities
  import opened JsonValues
  import opened JsonMembers
  import opened JsonEditing
  import opened Migration

  // ----- older spellings of one declaration ------------------------------------------

  /** A way of writing bit rates that is read back as the same rate. */
  ghost predicate Spells(spell: nat -> Json) { forall n: nat :: n < TWO_63 ==> SpeedOf(spell(n)) == Success(n) }

  ghost predicate SpeedIsCurrent(legacy: string, current: string, v: Json) {
    && SortedObject(v) && Find(v, legacy).None?
    && Find(v, current).Some? && Find(v, current).value.Int? && 0 <= Find(v, current).value.number < TWO_63
  }

  function Rate(v: Json, current: string): nat {
    if Find(v, current).Some? && Find(v, current).value.Int? && Find(v, current).value.number >= 0
    then Find(v, current).value.number else 0
  }

  function LegacySpeed(legacy: string, current: string, spell: nat -> Json, v: Json): Json {
    Set(Erase(v, current), legacy, spell(Rate(v, current)))
  }

  lemma SpeedReadBack(legacy: string, current: string, spell: nat -> Json, v: Json)
    requires legacy != current && Spells(spell) && SpeedIsCurrent(legacy, current, v)
    ensures SpeedToBits(legacy, current, LegacySpeed(legacy, current, spell, v)) == Success(v)
  {
    hide Find, Set, Erase, SpeedOf;
    var n := Rate(v, current);
    assert SpeedOf(spell(n)) == Success(n);
    MovedBack(v, current, legacy, spell(n));
    assert Stored(n) == Int(n);
  }

  ghost predicate NameIsCurrent(legacy: string, v: Json) { Find(v, legacy).None? && (v.Obj? ==> SortedObject(v)) }

  function LegacyName(legacy: string, current: string, v: Json): Json {
    if Find(v, current).Some? then Set(Erase(v, current), legacy, Find(v, current).value) else v
  }

  lemma NameReadBack(legacy: string, current: string, v: Json)
    requires legacy != current && NameIsCurrent(legacy, v)
    ensures RenameField(legacy, current, LegacyName(legacy, current, v)) == Success(v)
  {
    if Find(v, current).Some? {
      assert SortedObject(v);
      hide Find, Set, Erase;
      MovedBack(v, current, legacy, Find(v, current).value);
    }
  }

  /** A member that has its default value may be left out. */
  function Without(v: Json, key: string, value: Json): Json { if Find(v, key) == Some(value) then Erase(v, key) else v }

  lemma DefaultReadBack(v: Json, key: string, value: Json)
    requires SortedObject(v) && Find(v, key).Some?
    ensures SortedObject(Without(v, key, value)) && WithDefault(Without(v, key, value), key, value) == v
    ensures forall other :: other != key ==> Find(Without(v, key, value), other) == Find(v, other)
  {
    hide Find, Set, Erase, SortedObject;
    if Find(v, key) == Some(value) {
      EraseFinds(v, key, key);
      ErasedBack(v, key);
      forall other | other != key
        ensures Find(Erase(v, key), other) == Find(v, other)
      {
        EraseFinds(v, key, other);
      }
    }
  }

  /** A maintenance body of the current version has both the fields that have defaults. */
  ghost predicate PolicyIsCurrent(policy: Json) {
    IsMaintenance(policy) ==>
      var body := Find(policy, MAINTENANCE).value;
      SortedObject(policy) && SortedObject(body) && Find(body, HEADROOM).Some? && Find(body, GROUPS).Some?
  }

  function LegacyPolicy(policy: Json): Json {
    if !IsMaintenance(policy) then policy
    else Set(policy, MAINTENANCE, Without(Without(Find(policy, MAINTENANCE).value, GROUPS, Arr([])), HEADROOM, Bool(true)))
  }

  lemma PolicyReadBack(policy: Json)
    requires PolicyIsCurrent(policy)
    ensures AddDefaults(LegacyPolicy(policy)) == Success(policy)
  {
    hide Find, Set, SortedObject, Without, WithDefault;
    if IsMaintenance(policy) {
      var body := Find(policy, MAINTENANCE).value;
      var once := Without(body, GROUPS, Arr([]));
      var twice := Without(once, HEADROOM, Bool(true));
      DefaultReadBack(body, GROUPS, Arr([]));
      DefaultReadBack(once, HEADROOM, Bool(true));
      SortedIsObject(twice);
      SetFinds(policy, MAINTENANCE, twice, "kind");
      SetFinds(policy, MAINTENANCE, twice, MAINTENANCE);
      SetBack(policy, MAINTENANCE, twice);
    }
  }

  // ----- older spellings of a collection --------------------------------------------------

  function MapAll(g: Json -> Json, items: seq<Json>): (r: seq<Json>)
    ensures |r| == |items| && forall i :: 0 <= i < |r| ==> r[i] == g(items[i])
  {
    seq(|items|, i requires 0 <= i < |items| => g(items[i]))
  }

  function LegacyArray(v: Json, key: string, g: Json -> Json): Json {
    if Find(v, key).Some? && Find(v, key).value.Arr? then Set(v, key, Arr(MapAll(g, Find(v, key).value.items))) else v
  }

  /** The array under a key, if there is one, is an array, and every element is read back from its older spelling. */
  ghost predicate ReadsBack(v: Json, key: string, f: Json -> Outcome<Json>, g: Json -> Json) {
    Find(v, key).Some? ==> Find(v, key).value.Arr? && forall x :: x in Find(v, key).value.items ==> f(g(x)) == Success(x)
  }

  lemma {:induction false} AllReadBack(f: Json -> Outcome<Json>, g: Json -> Json, items: seq<Json>)
    requires forall x :: x in items ==> f(g(x)) == Success(x)
    ensures EditAll(f, MapAll(g, items)) == Success(items)
  {
    if items != [] {
      assert items == [items[0]] + items[1..];
      AllReadBack(f, g, items[1..]);
      assert MapAll(g, items)[1..] == MapAll(g, items[1..]);
    }
  }

  lemma ArrayReadBack(v: Json, key: string, f: Json -> Outcome<Json>, g: Json -> Json)
    requires SortedObject(v) && ReadsBack(v, key, f, g)
    ensures EditArray(LegacyArray(v, key, g), key, f) == Success(v)
  {
    hide Find, Set, SortedObject, EditAll;
    if Find(v, key).Some? {
      var items := Find(v, key).value.items;
      AllReadBack(f, g, items);
      SetFinds(v, key, Arr(MapAll(g, items)), key);
      SetBack(v, key, Arr(MapAll(g, items)));
    }
  }

  lemma LegacyArrayKeeps(v: Json, key: string, g: Json -> Json, other: string)
    requires SortedObject(v)
    ensures SortedObject(LegacyArray(v, key, g))
    ensures other != key ==> Find(LegacyArray(v, key, g), other) == Find(v, other)
  {
    hide Find, Set, SortedObject, MapAll;
    if Find(v, key).Some? && Find(v, key).value.Arr? {
      SetFinds(v, key, Arr(MapAll(g, Find(v, key).value.items)), other);
    }
  }

  // ----- older spellings of a tree -----------------------------------------------------------

  function LegacyPort(spell: nat -> Json): Json -> Json { v => LegacySpeed("speed", "speed_bps", spell, v) }
  function LegacyLink(spell: nat -> Json): Json -> Json { v => LegacySpeed("bandwidth", "capacity_bps", spell, v) }
  function LegacyDevice(v: Json): Json { LegacyName("port_count", "declared_port_count", v) }
  function LegacyEntry(v: Json): Json { LegacyName("ports", "port_count", v) }

  function LegacyTopology10(topology: Json, spell: nat -> Json): Json {
    LegacyArray(LegacyArray(topology, "links", LegacyLink(spell)), "ports", LegacyPort(spell))
  }

  function Legacy10(t: Json, spell: nat -> Json): Json {
    if Find(t, "topology").Some? then Set(t, "topology", LegacyTopology10(Find(t, "topology").value, spell)) else t
  }

  function Legacy11(t: Json): Json { LegacyArray(t, "policies", LegacyPolicy) }

  function Legacy12(t: Json): Json {
    var x := LegacyArray(t, "capability_catalog", LegacyEntry);
    if Find(x, "topology").Some? then Set(x, "topology", LegacyArray(Find(x, "topology").value, "devices", LegacyDevice)) else x
  }

  ghost predicate HasTopology(t: Json) { SortedObject(t) && Find(t, "topology").Some? && SortedObject(Find(t, "topology").value) }

  ghost predicate Elements(v: Json, key: string, p: Json -> bool) {
    Find(v, key).Some? ==> Find(v, key).value.Arr? && forall x :: x in Find(v, key).value.items ==> p(x)
  }

  ghost predicate SpeedsAreCurrent(t: Json) {
    && HasTopology(t)
    && var topology := Find(t, "topology").value;
    && Elements(topology, "ports", v => SpeedIsCurrent("speed", "speed_bps", v))
    && Elements(topology, "links", v => SpeedIsCurrent("bandwidth", "capacity_bps", v))
  }

  ghost predicate PoliciesAreCurrent(t: Json) { SortedObject(t) && Elements(t, "policies", v => PolicyIsCurrent(v)) }

  ghost predicate CountsAreCurrent(t: Json) {
    && HasTopology(t)
    && Elements(Find(t, "topology").value, "devices", v => NameIsCurrent("port_count", v))
    && Elements(t, "capability_catalog", v => NameIsCurrent("ports", v))
  }

  lemma ReadBack10(t: Json, spell: nat -> Json)
    requires Spells(spell) && SpeedsAreCurrent(t)
    ensures From10(Legacy10(t, spell)) == Success(t)
  {
    hide Find, Set, SortedObject, EditArray, LegacyArray, SpeedToBits, LegacySpeed, Spells, SpeedIsCurrent;
    var topology := Find(t, "topology").value;
    var x := LegacyArray(topology, "links", LegacyLink(spell));
    var y := LegacyArray(x, "ports", LegacyPort(spell));
    LegacyArrayKeeps(topology, "links", LegacyLink(spell), "ports");
    PortsReadBack(x, spell);
    LinksReadBack(topology, spell);
    ArrayReadBack(x, "ports", PortToBits, LegacyPort(spell));
    ArrayReadBack(topology, "links", LinkToBits, LegacyLink(spell));
    SetFinds(t, "topology", y, "topology");
    SetBack(t, "topology", y);
  }

  lemma PortsReadBack(topology: Json, spell: nat -> Json)
    requires Spells(spell) && Elements(topology, "ports", v => SpeedIsCurrent("speed", "speed_bps", v))
    ensures ReadsBack(topology, "ports", PortToBits, LegacyPort(spell))
  {
    hide Find, SpeedToBits, LegacySpeed, Spells, SpeedIsCurrent;
    if Find(topology, "ports").Some? {
      forall v | v in Find(topology, "ports").value.items
        ensures PortToBits(LegacyPort(spell)(v)) == Success(v)
      {
        SpeedReadBack("speed", "speed_bps", spell, v);
      }
    }
  }

  lemma LinksReadBack(topology: Json, spell: nat -> Json)
    requires Spells(spell) && Elements(topology, "links", v => SpeedIsCurrent("bandwidth", "capacity_bps", v))
    ensures ReadsBack(topology, "links", LinkToBits, LegacyLink(spell))
  {
    hide Find, SpeedToBits, LegacySpeed, Spells, SpeedIsCurrent;
    if Find(topology, "links").Some? {
      forall v | v in Find(topology, "links").value.items
        ensures LinkToBits(LegacyLink(spell)(v)) == Success(v)
      {
        SpeedReadBack("bandwidth", "capacity_bps", spell, v);
      }
    }
  }

  lemma ReadBack11(t: Json)
    requires PoliciesAreCurrent(t)
    ensures From11(Legacy11(t)) == Success(t)
  {
    hide Find, SortedObject, AddDefaults, LegacyPolicy, PolicyIsCurrent;
    if Find(t, "policies").Some? {
      forall v | v in Find(t, "policies").value.items
        ensures AddDefaults(LegacyPolicy(v)) == Success(v)
      {
        PolicyReadBack(v);
      }
    }
    ArrayReadBack(t, "policies", AddDefaults, LegacyPolicy);
  }

  lemma ReadBack12(t: Json)
    requires CountsAreCurrent(t)
    ensures From12(Legacy12(t)) == Success(t)
  {
    hide Find, Set, SortedObject, EditArray, LegacyArray, NameIsCurrent, RenameField, LegacyName;
    var topology := Find(t, "topology").value;
    var x := LegacyArray(t, "capability_catalog", LegacyEntry);
    LegacyArrayKeeps(t, "capability_catalog", LegacyEntry, "topology");
    DevicesReadBack(topology);
    EntriesReadBack(t);
    ArrayReadBack(topology, "devices", RenameDevice, LegacyDevice);
    ArrayReadBack(t, "capability_catalog", RenameEntry, LegacyEntry);
    var written := LegacyArray(topology, "devices", LegacyDevice);
    SetFinds(x, "topology", written, "topology");
    SetBack(x, "topology", written);
  }

  lemma DevicesReadBack(topology: Json)
    requires Elements(topology, "devices", v => NameIsCurrent("port_count", v))
    ensures ReadsBack(topology, "devices", RenameDevice, LegacyDevice)
  {
    hide Find, RenameField, LegacyName, NameIsCurrent;
    if Find(topology, "devices").Some? {
      forall v | v in Find(topology, "devices").value.items
        ensures RenameDevice(LegacyDevice(v)) == Success(v)
      {
        NameReadBack("port_count", "declared_port_count", v);
      }
    }
  }

  lemma EntriesReadBack(t: Json)
    requires Elements(t, "capability_catalog", v => NameIsCurrent("ports", v))
    ensures ReadsBack(t, "capability_catalog", RenameEntry, LegacyEntry)
  {
    hide Find, RenameField, LegacyName, NameIsCurrent;
    if Find(t, "capability_catalog").Some? {
      forall v | v in Find(t, "capability_catalog").value.items
        ensures RenameEntry(LegacyEntry(v)) == Success(v)
      {
        NameReadBack("ports", "port_count", v);
      }
    }
  }

  // ----- the older spellings keep apart ---------------------------------------------------------

  lemma Legacy12Keeps(t: Json)
    requires HasTopology(t)
    ensures SortedObject(Legacy12(t)) && Find(Legacy12(t), "schema") == Find(t, "schema")
    ensures Find(Legacy12(t), "policies") == Find(t, "policies")
    ensures HasTopology(Legacy12(t))
    ensures var a, b := Find(t, "topology").value, Find(Legacy12(t), "topology").value;
      Find(b, "ports") == Find(a, "ports") && Find(b, "links") == Find(a, "links")
  {
    hide Find, Set, SortedObject, LegacyArray;
    var topology := Find(t, "topology").value;
    var x := LegacyArray(t, "capability_catalog", LegacyEntry);
    var written := LegacyArray(topology, "devices", LegacyDevice);
    LegacyArrayKeeps(t, "capability_catalog", LegacyEntry, "topology");
    LegacyArrayKeeps(t, "capability_catalog", LegacyEntry, "schema");
    LegacyArrayKeeps(t, "capability_catalog", LegacyEntry, "policies");
    LegacyArrayKeeps(topology, "devices", LegacyDevice, "ports");
    LegacyArrayKeeps(topology, "devices", LegacyDevice, "links");
    SetFinds(x, "topology", written, "topology");
    SetFinds(x, "topology", written, "schema");
    SetFinds(x, "topology", written, "policies");
  }

  lemma Legacy11Keeps(t: Json, key: string)
    requires SortedObject(t) && key != "policies"
    ensures SortedObject(Legacy11(t)) && Find(Legacy11(t), key) == Find(t, key)
  {
    hide Find, SortedObject, LegacyArray;
    LegacyArrayKeeps(t, "policies", LegacyPolicy, key);
  }

  lemma Legacy10Keeps(t: Json, spell: nat -> Json, key: string)
    requires SortedObject(t) && key != "topology"
    ensures SortedObject(Legacy10(t, spell)) && Find(Legacy10(t, spell), key) == Find(t, key)
  {
    hide Find, Set, SortedObject, LegacyArray;
    if Find(t, "topology").Some? {
      SetFinds(t, "topology", LegacyTopology10(Find(t, "topology").value, spell), key);
    }
  }

  // ----- a whole tree in an older spelling ---------------------------------------------------------

  /** A tree of the current schema, with the fields that the steps touch in their current spelling. */
  ghost predicate Current(t: Json) {
    && SpeedsAreCurrent(t) && PoliciesAreCurrent(t) && CountsAreCurrent(t)
    && VersionOf(t) == Success(SUPPORTED_MINOR) && SortedObject(Find(t, "schema").value)
  }

  /** The same tree with another minor version in its schema. */
  function AtMinor(t: Json, minor: nat): Json {
    if Find(t, "schema").Some? then Set(t, "schema", Set(Find(t, "schema").value, "minor", Int(minor))) else t
  }

  /** The tree as minor version minor spells it. */
  function Legacy(t: Json, minor: nat, spell: nat -> Json): Json {
    var t3 := AtMinor(t, minor);
    var t2 := Legacy12(t3);
    var t1 := if minor <= 1 then Legacy11(t2) else t2;
    if minor == 0 then Legacy10(t1, spell) else t1
  }

  lemma AtMinorIsCurrent(t: Json, minor: nat)
    requires Current(t) && minor <= SUPPORTED_MINOR
    ensures var u := AtMinor(t, minor);
      SpeedsAreCurrent(u) && PoliciesAreCurrent(u) && CountsAreCurrent(u) && VersionOf(u) == Success(minor)
  {
    hide Find, Set, SortedObject, SpeedIsCurrent, PolicyIsCurrent, NameIsCurrent;
    var schema := Find(t, "schema").value;
    var changed := Set(schema, "minor", Int(minor));
    SetFinds(schema, "minor", Int(minor), "minor");
    SetFinds(schema, "minor", Int(minor), "name");
    SetFinds(schema, "minor", Int(minor), "major");
    SortedIsObject(changed);
    SetFinds(t, "schema", changed, "schema");
    SetFinds(t, "schema", changed, "topology");
    SetFinds(t, "schema", changed, "policies");
    SetFinds(t, "schema", changed, "capability_catalog");
  }

  /** The steps from a minor version undo its spelling, one step for each version. */
  lemma StepsReadBack(t: Json, minor: nat, spell: nat -> Json)
    requires minor < SUPPORTED_MINOR && Spells(spell)
    requires SpeedsAreCurrent(t) && PoliciesAreCurrent(t) && CountsAreCurrent(t)
    ensures var t2 := Legacy12(t);
      var t1 := if minor <= 1 then Legacy11(t2) else t2;
      var t0 := if minor == 0 then Legacy10(t1, spell) else t1;
      && Steps(t0, minor) == Success((t, SUPPORTED_MINOR - minor))
      && t0.Obj? && Find(t0, "schema") == Find(t, "schema")
  {
    hide Find, SortedObject, Legacy10, Legacy11, Legacy12, From10, From11, From12, SpeedIsCurrent, PolicyIsCurrent, NameIsCurrent, Spells;
    var t2 := Legacy12(t);
    Legacy12Keeps(t);
    ReadBack12(t);
    SortedIsObject(t2);
    assert Steps(t, 3) == Success((t, 0));
    assert Steps(t2, 2) == Success((t, 1));
    if minor <= 1 {
      var t1 := Legacy11(t2);
      ReadBack11(t2);
      Legacy11Keeps(t2, "schema");
      Legacy11Keeps(t2, "topology");
      SortedIsObject(t1);
      assert Steps(t1, 1) == Success((t, 2));
      if minor == 0 {
        ReadBack10(t1, spell);
        Legacy10Keeps(t1, spell, "schema");
        SortedIsObject(Legacy10(t1, spell));
      }
    }
  }

  lemma MarkedBack(t: Json, minor: nat)
    requires Current(t) && minor < SUPPORTED_MINOR
    ensures var u := AtMinor(t, minor);
      && Find(u, "schema").Some?
      && Set(u, "schema", MarkedSchema(Find(u, "schema").value, minor))
         == Set(t, "schema", Set(Find(t, "schema").value, "upgraded_from", Str(VersionText(minor))))
  {
    hide Find, Set, SortedObject, SpeedIsCurrent, PolicyIsCurrent, NameIsCurrent, VersionText;
    var schema := Find(t, "schema").value;
    var changed := Set(schema, "minor", Int(minor));
    SetFinds(schema, "minor", Int(minor), "minor");
    SetBack(schema, "minor", Int(minor));
    SetFinds(t, "schema", changed, "schema");
    assert Find(schema, "minor") == Some(Int(SUPPORTED_MINOR));
    SetTwice(t, "schema", changed, MarkedSchema(changed, minor));
  }

  /**
   * A tree of the current schema, written as an older minor version spells it, is upgraded to the same
   * tree with the mark, in one step for each version between.
   */
  lemma UpgradeReadsLegacy(t: Json, minor: nat, spell: nat -> Json)
    requires Current(t) && minor < SUPPORTED_MINOR && Spells(spell)
    ensures Upgrade(Legacy(t, minor, spell))
         == Success((Set(t, "schema", Set(Find(t, "schema").value, "upgraded_from", Str(VersionText(minor)))), SUPPORTED_MINOR - minor))
  {
    hide Find, Set, SortedObject, Legacy10, Legacy11, Legacy12, MarkedSchema, VersionText, Spells, Steps, SpeedsAreCurrent, PoliciesAreCurrent, CountsAreCurrent;
    var u := AtMinor(t, minor);
    AtMinorIsCurrent(t, minor);
    StepsReadBack(u, minor, spell);
    MarkedBack(t, minor);
    var l := Legacy(t, minor, spell);
    SameVersion(u, l);
  }

  lemma SameVersion(t: Json, u: Json)
    requires Find(u, "schema") == Find(t, "schema")
    ensures VersionOf(u) == VersionOf(t)
  {
    hide Find;
  }

  /** Bit rates written as plain numbers are one such way of writing. */
  lemma NumbersSpell()
    ensures Spells(n => Int(n))
  {
  }

  // ----- where the steps differ --------------------------------------------------------------------

  /** With both spellings present the legacy speed wins, where a renamed field would be refused. */
  lemma BothSpellings(v: Json, bits: nat)
    requires SortedObject(v) && Find(v, "speed") == Some(Int(bits)) && Find(v, "speed_bps").Some? && bits < TWO_63
    ensures PortToBits(v).Success? && Find(PortToBits(v).value, "speed_bps") == Some(Int(bits))
    ensures Find(PortToBits(v).value, "speed").None?
  {
    hide Find, Set, Erase, SortedObject;
    EraseFinds(v, "speed", "speed");
    SetFinds(Erase(v, "speed"), "speed_bps", Stored(bits), "speed_bps");
    SetFinds(Erase(v, "speed"), "speed_bps", Stored(bits), "speed");
  }

  lemma BothNames(v: Json)
    requires Find(v, "port_count").Some? && Find(v, "declared_port_count").Some?
    ensures RenameDevice(v) == Failure(AmbiguousSemantics)
  {
  }
}
