/**
 * Which trees are upgraded and how the result is marked, told from their members alone
 * (src/model_json.cpp:1494-1652, 1870-1947).
 */
module Upgrades {
  import opened Identities
  import opened JsonValues
  import opened JsonEditing
  import opened Migration
  import opened Speeds

  // ----- the version ------------------------------------------------------------------------------

  /** The tree declares version 1.minor of the schema, and that is supported. */
  predicate Declares(tree: Json, minor: nat) {
    match Find(tree, "schema")
    case None => false
    case Some(schema) =>
      && schema.Obj? && Find(schema, "name") == Some(Str("ifabric.intent"))
      && Find(schema, "major") == Some(Int(1)) && Find(schema, "minor") == Some(Int(minor)) && minor <= 3
  }

  /** A well-formed version of the schema, whether supported or not. */
  predicate Names(tree: Json, major: nat, minor: nat) {
    match Find(tree, "schema")
    case None => false
    case Some(schema) =>
      && schema.Obj? && Find(schema, "name") == Some(Str("ifabric.intent"))
      && Find(schema, "major") == Some(Int(major)) && Find(schema, "minor") == Some(Int(minor))
      && major <= 65535 && minor <= 65535
  }

  lemma VersionIff(tree: Json, minor: nat)
    ensures VersionOf(tree) == Success(minor) <==> Declares(tree, minor)
  {
    hide Find;
  }

  lemma VersionRefused(tree: Json, major: nat, minor: nat)
    requires Names(tree, major, minor)
    ensures major != 1 ==> VersionOf(tree) == Failure(UnsupportedMajor)
    ensures major == 1 && minor > 3 ==> VersionOf(tree) == Failure(UnsupportedMinor)
  {
    hide Find;
  }

  // ----- the content ------------------------------------------------------------------------------

  /** There is a rate, and the older spelling, if it is used, can be read. */
  ghost predicate Rated(v: Json, legacy: string, current: string) {
    match Find(v, legacy)
    case None => Find(v, current).Some?
    case Some(Int(n)) => n >= 0
    case Some(Str(text)) => exists digits, suffix, bits :: Means(text, digits, suffix, bits)
    case _ => false
  }

  predicate HasBoth(v: Json, a: string, b: string) { Find(v, a).Some? && Find(v, b).Some? }

  /** The member, if there is one, is an array of such elements. */
  ghost predicate AllOf(v: Json, key: string, ok: Json -> bool) {
    match Find(v, key)
    case None => true
    case Some(list) => list.Arr? && forall i :: 0 <= i < |list.items| ==> ok(list.items[i])
  }

  ghost predicate RatesGiven(tree: Json) {
    match Find(tree, "topology")
    case None => false
    case Some(topology) =>
      AllOf(topology, "ports", v => Rated(v, "speed", "speed_bps")) && AllOf(topology, "links", v => Rated(v, "bandwidth", "capacity_bps"))
  }

  ghost predicate NamesApart(tree: Json) {
    && (Find(tree, "topology").Some? ==>
          AllOf(Find(tree, "topology").value, "devices", v => !HasBoth(v, "port_count", "declared_port_count")))
    && AllOf(tree, "capability_catalog", v => !HasBoth(v, "ports", "port_count"))
  }

  /** What each step still to come asks of the tree. */
  ghost predicate Upgradable(tree: Json, minor: nat) {
    && (minor <= 0 ==> RatesGiven(tree))
    && (minor <= 1 ==> AllOf(tree, "policies", _ => true))
    && (minor <= 2 ==> NamesApart(tree))
  }

  lemma {:induction false} EditAllIff(f: Json -> Outcome<Json>, items: seq<Json>)
    ensures EditAll(f, items).Success? <==> forall i :: 0 <= i < |items| ==> f(items[i]).Success?
  {
    if items != [] {
      EditAllIff(f, items[1..]);
      assert forall i :: 0 < i < |items| ==> items[i] == items[1..][i - 1];
    }
  }

  lemma EditArrayIff(v: Json, key: string, f: Json -> Outcome<Json>, ok: Json -> bool)
    requires forall x :: f(x).Success? <==> ok(x)
    ensures EditArray(v, key, f).Success? <==> AllOf(v, key, ok)
  {
    hide Find, Set, EditAll;
    if Find(v, key).Some? && Find(v, key).value.Arr? {
      EditAllIff(f, Find(v, key).value.items);
    }
  }

  lemma RatedIff(legacy: string, current: string, v: Json)
    ensures SpeedToBits(legacy, current, v).Success? <==> Rated(v, legacy, current)
  {
    hide Find, Set, Erase, ParseSpeed, Means;
    if Find(v, legacy).Some? && Find(v, legacy).value.Str? {
      var text := Find(v, legacy).value.text;
      if ParseSpeed(text).Success? {
        ParseSpeedIff(text, ParseSpeed(text).value);
      }
      if digits, suffix, bits :| Means(text, digits, suffix, bits) {
        ParseSpeedIff(text, bits);
      }
    }
  }

  lemma ApartIff(from: string, to: string, v: Json)
    ensures RenameField(from, to, v).Success? <==> !HasBoth(v, from, to)
  {
    hide Find, Set, Erase;
  }

  // ----- the steps --------------------------------------------------------------------------------

  /** Objects among the tree and its topology have sorted members. */
  ghost predicate Ordered(tree: Json) {
    SortedObject(tree) && (Find(tree, "topology").Some? && Find(tree, "topology").value.Obj? ==> SortedObject(Find(tree, "topology").value))
  }

  /** Nothing the later steps look at has changed. */
  ghost predicate SameForLater(before: Json, after: Json) {
    && Find(after, "policies") == Find(before, "policies")
    && Find(after, "capability_catalog") == Find(before, "capability_catalog")
    && Find(after, "topology").Some? == Find(before, "topology").Some?
    && (Find(before, "topology").Some? ==>
          Find(Find(after, "topology").value, "devices") == Find(Find(before, "topology").value, "devices"))
  }

  lemma EditedArray(v: Json, key: string, f: Json -> Outcome<Json>, other: string)
    requires (v.Obj? ==> SortedObject(v)) && other != key && EditArray(v, key, f).Success?
    ensures var r := EditArray(v, key, f).value; (r.Obj? ==> SortedObject(r)) && Find(r, other) == Find(v, other)
  {
    hide Set, EditAll;
    if v.Obj? {
      EditArrayKeeps(v, key, f, other);
    } else {
      assert Find(v, key) == None;
    }
  }

  lemma From10Iff(tree: Json)
    requires Ordered(tree)
    ensures From10(tree).Success? <==> RatesGiven(tree)
    ensures From10(tree).Success? ==> Ordered(From10(tree).value) && SameForLater(tree, From10(tree).value)
  {
    hide Find, Set, EditArray, AllOf, SortedObject, PortToBits, LinkToBits, Rated;
    if Find(tree, "topology").Some? {
      var topology := Find(tree, "topology").value;
      PortsRated();
      FindNeedsObject(topology);
      EditArrayIff(topology, "ports", PortToBits, v => Rated(v, "speed", "speed_bps"));
      if EditArray(topology, "ports", PortToBits).Success? {
        var withPorts := EditArray(topology, "ports", PortToBits).value;
        EditedArray(topology, "ports", PortToBits, "links");
        EditedArray(topology, "ports", PortToBits, "devices");
        EditArrayIff(withPorts, "links", LinkToBits, v => Rated(v, "bandwidth", "capacity_bps"));
        SameAll(withPorts, topology, "links", v => Rated(v, "bandwidth", "capacity_bps"));
        if EditArray(withPorts, "links", LinkToBits).Success? {
          var withLinks := EditArray(withPorts, "links", LinkToBits).value;
          EditedArray(withPorts, "links", LinkToBits, "devices");
          TopologySet(tree, withLinks);
        }
      }
    }
  }

  lemma FindNeedsObject(v: Json)
    ensures !v.Obj? ==> forall key :: Find(v, key) == None
  {
  }

  lemma PortsRated()
    ensures forall v :: PortToBits(v).Success? <==> Rated(v, "speed", "speed_bps")
    ensures forall v :: LinkToBits(v).Success? <==> Rated(v, "bandwidth", "capacity_bps")
  {
    hide SpeedToBits, Rated;
    forall v
      ensures PortToBits(v).Success? <==> Rated(v, "speed", "speed_bps")
      ensures LinkToBits(v).Success? <==> Rated(v, "bandwidth", "capacity_bps")
    {
      RatedIff("speed", "speed_bps", v);
      RatedIff("bandwidth", "capacity_bps", v);
    }
  }

  lemma SameAll(v: Json, w: Json, key: string, ok: Json -> bool)
    requires Find(v, key) == Find(w, key)
    ensures AllOf(v, key, ok) <==> AllOf(w, key, ok)
  {
    hide Find;
  }

  lemma TopologySet(tree: Json, topology: Json)
    requires SortedObject(tree) && (topology.Obj? ==> SortedObject(topology))
    ensures var t := Set(tree, "topology", topology);
      Ordered(t) && Find(t, "topology") == Some(topology)
      && Find(t, "policies") == Find(tree, "policies") && Find(t, "capability_catalog") == Find(tree, "capability_catalog")
  {
    hide Find, Set, SortedObject;
    SetFinds(tree, "topology", topology, "topology");
    SetFinds(tree, "topology", topology, "policies");
    SetFinds(tree, "topology", topology, "capability_catalog");
  }

  lemma From11Iff(tree: Json)
    requires Ordered(tree)
    ensures From11(tree).Success? <==> AllOf(tree, "policies", _ => true)
    ensures From11(tree).Success? ==> Ordered(From11(tree).value) && NamesApart(From11(tree).value) == NamesApart(tree)
  {
    hide Find, Set, EditArray, AllOf, SortedObject, AddDefaults;
    assert forall v :: AddDefaults(v).Success? by { DefaultsSucceed(); }
    EditArrayIff(tree, "policies", AddDefaults, _ => true);
    if From11(tree).Success? {
      EditArrayKeeps(tree, "policies", AddDefaults, "topology");
      EditArrayKeeps(tree, "policies", AddDefaults, "capability_catalog");
      SameAll(From11(tree).value, tree, "capability_catalog", v => !HasBoth(v, "ports", "port_count"));
    }
  }

  lemma DefaultsSucceed()
    ensures forall v :: AddDefaults(v).Success?
  {
  }

  lemma From12Iff(tree: Json)
    requires Ordered(tree)
    ensures From12(tree).Success? <==> NamesApart(tree)
  {
    hide Find, Set, EditArray, AllOf, SortedObject, RenameDevice, RenameEntry, HasBoth;
    NamesRenamed();
    EditArrayIff(tree, "capability_catalog", RenameEntry, v => !HasBoth(v, "ports", "port_count"));
    if Find(tree, "topology").Some? {
      var topology := Find(tree, "topology").value;
      EditArrayIff(topology, "devices", RenameDevice, v => !HasBoth(v, "port_count", "declared_port_count"));
      if EditArray(topology, "devices", RenameDevice).Success? {
        var edited := EditArray(topology, "devices", RenameDevice).value;
        var t := Set(tree, "topology", edited);
        SetFinds(tree, "topology", edited, "capability_catalog");
        SameAll(t, tree, "capability_catalog", v => !HasBoth(v, "ports", "port_count"));
        EditArrayIff(t, "capability_catalog", RenameEntry, v => !HasBoth(v, "ports", "port_count"));
      }
    }
  }

  lemma NamesRenamed()
    ensures forall v :: RenameDevice(v).Success? <==> !HasBoth(v, "port_count", "declared_port_count")
    ensures forall v :: RenameEntry(v).Success? <==> !HasBoth(v, "ports", "port_count")
  {
    hide RenameField, HasBoth;
    forall v
      ensures RenameDevice(v).Success? <==> !HasBoth(v, "port_count", "declared_port_count")
      ensures RenameEntry(v).Success? <==> !HasBoth(v, "ports", "port_count")
    {
      ApartIff("port_count", "declared_port_count", v);
      ApartIff("ports", "port_count", v);
    }
  }

  lemma LaterSame(before: Json, after: Json)
    requires SameForLater(before, after)
    ensures AllOf(after, "policies", _ => true) == AllOf(before, "policies", _ => true)
    ensures NamesApart(after) == NamesApart(before)
  {
    hide Find, HasBoth;
  }

  lemma StepsIff(tree: Json, minor: nat)
    requires Ordered(tree) && minor <= 3
    ensures Steps(tree, minor).Success? <==> Upgradable(tree, minor)
  {
    hide From10, From11, From12, Ordered, NamesApart, AllOf, RatesGiven, SameForLater;
    if minor == 0 {
      From10Iff(tree);
      if From10(tree).Success? {
        LaterSame(tree, From10(tree).value);
        StepsFrom1(From10(tree).value);
      }
    } else if minor == 1 {
      StepsFrom1(tree);
    } else if minor == 2 {
      StepsFrom2(tree);
    }
  }

  lemma StepsFrom1(tree: Json)
    requires Ordered(tree)
    ensures Steps(tree, 1).Success? <==> AllOf(tree, "policies", _ => true) && NamesApart(tree)
  {
    hide From10, From11, From12, Ordered, NamesApart, AllOf;
    From11Iff(tree);
    if From11(tree).Success? {
      StepsFrom2(From11(tree).value);
    }
  }

  lemma StepsFrom2(tree: Json)
    requires Ordered(tree)
    ensures Steps(tree, 2).Success? <==> NamesApart(tree)
  {
    hide From10, From11, From12, Ordered, NamesApart;
    From12Iff(tree);
    assert From12(tree).Success? ==> Steps(From12(tree).value, 3).Success?;
  }

  // ----- the upgrade --------------------------------------------------------------------------------

  /** The result names version 1.3, and the version the tree had if that was older. */
  ghost predicate Marked(before: Json, after: Json, minor: nat) {
    match Find(after, "schema")
    case None => false
    case Some(schema) =>
      && Find(schema, "name") == Some(Str("ifabric.intent")) && Find(schema, "major") == Some(Int(1))
      && Find(schema, "minor") == Some(Int(3))
      && (minor == 3 ==> after == before)
      && (minor == 0 ==> Find(schema, "upgraded_from") == Some(Str("1.0")))
      && (minor == 1 ==> Find(schema, "upgraded_from") == Some(Str("1.1")))
      && (minor == 2 ==> Find(schema, "upgraded_from") == Some(Str("1.2")))
  }

  lemma VersionTexts()
    ensures VersionText(0) == "1.0" && VersionText(1) == "1.1" && VersionText(2) == "1.2"
  {
    assert "1." + ["0123"[0]] == "1.0" && "1." + ["0123"[1]] == "1.1" && "1." + ["0123"[2]] == "1.2";
  }

  lemma UpgradeMarks(tree: Json, minor: nat)
    requires SortedSchema(tree) && Upgrade(tree).Success? && Declares(tree, minor)
    ensures Marked(tree, Upgrade(tree).value.0, minor) && Upgrade(tree).value.1 == 3 - minor
  {
    hide Find, Set, SortedObject, MarkedSchema, From10, From11, From12, VersionText;
    VersionIff(tree, minor);
    UpgradeIsStable(tree);
    if minor < 3 {
      StepsKeepSchema(tree, minor);
      var r, schema := Steps(tree, minor).value.0, Find(tree, "schema").value;
      SetFinds(r, "schema", MarkedSchema(schema, minor), "schema");
      MarkedSchemaFinds(schema, minor, "name");
      MarkedSchemaFinds(schema, minor, "major");
      MarkedSchemaFinds(schema, minor, "minor");
      MarkedSchemaFinds(schema, minor, "upgraded_from");
      VersionTexts();
    }
  }

  /**
   * Main result. A tree is upgraded exactly when it declares one of the four versions and has what the steps
   * from that version ask for; other versions are refused by their numbers.
   */
  method UpgradeDecides(tree: Json) returns (r: Outcome<(Json, nat)>)
    requires Ordered(tree) && SortedSchema(tree)
    ensures r.Success? <==> exists minor: nat :: Declares(tree, minor) && Upgradable(tree, minor)
    ensures forall minor: nat :: Declares(tree, minor) && r.Success? ==> Marked(tree, r.value.0, minor) && r.value.1 == 3 - minor
    ensures forall major: nat, minor: nat :: Names(tree, major, minor) && major != 1 ==> r == Failure(UnsupportedMajor)
    ensures forall minor: nat :: Names(tree, 1, minor) && minor > 3 ==> r == Failure(UnsupportedMinor)
  {
    hide *;
    r := UpgradeToCurrent(tree);
    UpgradeIff(tree);
    forall minor: nat | Declares(tree, minor) && r.Success?
      ensures Marked(tree, r.value.0, minor) && r.value.1 == 3 - minor
    {
      UpgradeMarks(tree, minor);
    }
    forall major: nat, minor: nat | Names(tree, major, minor) && (major != 1 || minor > 3)
      ensures major != 1 ==> r == Failure(UnsupportedMajor)
      ensures major == 1 && minor > 3 ==> r == Failure(UnsupportedMinor)
    {
      VersionRefused(tree, major, minor);
      FailedVersion(tree);
    }
  }

  lemma FailedVersion(tree: Json)
    requires Ordered(tree) && VersionOf(tree).Failure?
    ensures Upgrade(tree) == Failure(VersionOf(tree).error)
  {
    hide VersionOf, Steps;
  }

  lemma UpgradeIff(tree: Json)
    requires Ordered(tree) && SortedSchema(tree)
    ensures Upgrade(tree).Success? <==> exists minor: nat :: Declares(tree, minor) && Upgradable(tree, minor)
  {
    hide Find, Set, SortedObject, VersionOf, Steps, Declares, Upgradable, MarkedSchema;
    forall minor: nat
      ensures VersionOf(tree) == Success(minor) <==> Declares(tree, minor)
    {
      VersionIff(tree, minor);
    }
    VersionInRange(tree);
    SortedIsObject(tree);
    if VersionOf(tree).Success? {
      var minor := VersionOf(tree).value;
      assert Declares(tree, minor);
      StepsIff(tree, minor);
      if Steps(tree, minor).Success? && minor < 3 {
        StepsKeepSchema(tree, minor);
        SchemaThere(tree, minor);
      }
    }
  }

  lemma SchemaThere(tree: Json, minor: nat)
    requires Declares(tree, minor)
    ensures Find(tree, "schema").Some?
  {
    hide Find;
  }
}
