/** Schema upgrades from 1.0 to 1.3 (src/model_json.cpp:1494-1652, 1870-1947, src/model.cpp:144-175). */
module Migration {
  import opened Ordering
  import opened Identities
  import opened JsonValues
  import opened JsonMembers
  import opened JsonEditing
  import Canonical

  datatype ErrorCode =
    | MissingField | TypeMismatch | UnknownField | ArithmeticOverflow | AmbiguousSemantics
    | VersionMalformed | UnsupportedMajor | UnsupportedMinor

  type Outcome<+T> = Result<T, ErrorCode>

  const SCHEMA_NAME := "ifabric.intent"
  const SUPPORTED_MAJOR := 1
  const SUPPORTED_MINOR: nat := 3

  const TWO_63: nat := 0x8000_0000_0000_0000
  const TWO_64: nat := 0x1_0000_0000_0000_0000

  // ----- link speeds --------------------------------------------------------------

  /** Digits read from the left; a value above the bound stops the reading at once. */
  function ReadDigits(s: string, value: nat): Outcome<nat> {
    if s == "" then Success(value)
    else if !('0' <= s[0] <= '9') then Failure(UnknownField)
    else
      var v := 10 * value + (s[0] as nat - '0' as nat);
      if v > 1000000000000 then Failure(UnknownField) else ReadDigits(s[1..], v)
  }

  /** A bit rate with an optional g or m suffix. */
  function ParseSpeed(text: string): Outcome<nat> {
    var body := Canonical.Trim(text);
    if body == "" then Failure(UnknownField)
    else
      var last := body[|body| - 1];
      var multiplier := if last == 'g' || last == 'G' then 1000000000 else if last == 'm' || last == 'M' then 1000000 else 1;
      var digits := if multiplier == 1 then body else body[..|body| - 1];
      if digits == "" || |digits| > 18 then Failure(UnknownField)
      else
        match ReadDigits(digits, 0)
        case Failure(why) => Failure(why)
        case Success(value) => if value * multiplier >= TWO_64 then Failure(ArithmeticOverflow) else Success(value * multiplier)
  }

  function SpeedOf(v: Json): Outcome<nat> {
    match v
    case Str(text) => ParseSpeed(text)
    case Int(n) => if n >= 0 then Success(n) else Failure(TypeMismatch)
    case _ => Failure(TypeMismatch)
  }

  /** A 64-bit count stored as a signed integer. */
  function Stored(bits: nat): Json { Int(if bits % TWO_64 >= TWO_63 then bits % TWO_64 - TWO_64 else bits % TWO_64) }

  // ----- one declaration -------------------------------------------------------------

  /** The legacy speed, if any, becomes a bit rate; it replaces a bit rate that is there as well. */
  function SpeedToBits(legacy: string, current: string, v: Json): Outcome<Json> {
    if Find(v, legacy).None? && Find(v, current).None? then Failure(MissingField)
    else
      match Find(v, legacy)
      case None => Success(v)
      case Some(speed) =>
        match SpeedOf(speed)
        case Failure(why) => Failure(why)
        case Success(bits) => Success(Set(Erase(v, legacy), current, Stored(bits)))
  }

  /** A member gets a new name; having both names is refused. */
  function RenameField(from: string, to: string, v: Json): Outcome<Json> {
    match Find(v, from)
    case None => Success(v)
    case Some(moved) => if Find(v, to).Some? then Failure(AmbiguousSemantics) else Success(Set(Erase(v, from), to, moved))
  }

  function WithDefault(v: Json, key: string, value: Json): Json {
    if Find(v, key).None? then Set(v, key, value) else v
  }

  const MAINTENANCE := "maintenance-eligibility"
  const HEADROOM := "requires_redundancy_headroom"
  const GROUPS := "upgrade_groups"

  predicate IsMaintenance(policy: Json) {
    && Find(policy, "kind") == Some(Str(MAINTENANCE))
    && Find(policy, MAINTENANCE).Some? && Find(policy, MAINTENANCE).value.Obj?
  }

  /** Maintenance policies get the defaults they lack. */
  function AddDefaults(policy: Json): Outcome<Json> {
    if !IsMaintenance(policy) then Success(policy)
    else
      var body := Find(policy, MAINTENANCE).value;
      Success(Set(policy, MAINTENANCE, WithDefault(WithDefault(body, HEADROOM, Bool(true)), GROUPS, Arr([]))))
  }

  // ----- the collections of a tree ------------------------------------------------------

  /** Edits every element, or fails with the first failure. */
  function EditAll(f: Json -> Outcome<Json>, items: seq<Json>): Outcome<seq<Json>> {
    if items == [] then Success([])
    else
      match f(items[0])
      case Failure(why) => Failure(why)
      case Success(first) =>
        match EditAll(f, items[1..])
        case Failure(why) => Failure(why)
        case Success(rest) => Success([first] + rest)
  }

  /** Edits the array under a key, if there is one. */
  function EditArray(v: Json, key: string, f: Json -> Outcome<Json>): Outcome<Json> {
    match Find(v, key)
    case None => Success(v)
    case Some(list) =>
      if !list.Arr? then Failure(TypeMismatch)
      else
        match EditAll(f, list.items)
        case Failure(why) => Failure(why)
        case Success(items) => Success(Set(v, key, Arr(items)))
  }

  function PortToBits(v: Json): Outcome<Json> { SpeedToBits("speed", "speed_bps", v) }
  function LinkToBits(v: Json): Outcome<Json> { SpeedToBits("bandwidth", "capacity_bps", v) }
  function RenameDevice(v: Json): Outcome<Json> { RenameField("port_count", "declared_port_count", v) }
  function RenameEntry(v: Json): Outcome<Json> { RenameField("ports", "port_count", v) }

  function From10(tree: Json): Outcome<Json> {
    match Find(tree, "topology")
    case None => Failure(MissingField)
    case Some(topology) =>
      match EditArray(topology, "ports", PortToBits)
      case Failure(why) => Failure(why)
      case Success(withPorts) =>
        match EditArray(withPorts, "links", LinkToBits)
        case Failure(why) => Failure(why)
        case Success(withLinks) => Success(Set(tree, "topology", withLinks))
  }

  function From11(tree: Json): Outcome<Json> { EditArray(tree, "policies", AddDefaults) }

  function From12(tree: Json): Outcome<Json> {
    var withDevices :=
      match Find(tree, "topology")
      case None => Success(tree)
      case Some(topology) =>
        match EditArray(topology, "devices", RenameDevice)
        case Failure(why) => Failure(why)
        case Success(edited) => Success(Set(tree, "topology", edited));
    match withDevices
    case Failure(why) => Failure(why)
    case Success(t) => EditArray(t, "capability_catalog", RenameEntry)
  }

  /** The steps from a minor version to the current one, and how many they are. */
  function Steps(tree: Json, minor: nat): Outcome<(Json, nat)>
    decreases SUPPORTED_MINOR - minor
  {
    if minor >= SUPPORTED_MINOR then Success((tree, 0))
    else
      match (if minor == 0 then From10(tree) else if minor == 1 then From11(tree) else From12(tree))
      case Failure(why) => Failure(why)
      case Success(next) =>
        match Steps(next, minor + 1)
        case Failure(why) => Failure(why)
        case Success(r) => Success((r.0, r.1 + 1))
  }

  // ----- the version of a tree ---------------------------------------------------------------

  /** The minor version, once name and major version are accepted. */
  function VersionOf(tree: Json): Outcome<nat> {
    match Find(tree, "schema")
    case None => Failure(MissingField)
    case Some(schema) =>
      if !schema.Obj? then Failure(MissingField)
      else if Find(schema, "name").None? then Failure(MissingField)
      else if !Find(schema, "name").value.Str? then Failure(TypeMismatch)
      else if Find(schema, "name").value.text != SCHEMA_NAME then Failure(VersionMalformed)
      else if Find(schema, "major").None? || Find(schema, "minor").None? then Failure(MissingField)
      else if !Find(schema, "major").value.Int? || !Find(schema, "minor").value.Int? then Failure(VersionMalformed)
      else
        var major, minor := Find(schema, "major").value.number, Find(schema, "minor").value.number;
        if !(0 <= major <= 0xFFFF && 0 <= minor <= 0xFFFF) then Failure(VersionMalformed)
        else if major != SUPPORTED_MAJOR then Failure(UnsupportedMajor)
        else if minor > SUPPORTED_MINOR then Failure(UnsupportedMinor)
        else Success(minor)
  }

  function VersionText(minor: nat): string
    requires minor <= SUPPORTED_MINOR
  {
    "1." + ["0123"[minor]]
  }

  /** The schema of an upgraded tree: the current minor version, and the one it came from. */
  function MarkedSchema(schema: Json, minor: nat): Json
    requires minor <= SUPPORTED_MINOR
  {
    Set(Set(schema, "minor", Int(SUPPORTED_MINOR)), "upgraded_from", Str(VersionText(minor)))
  }

  /** The upgraded tree, and the number of steps applied. */
  function Upgrade(tree: Json): Outcome<(Json, nat)> {
    if !tree.Obj? then Failure(TypeMismatch)
    else
      match VersionOf(tree)
      case Failure(why) => Failure(why)
      case Success(minor) =>
        match Steps(tree, minor)
        case Failure(why) => Failure(why)
        case Success(r) =>
          if minor == SUPPORTED_MINOR then Success(r)
          else if Find(r.0, "schema").None? then Failure(MissingField) // never so: every step keeps the schema
          else Success((Set(r.0, "schema", MarkedSchema(Find(r.0, "schema").value, minor)), r.1))
  }

  // ----- what an upgrade leaves alone ------------------------------------------------------------

  lemma EditArrayKeeps(v: Json, key: string, f: Json -> Outcome<Json>, other: string)
    requires SortedObject(v) && EditArray(v, key, f).Success?
    ensures SortedObject(EditArray(v, key, f).value)
    ensures other != key ==> Find(EditArray(v, key, f).value, other) == Find(v, other)
  {
    hide Find, Set, SortedObject, EditAll;
    if Find(v, key).Some? && EditAll(f, Find(v, key).value.items).Success? {
      SetFinds(v, key, Arr(EditAll(f, Find(v, key).value.items).value), other);
    }
  }

  lemma StepKeepsSchema(tree: Json, minor: nat)
    requires SortedObject(tree) && minor < SUPPORTED_MINOR
    ensures var r := if minor == 0 then From10(tree) else if minor == 1 then From11(tree) else From12(tree);
      r.Success? ==> SortedObject(r.value) && Find(r.value, "schema") == Find(tree, "schema")
  {
    hide Find, Set, SortedObject, EditArray;
    if minor == 0 {
      if From10(tree).Success? {
        var withPorts := EditArray(Find(tree, "topology").value, "ports", PortToBits).value;
        SetFinds(tree, "topology", EditArray(withPorts, "links", LinkToBits).value, "schema");
      }
    } else if minor == 1 {
      if From11(tree).Success? {
        EditArrayKeeps(tree, "policies", AddDefaults, "schema");
      }
    } else {
      From12Keeps(tree);
    }
  }

  lemma From12Keeps(tree: Json)
    requires SortedObject(tree)
    ensures From12(tree).Success? ==> SortedObject(From12(tree).value) && Find(From12(tree).value, "schema") == Find(tree, "schema")
  {
    hide Find, Set, SortedObject, EditArray;
    if From12(tree).Success? {
      var t := tree;
      if Find(tree, "topology").Some? {
        var edited := EditArray(Find(tree, "topology").value, "devices", RenameDevice).value;
        SetFinds(tree, "topology", edited, "schema");
        t := Set(tree, "topology", edited);
      }
      EditArrayKeeps(t, "capability_catalog", RenameEntry, "schema");
    }
  }

  lemma {:induction false} StepsKeepSchema(tree: Json, minor: nat)
    requires SortedObject(tree) && Steps(tree, minor).Success?
    ensures SortedObject(Steps(tree, minor).value.0) && Find(Steps(tree, minor).value.0, "schema") == Find(tree, "schema")
    decreases SUPPORTED_MINOR - minor
  {
    hide Find, SortedObject, From10, From11, From12;
    if minor < SUPPORTED_MINOR {
      StepKeepsSchema(tree, minor);
      var r := if minor == 0 then From10(tree) else if minor == 1 then From11(tree) else From12(tree);
      StepsKeepSchema(r.value, minor + 1);
    }
  }

  /** The schema object of a tree is itself sorted. */
  ghost predicate SortedSchema(tree: Json) {
    SortedObject(tree) && (Find(tree, "schema").Some? && Find(tree, "schema").value.Obj? ==> SortedObject(Find(tree, "schema").value))
  }

  lemma MarkedSchemaFinds(schema: Json, minor: nat, key: string)
    requires SortedObject(schema) && minor <= SUPPORTED_MINOR
    ensures SortedObject(MarkedSchema(schema, minor))
    ensures Find(MarkedSchema(schema, minor), key)
         == if key == "upgraded_from" then Some(Str(VersionText(minor))) else if key == "minor" then Some(Int(SUPPORTED_MINOR)) else Find(schema, key)
  {
    hide Find, Set, SortedObject, VersionText;
    SetFinds(schema, "minor", Int(SUPPORTED_MINOR), key);
    SetFinds(Set(schema, "minor", Int(SUPPORTED_MINOR)), "upgraded_from", Str(VersionText(minor)), key);
  }

  /** An upgraded tree is current: upgrading it again takes no step and changes nothing. */
  lemma UpgradeIsStable(tree: Json)
    requires SortedSchema(tree) && Upgrade(tree).Success?
    ensures Upgrade(Upgrade(tree).value.0) == Success((Upgrade(tree).value.0, 0))
    ensures Upgrade(tree).value.1 == SUPPORTED_MINOR - VersionOf(tree).value
  {
    hide Find, Set, SortedObject, MarkedSchema, From10, From11, From12, VersionText;
    var minor := VersionOf(tree).value;
    StepsCount(tree, minor);
    if minor < SUPPORTED_MINOR {
      StepsKeepSchema(tree, minor);
      var r, schema := Steps(tree, minor).value.0, Find(tree, "schema").value;
      var marked := MarkedSchema(schema, minor);
      SetFinds(r, "schema", marked, "schema");
      MarkedSchemaFinds(schema, minor, "name");
      MarkedSchemaFinds(schema, minor, "major");
      MarkedSchemaFinds(schema, minor, "minor");
      SortedIsObject(r);
      SortedIsObject(marked);
      SortedIsObject(Set(r, "schema", marked));
    }
  }

  lemma SortedIsObject(v: Json)
    requires SortedObject(v)
    ensures v.Obj?
  {
  }

  lemma {:induction false} StepsCount(tree: Json, minor: nat)
    requires minor <= SUPPORTED_MINOR
    ensures Steps(tree, minor).Success? ==> Steps(tree, minor).value.1 == SUPPORTED_MINOR - minor
    decreases SUPPORTED_MINOR - minor
  {
    hide From10, From11, From12;
    if minor < SUPPORTED_MINOR {
      var r := if minor == 0 then From10(tree) else if minor == 1 then From11(tree) else From12(tree);
      if r.Success? { StepsCount(r.value, minor + 1); }
    }
  }

  // ----- the procedure ----------------------------------------------------------------------

  /** Edits the elements one after the other, and stops at the first failure. */
  method EditElements(f: Json -> Outcome<Json>, items: seq<Json>) returns (r: Outcome<seq<Json>>)
    ensures r == EditAll(f, items)
  {
    var edited: seq<Json> := [];
    assert items[0..] == items;
    NothingPrepended(EditAll(f, items));
    for i := 0 to |items|
      invariant EditAll(f, items) == Prepended(edited, EditAll(f, items[i..]))
    {
      assert items[i..][1..] == items[i + 1..];
      var e := f(items[i]);
      if e.Failure? {
        return Failure(e.error);
      }
      PrependedOnce(edited, e.value, EditAll(f, items[i + 1..]));
      edited := edited + [e.value];
    }
    assert edited + [] == edited;
    return Success(edited);
  }

  function Prepended(front: seq<Json>, r: Outcome<seq<Json>>): Outcome<seq<Json>> {
    if r.Success? then Success(front + r.value) else r
  }

  lemma NothingPrepended(r: Outcome<seq<Json>>)
    ensures Prepended([], r) == r
  {
    if r.Success? {
      assert [] + r.value == r.value;
    }
  }

  lemma PrependedOnce(front: seq<Json>, x: Json, r: Outcome<seq<Json>>)
    ensures Prepended(front, Prepended([x], r)) == Prepended(front + [x], r)
  {
    if r.Success? {
      assert front + ([x] + r.value) == (front + [x]) + r.value;
    }
  }

  function Counted(r: Outcome<(Json, nat)>, applied: nat): Outcome<(Json, nat)> {
    if r.Success? then Success((r.value.0, r.value.1 + applied)) else r
  }

  /** Applies the step of each minor version in turn, then marks the tree. */
  method UpgradeToCurrent(tree: Json) returns (r: Outcome<(Json, nat)>)
    ensures r == Upgrade(tree)
  {
    hide VersionOf, From10, From11, From12, MarkedSchema;
    if !tree.Obj? {
      return Failure(TypeMismatch);
    }
    var version := VersionOf(tree);
    if version.Failure? {
      return Failure(version.error);
    }
    var upgraded, applied := tree, 0;
    VersionInRange(tree);
    for m := version.value to SUPPORTED_MINOR
      invariant Steps(tree, version.value) == Counted(Steps(upgraded, m), applied)
    {
      var next := if m == 0 then From10(upgraded) else if m == 1 then From11(upgraded) else From12(upgraded);
      if next.Failure? {
        return Failure(next.error);
      }
      upgraded, applied := next.value, applied + 1;
    }
    if version.value != SUPPORTED_MINOR {
      var schema := Find(upgraded, "schema");
      if schema.None? {
        return Failure(MissingField);
      }
      upgraded := Set(upgraded, "schema", MarkedSchema(schema.value, version.value));
    }
    return Success((upgraded, applied));
  }

  lemma VersionInRange(tree: Json)
    ensures VersionOf(tree).Success? ==> VersionOf(tree).value <= SUPPORTED_MINOR
  {
  }
}
