/** The value object of src/json.cpp:107-119, 189-234: its methods edit one member in place. */
module JsonObjects {
  import opened Ordering
  import opened Identities
  import opened JsonValues
  import opened JsonGrammar
  import opened JsonMembers
  import JsonEditing

  lemma PlaceOf(members: seq<Member>, p: nat)
    requires SortedMembers(members) && p < |members|
    ensures members[p].key in Keys(members) && IndexOf(Keys(members), members[p].key) == p
  {
    hide StrLe;
    assert Keys(members)[p] == members[p].key;
  }

  /** A value that is edited in place; its members, if it is an object, are kept sorted and unique. */
  class JsonValue {
    var value: Json

    ghost predicate Valid() reads this { value.Obj? ==> SortedMembers(value.members) }

    ghost function Contents(): map<string, Json> reads this { if value.Obj? then AsMap(value.members) else map[] }

    constructor ()
      ensures Valid() && value == Null
    {
      value := Null;
    }

    method Find(key: string) returns (found: Option<Json>)
      requires Valid()
      ensures found == JsonEditing.Find(value, key)
      ensures found == if key in Contents() then Some(Contents()[key]) else None
    {
      if !value.Obj? {
        return None;
      }
      var p := FindLowerBound(value.members, key);
      if p == |value.members| || value.members[p].key != key {
        return None;
      }
      AsMapAt(value.members, p);
      PlaceOf(value.members, p);
      found := Some(value.members[p].value);
    }

    /** Replaces the member in place, or puts a new one in its place; a value that is no object becomes one. */
    method Set(key: string, v: Json)
      requires Valid()
      modifies this
      ensures Valid() && value == JsonEditing.Set(old(value), key, v)
      ensures Contents() == old(Contents())[key := v]
    {
      if !value.Obj? {
        value := Obj([]);
      }
      var members := value.members;
      var p := FindLowerBound(members, key);
      if p < |members| && members[p].key == key {
        ReplacedMap(members, p, v);
        PlaceOf(members, p);
        value := Obj(members[p := members[p].(value := v)]);
        return;
      }
      InsertedMap(members, key, v);
      value := Obj(members[..p] + [Member(key, v)] + members[p..]);
    }

    /** Puts a new member in its place; a key that is there already is refused. */
    method Insert(key: string, v: Json) returns (duplicate: bool)
      requires Valid()
      modifies this
      ensures Valid() && duplicate == (key in old(Contents()))
      ensures value == if duplicate then old(value) else JsonEditing.Set(old(value), key, v)
      ensures Contents() == if duplicate then old(Contents()) else old(Contents())[key := v]
    {
      if !value.Obj? {
        value := Obj([]);
      }
      var members := value.members;
      var p := FindLowerBound(members, key);
      if p < |members| && members[p].key == key {
        return true;
      }
      InsertedMap(members, key, v);
      value := Obj(members[..p] + [Member(key, v)] + members[p..]);
      duplicate := false;
    }

    method Erase(key: string) returns (found: bool)
      requires Valid()
      modifies this
      ensures Valid() && found == (key in old(Contents())) && value == JsonEditing.Erase(old(value), key)
      ensures Contents() == old(Contents()) - {key}
    {
      if !value.Obj? {
        return false;
      }
      var members := value.members;
      var p := FindLowerBound(members, key);
      if p == |members| || members[p].key != key {
        return false;
      }
      ErasedMap(members, p);
      PlaceOf(members, p);
      value := Obj(members[..p] + members[p + 1..]);
      found := true;
    }
  }
}
