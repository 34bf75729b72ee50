/**
 * Reading and editing one member of a value (src/json.cpp:107-119, 189-234): functions with their laws,
 * for values that are copied. JsonObjects has the object whose methods are these functions in place.
 */
module JsonEditing {
  import opened Ordering
  import opened Identities
  import opened JsonValues
  import opened JsonGrammar
  import opened JsonMembers

  function Find(v: Json, key: string): Option<Json> {
    if v.Obj? && key in Keys(v.members) then Some(v.members[IndexOf(Keys(v.members), key)].value) else None
  }

  /** Replaces the member or inserts it; a value that is no object becomes one. */
  function Set(v: Json, key: string, value: Json): Json {
    if !v.Obj? then Obj([Member(key, value)])
    else if key in Keys(v.members) then
      var p := IndexOf(Keys(v.members), key);
      Obj(v.members[p := v.members[p].(value := value)])
    else Obj(Inserted(v.members, key, value))
  }

  function Erase(v: Json, key: string): Json {
    if v.Obj? && key in Keys(v.members) then
      var p := IndexOf(Keys(v.members), key);
      Obj(v.members[..p] + v.members[p + 1..])
    else v
  }

  /** An object whose members are sorted and unique. */
  ghost predicate SortedObject(v: Json) { v.Obj? && SortedMembers(v.members) }

  lemma FindIsMap(v: Json, key: string)
    requires SortedObject(v)
    ensures Find(v, key) == if key in AsMap(v.members) then Some(AsMap(v.members)[key]) else None
  {
  }

  lemma SetFinds(v: Json, key: string, value: Json, other: string)
    requires SortedObject(v)
    ensures SortedObject(Set(v, key, value))
    ensures Find(Set(v, key, value), other) == if other == key then Some(value) else Find(v, other)
  {
    hide IndexOf, Inserted, SortedMembers, AsMap;
    var w := Set(v, key, value);
    if key in Keys(v.members) {
      ReplacedMap(v.members, IndexOf(Keys(v.members), key), value);
    } else {
      InsertedMap(v.members, key, value);
    }
    FindIsMap(v, other);
    FindIsMap(w, other);
  }

  lemma EraseFinds(v: Json, key: string, other: string)
    requires SortedObject(v)
    ensures SortedObject(Erase(v, key))
    ensures Find(Erase(v, key), other) == if other == key then None else Find(v, other)
  {
    hide IndexOf, SortedMembers, AsMap;
    if key in Keys(v.members) {
      ErasedMap(v.members, IndexOf(Keys(v.members), key));
    }
    FindIsMap(v, other);
    FindIsMap(Erase(v, key), other);
  }

  /** Objects with the same members are the same. */
  lemma SameFinds(v: Json, w: Json)
    requires SortedObject(v) && SortedObject(w)
    requires forall key :: Find(v, key) == Find(w, key)
    ensures v == w
  {
    hide Find, SortedMembers, AsMap;
    forall key
      ensures key in AsMap(v.members) <==> key in AsMap(w.members)
      ensures key in AsMap(v.members) && key in AsMap(w.members) ==> AsMap(v.members)[key] == AsMap(w.members)[key]
    {
      FindIsMap(v, key);
      FindIsMap(w, key);
      assert Find(v, key) == Find(w, key);
    }
    assert AsMap(v.members) == AsMap(w.members);
    AsMapDecides(v.members, w.members);
  }

  /** Setting a member, then setting it back. */
  lemma SetBack(v: Json, key: string, value: Json)
    requires SortedObject(v) && Find(v, key).Some?
    ensures Set(Set(v, key, value), key, Find(v, key).value) == v
  {
    hide Find, Set, SortedObject;
    var w := Set(v, key, value);
    forall other
      ensures Find(Set(w, key, Find(v, key).value), other) == Find(v, other)
    {
      SetFinds(v, key, value, other);
      SetFinds(w, key, Find(v, key).value, other);
    }
    SetFinds(v, key, value, key);
    SetFinds(w, key, Find(v, key).value, key);
    SameFinds(Set(w, key, Find(v, key).value), v);
  }

  /** Setting one member twice is setting it last. */
  lemma SetTwice(v: Json, key: string, x: Json, y: Json)
    requires SortedObject(v)
    ensures Set(Set(v, key, x), key, y) == Set(v, key, y)
  {
    hide Find, Set, SortedObject;
    var w := Set(v, key, x);
    SetFinds(v, key, x, key);
    SetFinds(w, key, y, key);
    SetFinds(v, key, y, key);
    forall other
      ensures Find(Set(w, key, y), other) == Find(Set(v, key, y), other)
    {
      SetFinds(v, key, x, other);
      SetFinds(w, key, y, other);
      SetFinds(v, key, y, other);
    }
    SameFinds(Set(w, key, y), Set(v, key, y));
  }

  /** A member moved away and back. */
  lemma MovedBack(v: Json, from: string, to: string, moved: Json)
    requires SortedObject(v) && from != to && Find(v, from).Some? && Find(v, to).None?
    ensures var w := Set(Erase(v, from), to, moved);
      && SortedObject(w) && Find(w, from).None? && Find(w, to) == Some(moved)
      && Set(Erase(w, to), from, Find(v, from).value) == v
  {
    hide Find, Set, Erase, SortedObject;
    var e := Erase(v, from);
    var w := Set(e, to, moved);
    var d := Erase(w, to);
    var u := Set(d, from, Find(v, from).value);
    EraseFinds(v, from, from);
    SetFinds(e, to, moved, from);
    SetFinds(e, to, moved, to);
    EraseFinds(w, to, from);
    SetFinds(d, from, Find(v, from).value, from);
    forall other
      ensures Find(u, other) == Find(v, other)
    {
      EraseFinds(v, from, other);
      SetFinds(e, to, moved, other);
      EraseFinds(w, to, other);
      SetFinds(d, from, Find(v, from).value, other);
    }
    SameFinds(u, v);
  }

  /** A member erased, then set to what it was. */
  lemma ErasedBack(v: Json, key: string)
    requires SortedObject(v) && Find(v, key).Some?
    ensures SortedObject(Erase(v, key)) && Set(Erase(v, key), key, Find(v, key).value) == v
  {
    hide Find, Set, Erase, SortedObject;
    var e := Erase(v, key);
    var w := Set(e, key, Find(v, key).value);
    EraseFinds(v, key, key);
    SetFinds(e, key, Find(v, key).value, key);
    forall other
      ensures Find(w, other) == Find(v, other)
    {
      EraseFinds(v, key, other);
      SetFinds(e, key, Find(v, key).value, other);
    }
    SameFinds(w, v);
  }
}
