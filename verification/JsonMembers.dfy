/** The sorted member list of an object, edited in place (src/json.cpp:107-119, 189-234). */
module JsonMembers {
  import opened Identities
  import opened Ordering
  import opened JsonValues
  import opened JsonGrammar

  ghost predicate SortedMembers(members: seq<Member>) { StrictlySorted(StrLe, Keys(members)) }

  /** The members before p are below the key, those from p on are not. */
  ghost predicate Bounds(members: seq<Member>, key: string, p: nat) {
    && p <= |members|
    && (forall i :: 0 <= i < p ==> StrLt(members[i].key, key))
    && forall i :: p <= i < |members| ==> !StrLt(members[i].key, key)
  }

  lemma {:induction false} BoundsDecide(members: seq<Member>, key: string, p: nat)
    requires Bounds(members, key, p)
    ensures p == LowerBound(members, key)
    decreases |members|
  {
    hide StrLt;
    if members != [] && p > 0 {
      BoundsDecide(members[1..], key, p - 1);
    }
  }

  lemma StrLtTransitive(a: string, b: string, c: string)
    requires (StrLe(a, b) && StrLt(b, c)) || (StrLt(a, b) && StrLe(b, c))
    ensures StrLt(a, c)
  {
    hide StrLe;
    StrLeIsTotalOrder();
  }

  /** std::lower_bound: halving the range that holds the answer. */
  method FindLowerBound(members: seq<Member>, key: string) returns (p: nat)
    requires SortedMembers(members)
    ensures p == LowerBound(members, key) && Bounds(members, key, p)
    ensures p < |members| && members[p].key == key <==> key in Keys(members)
  {
    hide StrLe, StrLt;
    var low, high := 0, |members|;
    while low < high
      invariant low <= high <= |members|
      invariant forall i :: 0 <= i < low ==> StrLt(members[i].key, key)
      invariant forall i :: high <= i < |members| ==> !StrLt(members[i].key, key)
    {
      var middle := (low + high) / 2;
      SortedAround(members, middle, key);
      if StrLt(members[middle].key, key) {
        low := middle + 1;
      } else {
        high := middle;
      }
    }
    p := low;
    BoundsDecide(members, key, p);
    BoundFinds(members, key, p);
  }

  lemma SortedAround(members: seq<Member>, middle: nat, key: string)
    requires SortedMembers(members) && middle < |members|
    ensures StrLt(members[middle].key, key) ==> forall i :: 0 <= i <= middle ==> StrLt(members[i].key, key)
    ensures !StrLt(members[middle].key, key) ==> forall i :: middle <= i < |members| ==> !StrLt(members[i].key, key)
  {
    hide StrLe;
    StrLeIsTotalOrder();
    var ks := Keys(members);
    forall i | 0 <= i < middle && StrLt(ks[middle], key)
      ensures StrLt(ks[i], key)
    {
      StrLtTransitive(ks[i], ks[middle], key);
    }
    forall i | middle < i < |ks| && StrLt(ks[i], key)
      ensures StrLt(ks[middle], key)
    {
      StrLtTransitive(ks[middle], ks[i], key);
    }
  }

  lemma BoundFinds(members: seq<Member>, key: string, p: nat)
    requires SortedMembers(members) && Bounds(members, key, p)
    ensures p < |members| && members[p].key == key <==> key in Keys(members)
  {
    hide StrLe;
    StrLeIsTotalOrder();
    var ks := Keys(members);
    if key in ks {
      var i :| 0 <= i < |ks| && ks[i] == key;
      assert !StrLt(members[i].key, key);
      assert p <= i;
      assert !StrLt(members[p].key, key) && members[p].key == ks[p];
      assert StrLe(ks[p], ks[i]);
    } else if p < |members| {
      assert ks[p] == members[p].key;
    }
  }

  lemma {:induction false} BoundSplits(members: seq<Member>, key: string)
    requires StrictlySorted(StrLe, Keys(members)) && key !in Keys(members)
    ensures var p := LowerBound(members, key);
      && (forall i :: 0 <= i < p ==> StrLt(members[i].key, key))
      && (forall i :: p <= i < |members| ==> StrLt(key, members[i].key))
  {
    hide StrLe;
    StrLeIsTotalOrder();
    if members != [] {
      assert Keys(members)[0] == members[0].key;
      if StrLt(members[0].key, key) {
        assert Keys(members[1..]) == Keys(members)[1..];
        BoundSplits(members[1..], key);
      } else {
        forall i | 0 <= i < |members|
          ensures StrLt(key, members[i].key)
        {
          assert Keys(members)[i] == members[i].key;
          assert StrLe(key, members[0].key) && (i > 0 ==> StrLe(Keys(members)[0], Keys(members)[i]));
        }
      }
    }
  }

  /** An insertion keeps the list sorted. */
  lemma InsertedSorted(members: seq<Member>, key: string, value: Json)
    requires StrictlySorted(StrLe, Keys(members)) && key !in Keys(members)
    ensures StrictlySorted(StrLe, Keys(Inserted(members, key, value)))
  {
    hide StrLe, LowerBound;
    StrLeIsTotalOrder();
    BoundSplits(members, key);
    var p, all := LowerBound(members, key), Keys(Inserted(members, key, value));
    assert all == Keys(members)[..p] + [key] + Keys(members)[p..];
    forall i, j | 0 <= i < j < |all|
      ensures StrLe(all[i], all[j]) && all[i] != all[j]
    {
      var ks := Keys(members);
      if j < p {
      } else if i < p && p < j {
        assert all[i] == ks[i] && all[j] == ks[j - 1];
      } else if p < i {
        assert all[i] == ks[i - 1] && all[j] == ks[j - 1];
      }
    }
  }

  lemma InsertedKeys(members: seq<Member>, key: string, value: Json, other: string)
    ensures |Inserted(members, key, value)| == |members| + 1
    ensures other in Keys(Inserted(members, key, value)) <==> other == key || other in Keys(members)
  {
    hide StrLt;
    var p := LowerBound(members, key);
    assert Keys(Inserted(members, key, value)) == Keys(members)[..p] + [key] + Keys(members)[p..];
    assert Keys(members) == Keys(members)[..p] + Keys(members)[p..];
  }

  /** The map a member list stands for. */
  ghost function AsMap(members: seq<Member>): map<string, Json> {
    map k | k in Keys(members) :: members[IndexOf(Keys(members), k)].value
  }

  lemma AsMapAt(members: seq<Member>, i: nat)
    requires SortedMembers(members) && i < |members|
    ensures members[i].key in AsMap(members) && AsMap(members)[members[i].key] == members[i].value
  {
    hide StrLe;
    var ks := Keys(members);
    var k := IndexOf(ks, ks[i]);
    assert ks[k] == ks[i];
  }

  /** A sorted list is determined by its map. */
  lemma AsMapDecides(x: seq<Member>, y: seq<Member>)
    requires SortedMembers(x) && SortedMembers(y) && AsMap(x) == AsMap(y)
    ensures x == y
  {
    hide StrLe;
    StrLeIsTotalOrder();
    forall k
      ensures k in Keys(x) <==> k in Keys(y)
    {
      assert k in AsMap(x) <==> k in AsMap(y);
    }
    StrictlySortedUnique(StrLe, Keys(x), Keys(y));
    forall i | 0 <= i < |x|
      ensures x[i] == y[i]
    {
      AsMapAt(x, i);
      AsMapAt(y, i);
      assert Keys(x)[i] == Keys(y)[i];
    }
    assert |x| == |Keys(x)| == |y|;
  }

  lemma MapsAgree(members: seq<Member>, m: map<string, Json>)
    requires SortedMembers(members)
    requires forall i :: 0 <= i < |members| ==> members[i].key in m && m[members[i].key] == members[i].value
    requires forall k :: k in m ==> k in Keys(members)
    ensures AsMap(members) == m
  {
    hide StrLe;
    forall k
      ensures k in AsMap(members) <==> k in m
    {
      if k in Keys(members) {
        var i := IndexOf(Keys(members), k);
        assert members[i].key in m;
      }
    }
  }

  lemma InsertedMap(members: seq<Member>, key: string, value: Json)
    requires SortedMembers(members) && key !in Keys(members)
    ensures SortedMembers(Inserted(members, key, value))
    ensures AsMap(Inserted(members, key, value)) == AsMap(members)[key := value]
  {
    hide StrLe, LowerBound, IndexOf;
    InsertedSorted(members, key, value);
    var p, all, m := LowerBound(members, key), Inserted(members, key, value), AsMap(members)[key := value];
    forall i | 0 <= i < |all|
      ensures all[i].key in m && m[all[i].key] == all[i].value
    {
      if i < p {
        AsMapAt(members, i);
      } else if i > p {
        AsMapAt(members, i - 1);
      }
    }
    forall k | k in m
      ensures k in Keys(all)
    {
      InsertedKeys(members, key, value, k);
    }
    MapsAgree(all, m);
  }

  lemma ReplacedMap(members: seq<Member>, p: nat, value: Json)
    requires SortedMembers(members) && p < |members|
    ensures var changed := members[p := members[p].(value := value)];
      SortedMembers(changed) && AsMap(changed) == AsMap(members)[members[p].key := value]
  {
    hide StrLe;
    var changed, m := members[p := members[p].(value := value)], AsMap(members)[members[p].key := value];
    assert Keys(changed) == Keys(members);
    forall i | 0 <= i < |changed|
      ensures changed[i].key in m && m[changed[i].key] == changed[i].value
    {
      AsMapAt(members, i);
      assert Keys(members)[i] == members[i].key && Keys(members)[p] == members[p].key;
    }
    MapsAgree(changed, m);
  }

  lemma ErasedSorted(members: seq<Member>, p: nat)
    requires SortedMembers(members) && p < |members|
    ensures SortedMembers(members[..p] + members[p + 1..])
  {
    hide StrLe;
    var rest, ks := Keys(members[..p] + members[p + 1..]), Keys(members);
    forall i, j | 0 <= i < j < |rest|
      ensures StrLe(rest[i], rest[j]) && rest[i] != rest[j]
    {
      var x, y := if i < p then i else i + 1, if j < p then j else j + 1;
      assert rest[i] == ks[x] && rest[j] == ks[y] && x < y;
    }
  }

  lemma ErasedKeys(members: seq<Member>, p: nat, k: string)
    requires p < |members| && k in Keys(members) && k != members[p].key
    ensures k in Keys(members[..p] + members[p + 1..])
  {
    var ks := Keys(members);
    var i := IndexOf(ks, k);
    var rest := members[..p] + members[p + 1..];
    assert rest[if i < p then i else i - 1] == members[i];
    assert Keys(rest)[if i < p then i else i - 1] == k;
  }

  lemma ErasedMap(members: seq<Member>, p: nat)
    requires SortedMembers(members) && p < |members|
    ensures var rest := members[..p] + members[p + 1..];
      SortedMembers(rest) && AsMap(rest) == AsMap(members) - {members[p].key}
  {
    hide StrLe, IndexOf;
    ErasedSorted(members, p);
    var rest, m := members[..p] + members[p + 1..], AsMap(members) - {members[p].key};
    forall i | 0 <= i < |rest|
      ensures rest[i].key in m && m[rest[i].key] == rest[i].value
    {
      var j := if i < p then i else i + 1;
      assert rest[i] == members[j];
      AsMapAt(members, j);
      KeysDiffer(members, j, p);
    }
    forall k | k in m
      ensures k in Keys(rest)
    {
      ErasedKeys(members, p, k);
    }
    MapsAgree(rest, m);
  }

  lemma KeysDiffer(members: seq<Member>, i: nat, j: nat)
    requires SortedMembers(members) && i < |members| && j < |members| && i != j
    ensures members[i].key != members[j].key
  {
    hide StrLe;
    assert Keys(members)[i] != Keys(members)[j];
  }
}
