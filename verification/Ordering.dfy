/** Total orders, lexicographic order, sorting and removal of adjacent duplicates. */
module Ordering {

  function Min(a: int, b: int): (m: int)
    ensures m == a || m == b
  {
    if a <= b then a else b
  }

  function Max(a: int, b: int): (m: int)
    ensures m == a || m == b
  {
    if a <= b then b else a
  }

  ghost predicate TotalPreorder<T(!new)>(le: (T, T) -> bool) {
    && (forall a, b :: le(a, b) || le(b, a))
    && (forall a, b, c :: le(a, b) && le(b, c) ==> le(a, c))
  }

  ghost predicate TotalOrder<T(!new)>(le: (T, T) -> bool) {
    TotalPreorder(le) && forall a, b :: le(a, b) && le(b, a) ==> a == b
  }

  ghost predicate Sorted<T>(le: (T, T) -> bool, s: seq<T>) {
    forall i, j :: 0 <= i < j < |s| ==> le(s[i], s[j])
  }

  ghost predicate StrictlySorted<T>(le: (T, T) -> bool, s: seq<T>) {
    forall i, j :: 0 <= i < j < |s| ==> le(s[i], s[j]) && s[i] != s[j]
  }

  // ----- lexicographic order (the order of std::string and of member lists) ---

  predicate LexLe<T(==)>(le: (T, T) -> bool, a: seq<T>, b: seq<T>) {
    if a == [] then true
    else if b == [] then false
    else if a[0] == b[0] then LexLe(le, a[1..], b[1..])
    else le(a[0], b[0])
  }

  lemma {:induction false} LexReflTotal<T(!new)>(le: (T, T) -> bool, a: seq<T>, b: seq<T>)
    requires TotalOrder(le)
    ensures LexLe(le, a, b) || LexLe(le, b, a)
    ensures LexLe(le, a, b) && LexLe(le, b, a) ==> a == b
  {
    if a == [] || b == [] {
    } else if a[0] == b[0] {
      LexReflTotal(le, a[1..], b[1..]);
      if a[1..] == b[1..] {
        assert a == [a[0]] + a[1..] && b == [b[0]] + b[1..];
      }
    }
  }

  lemma {:induction false} LexTrans<T(!new)>(le: (T, T) -> bool, a: seq<T>, b: seq<T>, c: seq<T>)
    requires TotalOrder(le) && LexLe(le, a, b) && LexLe(le, b, c)
    ensures LexLe(le, a, c)
  {
    if a != [] && a[0] == b[0] && b[0] == c[0] {
      LexTrans(le, a[1..], b[1..], c[1..]);
    }
  }

  lemma LexIsTotalOrder<T(!new)>(le: (T, T) -> bool)
    requires TotalOrder(le)
    ensures TotalOrder((a: seq<T>, b: seq<T>) => LexLe(le, a, b))
  {
    var lex := (a: seq<T>, b: seq<T>) => LexLe(le, a, b);
    forall a, b
      ensures (lex(a, b) || lex(b, a)) && (lex(a, b) && lex(b, a) ==> a == b)
    {
      LexReflTotal(le, a, b);
    }
    forall a, b, c | lex(a, b) && lex(b, c)
      ensures lex(a, c)
    {
      LexTrans(le, a, b, c);
    }
  }

  // ----- sorting --------------------------------------------------------------

  function Insert<T>(le: (T, T) -> bool, x: T, s: seq<T>): (r: seq<T>)
    ensures multiset(r) == multiset{x} + multiset(s)
    ensures |r| == |s| + 1
  {
    if s == [] then [x]
    else if le(x, s[0]) then [x] + s
    else
      assert s == [s[0]] + s[1..];
      [s[0]] + Insert(le, x, s[1..])
  }

  /** A library sort: the sorted rearrangement of s. */
  function Sort<T>(le: (T, T) -> bool, s: seq<T>): (r: seq<T>)
    ensures multiset(r) == multiset(s)
    ensures |r| == |s|
  {
    if s == [] then []
    else
      assert s == [s[0]] + s[1..];
      Insert(le, s[0], Sort(le, s[1..]))
  }

  lemma MultisetMembers<T>(a: seq<T>, b: seq<T>)
    requires multiset(a) == multiset(b)
    ensures forall x :: x in a <==> x in b
  {
    forall x
      ensures x in a <==> x in b
    {
      assert x in a <==> x in multiset(a);
      assert x in b <==> x in multiset(b);
    }
  }

  lemma {:induction false} InsertSorted<T(!new)>(le: (T, T) -> bool, x: T, s: seq<T>)
    requires TotalPreorder(le) && Sorted(le, s)
    ensures Sorted(le, Insert(le, x, s))
  {
    if s != [] && !le(x, s[0]) {
      InsertSorted(le, x, s[1..]);
      var t := Insert(le, x, s[1..]);
      forall k | 0 <= k < |t|
        ensures le(s[0], t[k])
      {
        assert t[k] in multiset(t);
        assert t[k] == x || t[k] in s[1..];
      }
    } else if s != [] {
      forall k | 0 <= k < |s|
        ensures le(x, s[k])
      {
        assert k > 0 ==> le(s[0], s[k]);
      }
    }
  }

  lemma {:induction false} SortSorts<T(!new)>(le: (T, T) -> bool, s: seq<T>)
    requires TotalPreorder(le)
    ensures Sorted(le, Sort(le, s))
  {
    if s != [] {
      SortSorts(le, s[1..]);
      InsertSorted(le, s[0], Sort(le, s[1..]));
    }
  }

  /** A stable sort leaves a sorted list as it is. */
  lemma {:induction false} SortKeepsSorted<T>(le: (T, T) -> bool, s: seq<T>)
    requires Sorted(le, s)
    ensures Sort(le, s) == s
  {
    if s != [] {
      SortKeepsSorted(le, s[1..]);
      assert s == [s[0]] + s[1..];
      assert |s| > 1 ==> le(s[0], s[1]);
    }
  }

  lemma HeadIsLeast<T(!new)>(le: (T, T) -> bool, s: seq<T>, x: T)
    requires TotalOrder(le) && StrictlySorted(le, s) && x in s
    ensures le(s[0], x)
  {
    var i :| 0 <= i < |s| && s[i] == x;
    if i > 0 { assert le(s[0], s[i]); }
  }

  /** A strictly sorted list is determined by its set of members. */
  lemma {:induction false} StrictlySortedUnique<T(!new)>(le: (T, T) -> bool, a: seq<T>, b: seq<T>)
    requires TotalOrder(le) && StrictlySorted(le, a) && StrictlySorted(le, b)
    requires forall x :: x in a <==> x in b
    ensures a == b
  {
    assert b != [] ==> b[0] in a;
    if a == [] {
      assert b == [];
    } else {
      assert a[0] in b && b[0] in a;
      HeadIsLeast(le, a, b[0]);
      HeadIsLeast(le, b, a[0]);
      forall x
        ensures x in a[1..] <==> x in b[1..]
      {
        TailMembers(le, a, x);
        TailMembers(le, b, x);
      }
      StrictlySortedUnique(le, a[1..], b[1..]);
      assert a == [a[0]] + a[1..] && b == [b[0]] + b[1..];
    }
  }

  lemma TailMembers<T>(le: (T, T) -> bool, s: seq<T>, x: T)
    requires |s| > 0 && StrictlySorted(le, s)
    ensures x in s[1..] <==> x in s && x != s[0]
  {
    if x in s && x != s[0] {
      var i :| 0 <= i < |s| && s[i] == x;
      assert s[1..][i - 1] == x;
    }
    if x in s[1..] {
      var i :| 0 <= i < |s[1..]| && s[1..][i] == x;
      assert s[i + 1] == x;
    }
  }

  // ----- removing adjacent duplicates (std::unique) ---------------------------

  function Unique<T(==)>(s: seq<T>): (r: seq<T>)
    ensures |r| <= |s| && (s != [] ==> r != [] && r[0] == s[0])
  {
    if |s| <= 1 then s
    else if s[0] == s[1] then Unique(s[1..])
    else [s[0]] + Unique(s[1..])
  }

  lemma {:induction false} UniqueMembers<T>(s: seq<T>)
    ensures forall x :: x in Unique(s) <==> x in s
  {
    if |s| > 1 {
      UniqueMembers(s[1..]);
      assert s == [s[0]] + s[1..];
      assert s[0] == s[1] ==> s[0] in s[1..];
    }
  }

  lemma {:induction false} UniqueStrict<T(!new)>(le: (T, T) -> bool, s: seq<T>)
    requires TotalOrder(le) && Sorted(le, s)
    ensures StrictlySorted(le, Unique(s))
  {
    if |s| > 1 {
      UniqueStrict(le, s[1..]);
      if s[0] != s[1] {
        var t := Unique(s[1..]);
        UniqueMembers(s[1..]);
        forall k | 0 <= k < |t|
          ensures le(s[0], t[k]) && s[0] != t[k]
        {
          assert t[k] in s[1..];
          var i :| 0 <= i < |s[1..]| && s[1..][i] == t[k];
          assert le(s[0], s[i + 1]);
          assert le(s[1], s[i + 1]) by { assert i > 0 ==> le(s[1], s[i + 1]); }
        }
      }
    }
  }

  /** What is left of a sorted list is sorted, and neighbours differ. */
  lemma {:induction false} UniqueApart<T(!new)>(le: (T, T) -> bool, s: seq<T>)
    requires Sorted(le, s)
    ensures Sorted(le, Unique(s)) && forall i :: 0 < i < |Unique(s)| ==> Unique(s)[i - 1] != Unique(s)[i]
  {
    if |s| > 1 {
      UniqueApart(le, s[1..]);
      UniqueMembers(s[1..]);
      if s[0] != s[1] {
        var t := Unique(s[1..]);
        forall k | 0 <= k < |t|
          ensures le(s[0], t[k])
        {
          assert t[k] in t;
          assert t[k] in s[1..];
          var i :| 0 <= i < |s[1..]| && s[1..][i] == t[k];
          assert le(s[0], s[i + 1]);
        }
      }
    }
  }

  /** Sorting and removing duplicates gives the strictly sorted list of the members. */
  lemma SortUnique<T(!new)>(le: (T, T) -> bool, s: seq<T>)
    requires TotalOrder(le)
    ensures StrictlySorted(le, Unique(Sort(le, s)))
    ensures forall x :: x in Unique(Sort(le, s)) <==> x in s
  {
    SortSorts(le, s);
    UniqueStrict(le, Sort(le, s));
    UniqueMembers(Sort(le, s));
    MultisetMembers(Sort(le, s), s);
  }

  /** Sorting a duplicate-free list gives a strictly sorted one. */
  lemma SortDistinct<T(!new)>(le: (T, T) -> bool, s: seq<T>)
    requires TotalOrder(le)
    requires forall i, j :: 0 <= i < j < |s| ==> s[i] != s[j]
    ensures StrictlySorted(le, Sort(le, s))
    ensures forall x :: x in Sort(le, s) <==> x in s
  {
    SortSorts(le, s);
    MultisetMembers(Sort(le, s), s);
    DistinctMultiset(s);
    var r := Sort(le, s);
    forall i, j | 0 <= i < j < |r|
      ensures r[i] != r[j]
    {
      if r[i] == r[j] {
        TwoOccurrences(r, i, j);
      }
    }
  }

  lemma {:induction false} DistinctMultiset<T>(s: seq<T>)
    requires forall i, j :: 0 <= i < j < |s| ==> s[i] != s[j]
    ensures forall x :: multiset(s)[x] <= 1
  {
    if s != [] {
      DistinctMultiset(s[1..]);
      assert s == [s[0]] + s[1..];
      assert s[0] !in s[1..];
    }
  }

  lemma TwoOccurrences<T>(s: seq<T>, i: nat, j: nat)
    requires i < j < |s| && s[i] == s[j]
    ensures multiset(s)[s[i]] >= 2
  {
    assert s == s[..j] + [s[j]] + s[j + 1..];
    assert s[i] in s[..j];
  }

  /** The first position of x. */
  function IndexOf<T(==)>(s: seq<T>, x: T): (i: nat)
    requires x in s
    ensures i < |s| && s[i] == x && x !in s[..i]
  {
    if s[0] == x then 0
    else
      assert s == [s[0]] + s[1..];
      var i := IndexOf(s[1..], x);
      assert s[..i + 1] == [s[0]] + s[1..][..i];
      i + 1
  }

  predicate NatLe(a: nat, b: nat) { a <= b }

  lemma NatLeIsTotalOrder()
    ensures TotalOrder<nat>(NatLe)
  {
  }

  // ----- rearrangements ---------------------------------------------------------

  /** q undoes p, and p takes each place of m to a place of n that holds the same. */
  ghost predicate Rearranged<T>(m: seq<T>, n: seq<T>, p: seq<nat>, q: seq<nat>) {
    && |m| == |n| == |p| == |q|
    && (forall i :: 0 <= i < |p| ==> p[i] < |q| && q[p[i]] == i)
    && (forall i :: 0 <= i < |q| ==> q[i] < |p| && p[q[i]] == i)
    && forall i :: 0 <= i < |m| ==> m[i] == n[p[i]]
  }

  function Without<T>(s: seq<T>, k: nat): (r: seq<T>)
    requires k < |s|
    ensures |r| == |s| - 1 && multiset(r) + multiset{s[k]} == multiset(s)
  {
    assert s == s[..k] + [s[k]] + s[k + 1..];
    s[..k] + s[k + 1..]
  }

  /** Leaving out the last place of m and its partner. */
  lemma RearrangedLess<T>(m: seq<T>, n: seq<T>, p: seq<nat>, q: seq<nat>) returns (p': seq<nat>, q': seq<nat>)
    requires m != [] && Rearranged(m, n, p, q)
    ensures var k := p[|m| - 1]; k < |n| && Rearranged(m[..|m| - 1], Without(n, k), p', q')
  {
    var last := |m| - 1;
    var k := p[last];
    p' := seq(last, i requires 0 <= i < last => if p[i] < k then p[i] else if p[i] > k then p[i] - 1 else 0);
    q' := seq(last, j requires 0 <= j < last => if j < k then q[j] else q[j + 1]);
    forall i | 0 <= i < last
      ensures p[i] != k
    {
      assert q[p[i]] == i && q[k] == last;
    }
  }

  /** A rearrangement has the same members, each as often. */
  lemma {:induction false} RearrangedMultiset<T>(m: seq<T>, n: seq<T>, p: seq<nat>, q: seq<nat>)
    requires Rearranged(m, n, p, q)
    ensures multiset(m) == multiset(n)
    decreases |m|
  {
    if m != [] {
      var last := |m| - 1;
      var k := p[last];
      var p', q' := RearrangedLess(m, n, p, q);
      RearrangedMultiset(m[..last], Without(n, k), p', q');
      assert m == m[..last] + [m[last]];
    }
  }

  /** And lists with the same members, each as often, are rearrangements of each other. */
  lemma {:induction false} MultisetRearranged<T>(m: seq<T>, n: seq<T>) returns (p: seq<nat>, q: seq<nat>)
    requires multiset(m) == multiset(n)
    ensures Rearranged(m, n, p, q)
    decreases |m|
  {
    assert |m| == |multiset(m)| == |multiset(n)| == |n|;
    if m == [] {
      p, q := [], [];
    } else {
      var last := |m| - 1;
      assert m[last] in multiset(n);
      var k :| 0 <= k < |n| && n[k] == m[last];
      assert multiset(m[..last]) == multiset(Without(n, k)) by {
        assert m == m[..last] + [m[last]];
        assert multiset(Without(n, k)) == multiset(n) - multiset{n[k]};
      }
      var p', q' := MultisetRearranged(m[..last], Without(n, k));
      p, q := RearrangedMore(m, n, k, p', q');
    }
  }

  /** Putting the last place of m and its partner back. */
  lemma RearrangedMore<T>(m: seq<T>, n: seq<T>, k: nat, p': seq<nat>, q': seq<nat>) returns (p: seq<nat>, q: seq<nat>)
    requires m != [] && k < |n| && n[k] == m[|m| - 1] && Rearranged(m[..|m| - 1], Without(n, k), p', q')
    ensures Rearranged(m, n, p, q)
  {
    var last := |m| - 1;
    p := seq(|m|, i requires 0 <= i < |m| => if i == last then k else if p'[i] < k then p'[i] else p'[i] + 1);
    q := seq(|n|, j requires 0 <= j < |n| => if j < k then q'[j] else if j == k then last else q'[j - 1]);
    forall i | 0 <= i < last
      ensures m[i] == n[p[i]]
    {
      assert m[..last][i] == Without(n, k)[p'[i]];
    }
  }

  lemma HeadBelow<T>(le: (T, T) -> bool, r: seq<T>, x: T)
    requires Sorted(le, r) && x in r
    ensures x == r[0] || le(r[0], x)
  {
    var i :| 0 <= i < |r| && r[i] == x;
  }

  /** The rest of two rearrangements with one head. */
  lemma TailsRearranged<T>(r: seq<T>, r': seq<T>)
    requires r != [] && r' != [] && r[0] == r'[0] && multiset(r) == multiset(r')
    ensures multiset(r[1..]) == multiset(r'[1..])
  {
    assert r == [r[0]] + r[1..] && r' == [r'[0]] + r'[1..];
    assert multiset(r[1..]) == multiset(r) - multiset{r[0]};
    assert multiset(r'[1..]) == multiset(r') - multiset{r'[0]};
  }

  ghost predicate Antisymmetric<T(!new)>(le: (T, T) -> bool, r: seq<T>) {
    forall a, b :: a in r && b in r && le(a, b) && le(b, a) ==> a == b
  }

  lemma AntisymmetricTail<T(!new)>(le: (T, T) -> bool, r: seq<T>)
    requires Antisymmetric(le, r) && r != []
    ensures Antisymmetric(le, r[1..])
  {
    assert forall x :: x in r[1..] ==> x in r;
  }

  /** Two sorted rearrangements are equal when no two different members are in order both ways round. */
  lemma {:induction false} SortedAlike<T(!new)>(le: (T, T) -> bool, r: seq<T>, r': seq<T>)
    requires Sorted(le, r) && Sorted(le, r') && multiset(r) == multiset(r') && Antisymmetric(le, r)
    ensures r == r'
  {
    assert |r| == |multiset(r)| == |multiset(r')| == |r'|;
    if r != [] {
      MultisetMembers(r, r');
      assert r[0] in r && r'[0] in r';
      HeadBelow(le, r, r'[0]);
      HeadBelow(le, r', r[0]);
      assert r[0] == r'[0];
      TailsRearranged(r, r');
      AntisymmetricTail(le, r);
      hide Antisymmetric;
      SortedAlike(le, r[1..], r'[1..]);
      assert r == [r[0]] + r[1..] && r' == [r'[0]] + r'[1..];
    }
  }

  // ----- a stable sort keeps the order of equals -----------------------------------

  function Select<T>(p: T -> bool, s: seq<T>): seq<T> {
    if s == [] then [] else (if p(s[0]) then [s[0]] else []) + Select(p, s[1..])
  }

  lemma {:induction false} InsertSelects<T(!new)>(le: (T, T) -> bool, p: T -> bool, x: T, s: seq<T>)
    requires forall a, b :: p(a) && p(b) ==> le(a, b)
    ensures Select(p, Insert(le, x, s)) == Select(p, [x]) + Select(p, s)
  {
    if s == [] || le(x, s[0]) {
      assert ([x] + s)[1..] == s && [x][1..] == [];
    } else {
      InsertSelects(le, p, x, s[1..]);
      assert ([s[0]] + Insert(le, x, s[1..]))[1..] == Insert(le, x, s[1..]);
      assert [x][1..] == [];
    }
  }

  /** Members that are all in order both ways round come out of the sort as they went in. */
  lemma {:induction false} SortSelects<T(!new)>(le: (T, T) -> bool, p: T -> bool, s: seq<T>)
    requires forall a, b :: p(a) && p(b) ==> le(a, b)
    ensures Select(p, Sort(le, s)) == Select(p, s)
  {
    if s != [] {
      hide Insert;
      SortSelects(le, p, s[1..]);
      InsertSelects(le, p, s[0], Sort(le, s[1..]));
      SelectOne(p, s[0]);
      assert Sort(le, s) == Insert(le, s[0], Sort(le, s[1..]));
    }
  }

  lemma SelectOne<T>(p: T -> bool, x: T)
    ensures Select(p, [x]) == if p(x) then [x] else []
  {
    assert [x][1..] == [];
  }

  /** Exchanging two different ones among them shows. */
  lemma {:induction false} SwapShows<T>(p: T -> bool, s: seq<T>, i: nat, j: nat)
    requires i < j < |s| && p(s[i]) && p(s[j]) && s[i] != s[j]
    ensures Select(p, s[i := s[j]][j := s[i]]) != Select(p, s)
    decreases i
  {
    var other := s[i := s[j]][j := s[i]];
    if i > 0 {
      SwapShows(p, s[1..], i - 1, j - 1);
      assert other[1..] == s[1..][i - 1 := s[1..][j - 1]][j - 1 := s[1..][i - 1]];
      SelectTail(p, s, other);
    } else {
      assert other[0] == s[j];
      assert Select(p, other)[0] == s[j] && Select(p, s)[0] == s[0];
    }
  }

  lemma SelectTail<T>(p: T -> bool, s: seq<T>, t: seq<T>)
    requires s != [] && t != [] && s[0] == t[0]
    ensures Select(p, s) == Select(p, t) <==> Select(p, s[1..]) == Select(p, t[1..])
  {
    var h := if p(s[0]) then [s[0]] else [];
    assert (h + Select(p, s[1..]))[|h|..] == Select(p, s[1..]);
    assert (h + Select(p, t[1..]))[|h|..] == Select(p, t[1..]);
  }
}
