/** Observable capacity of a scope and reservations beyond it (src/conflict.cpp:148-173, 470-538, src/core.cpp:319-324, 362-368). */
module Overcommit {
  import opened Ordering
  import opened Identities
  import opened Documents
  import opened Scopes

  /** The sum, unless it does not fit in 64 bits. */
  function CheckedAdd(a: U64, b: U64): (r: Option<U64>)
    ensures r == if a + b <= MAX_U64 then Some(a + b) else None
  {
    if a > MAX_U64 - b then None else Some(a + b)
  }

  function SaturatingAdd(a: U64, b: U64): (r: U64)
    ensures r == Min(MAX_U64, a + b)
  {
    if a > MAX_U64 - b then MAX_U64 else a + b
  }

  // ----- what a scope offers, by a plain scan ------------------------------------------------

  predicate Contributes(l: Link) { l.admin == Enabled && l.capacityBps != 0 }

  function Share(doc: Document, l: nat): nat {
    if l < |doc.links| && Contributes(doc.links[l]) then doc.links[l].capacityBps else 0
  }

  function Vote(doc: Document, l: nat): nat { if l < |doc.links| && Contributes(doc.links[l]) then 1 else 0 }

  /** The capacity of the enabled links of the scope among the first n, each counted once. */
  ghost function ScopeSum(doc: Document, scope: AnyId, n: nat): nat {
    if n == 0 then 0
    else ScopeSum(doc, scope, n - 1) + if LinkInScope(doc, scope, n - 1) then Share(doc, n - 1) else 0
  }

  ghost predicate HasContributor(doc: Document, scope: AnyId) {
    CanScope(scope.klass) && exists l: nat :: LinkInScope(doc, scope, l) && Vote(doc, l) > 0
  }

  /** No two links of the scope share an identity. */
  ghost predicate DistinctInScope(doc: Document, scope: AnyId) {
    forall l: nat :: LinkInScope(doc, scope, l) ==> !SharesIdentity(doc, scope, l)
  }

  lemma DistinctLinksSuffice(doc: Document, scope: AnyId)
    requires DistinctLinks(doc)
    ensures DistinctInScope(doc, scope)
  {
    hide TouchesScope, FirstLink;
  }

  datatype ScopeCapacity = ScopeCapacity(capacityBps: U64, contributingLinks: U64, known: bool)

  function SumOf(doc: Document, list: seq<nat>): nat {
    if list == [] then 0 else SumOf(doc, list[..|list| - 1]) + Share(doc, list[|list| - 1])
  }

  function VotesOf(doc: Document, list: seq<nat>): nat {
    if list == [] then 0 else VotesOf(doc, list[..|list| - 1]) + Vote(doc, list[|list| - 1])
  }

  method ObserveCapacity(index: TopologyIndex, scope: AnyId) returns (c: ScopeCapacity)
    requires index.Valid()
    ensures c.known <==> HasContributor(index.document, scope)
    ensures c.known ==> c.capacityBps >= Min(MAX_U64, ScopeSum(index.document, scope, |index.document.links|))
    ensures c.known && DistinctInScope(index.document, scope) ==>
      c.capacityBps == Min(MAX_U64, ScopeSum(index.document, scope, |index.document.links|))
  {
    hide LinkInScope, Contributes, SharesIdentity, Repeats;
    ghost var doc := index.document;
    var capacityBps: U64, contributing: U64 := 0, 0;
    var ok, links := index.LinksOfScope(scope);
    if !ok {
      return ScopeCapacity(0, 0, false);
    }
    for k := 0 to |links|
      invariant capacityBps == Min(MAX_U64, SumOf(doc, links[..k]))
      invariant contributing == Min(MAX_U64, VotesOf(doc, links[..k]))
    {
      InRange(doc, scope, links, k);
      var link := index.document.links[links[k]];
      assert links[..k + 1][..k] == links[..k];
      NoShare(doc, links[k]);
      if link.admin != Enabled {
        continue;
      }
      if link.capacityBps == 0 {
        continue;
      }
      var sum := CheckedAdd(capacityBps, link.capacityBps);
      contributing := SaturatingAdd(contributing, 1);
      if sum.None? {
        capacityBps := MAX_U64;
        continue;
      }
      capacityBps := sum.value;
    }
    assert links[..|links|] == links;
    VotesPositive(doc, links);
    KnownIff(doc, scope, links);
    SumCoversScan(doc, scope, links);
    if DistinctInScope(doc, scope) {
      NoRepetition(doc, scope, links);
      SumIsScan(doc, scope, links);
    }
    c := ScopeCapacity(capacityBps, contributing, contributing > 0);
  }

  lemma InRange(doc: Document, scope: AnyId, links: seq<nat>, k: nat)
    requires k < |links| && forall l: nat :: l in links <==> LinkInScope(doc, scope, l)
    ensures links[k] < |doc.links|
  {
    assert links[k] in links;
  }

  lemma NoShare(doc: Document, l: nat)
    requires l < |doc.links|
    ensures var link := doc.links[l];
      if link.admin == Enabled && link.capacityBps != 0 then Share(doc, l) == link.capacityBps && Vote(doc, l) == 1
      else Share(doc, l) == 0 && Vote(doc, l) == 0
  {
  }

  lemma {:induction false} VotesPositive(doc: Document, list: seq<nat>)
    ensures VotesOf(doc, list) > 0 <==> exists l: nat :: l in list && Vote(doc, l) > 0
  {
    if list != [] {
      var last := list[|list| - 1];
      VotesPositive(doc, list[..|list| - 1]);
      assert list == list[..|list| - 1] + [last];
    }
  }

  lemma KnownIff(doc: Document, scope: AnyId, links: seq<nat>)
    requires CanScope(scope.klass) && forall l: nat :: l in links <==> LinkInScope(doc, scope, l)
    ensures (exists l: nat :: l in links && Vote(doc, l) > 0) <==> HasContributor(doc, scope)
  {
    hide LinkInScope, Contributes;
    if HasContributor(doc, scope) {
      var l: nat :| LinkInScope(doc, scope, l) && Vote(doc, l) > 0;
      assert l in links;
    }
    if exists l: nat :: l in links && Vote(doc, l) > 0 {
      var l: nat :| l in links && Vote(doc, l) > 0;
      assert LinkInScope(doc, scope, l);
    }
  }

  /** The sum over a list without repetitions is the sum over its members below a bound. */
  ghost function SumBelow(doc: Document, members: set<nat>, n: nat): nat {
    if n == 0 then 0 else SumBelow(doc, members, n - 1) + if n - 1 in members then Share(doc, n - 1) else 0
  }

  lemma {:induction false} OneMoreMember(doc: Document, members: set<nat>, x: nat, n: nat)
    requires x !in members
    ensures SumBelow(doc, members + {x}, n) == SumBelow(doc, members, n) + if x < n then Share(doc, x) else 0
  {
    if n > 0 {
      OneMoreMember(doc, members, x, n - 1);
    }
  }

  lemma {:induction false} NoMembers(doc: Document, n: nat)
    ensures SumBelow(doc, {}, n) == 0
  {
    if n > 0 {
      NoMembers(doc, n - 1);
    }
  }

  ghost predicate DistinctBelow(list: seq<nat>, n: nat) {
    && (forall i :: 0 <= i < |list| ==> list[i] < n)
    && forall i, j :: 0 <= i < j < |list| ==> list[i] != list[j]
  }

  ghost function Members(list: seq<nat>): set<nat> { set l: nat | l in list }

  lemma {:induction false} SumIsBelow(doc: Document, list: seq<nat>, n: nat)
    requires DistinctBelow(list, n)
    ensures SumOf(doc, list) == SumBelow(doc, Members(list), n)
  {
    hide Share;
    if list == [] {
      NoMembers(doc, n);
      assert Members(list) == {};
    } else {
      var front, last := list[..|list| - 1], list[|list| - 1];
      SumIsBelow(doc, front, n);
      assert list == front + [last];
      assert Members(list) == Members(front) + {last};
      OneMoreMember(doc, Members(front), last, n);
    }
  }

  lemma {:induction false} ScanIsBelow(doc: Document, scope: AnyId, members: set<nat>, n: nat)
    requires forall l: nat :: l in members <==> LinkInScope(doc, scope, l)
    ensures ScopeSum(doc, scope, n) == SumBelow(doc, members, n)
  {
    hide LinkInScope, Share;
    if n > 0 {
      ScanIsBelow(doc, scope, members, n - 1);
      assert n - 1 in members <==> LinkInScope(doc, scope, n - 1);
    }
  }

  lemma SumIsScan(doc: Document, scope: AnyId, links: seq<nat>)
    requires forall l: nat :: l in links <==> LinkInScope(doc, scope, l)
    requires forall i, j :: 0 <= i < j < |links| ==> links[i] != links[j]
    ensures SumOf(doc, links) == ScopeSum(doc, scope, |doc.links|)
  {
    hide LinkInScope;
    forall i | 0 <= i < |links|
      ensures links[i] < |doc.links|
    {
      InRange(doc, scope, links, i);
    }
    SumIsBelow(doc, links, |doc.links|);
    ScanIsBelow(doc, scope, Members(links), |doc.links|);
  }

  lemma NoRepetition(doc: Document, scope: AnyId, links: seq<nat>)
    requires DistinctInScope(doc, scope) && forall l: nat :: l in links <==> LinkInScope(doc, scope, l)
    requires forall l: nat :: Repeats(links, l) ==> SharesIdentity(doc, scope, l)
    ensures forall i, j :: 0 <= i < j < |links| ==> links[i] != links[j]
  {
    hide LinkInScope, SharesIdentity;
    forall i, j | 0 <= i < j < |links|
      ensures links[i] != links[j]
    {
      assert links[i] in links;
      assert links[i] == links[j] ==> Repeats(links, links[i]);
    }
  }

  lemma {:induction false} SumIsAtLeast(doc: Document, list: seq<nat>, n: nat)
    requires forall i :: 0 <= i < |list| ==> list[i] < n
    ensures SumOf(doc, list) >= SumBelow(doc, Members(list), n)
  {
    hide Share;
    if list == [] {
      NoMembers(doc, n);
      assert Members(list) == {};
    } else {
      var front, last := list[..|list| - 1], list[|list| - 1];
      SumIsAtLeast(doc, front, n);
      assert list == front + [last];
      if last in front {
        assert Members(list) == Members(front);
      } else {
        assert Members(list) == Members(front) + {last};
        OneMoreMember(doc, Members(front), last, n);
      }
    }
  }

  /** Whatever is left twice, every link of the scope is counted. */
  lemma SumCoversScan(doc: Document, scope: AnyId, links: seq<nat>)
    requires forall l: nat :: l in links <==> LinkInScope(doc, scope, l)
    ensures SumOf(doc, links) >= ScopeSum(doc, scope, |doc.links|)
  {
    hide LinkInScope;
    forall i | 0 <= i < |links|
      ensures links[i] < |doc.links|
    {
      InRange(doc, scope, links, i);
    }
    SumIsAtLeast(doc, links, |doc.links|);
    ScanIsBelow(doc, scope, Members(links), |doc.links|);
  }

  // ----- reservations ----------------------------------------------------------------------------

  /** What a policy reserves on a scope. */
  function ReservedBy(p: Policy, scope: AnyId): nat {
    if p.body.Capacity? && ParseId(p.body.scope) == Some(scope) then p.body.reservedBps else 0
  }

  /** What the first n policies reserve on a scope. */
  function TotalReserved(doc: Document, scope: AnyId, n: nat): nat
    requires n <= |doc.policies|
  {
    if n == 0 then 0 else TotalReserved(doc, scope, n - 1) + ReservedBy(doc.policies[n - 1], scope)
  }

  /** The reservations on a scope add up to more than its observable capacity. */
  ghost predicate Overcommitted(doc: Document, scope: AnyId) {
    && HasContributor(doc, scope)
    && TotalReserved(doc, scope, |doc.policies|) > Min(MAX_U64, ScopeSum(doc, scope, |doc.links|))
  }

  datatype Group = Group(scope: AnyId, amounts: seq<U64>)

  function Total(amounts: seq<U64>): nat {
    if amounts == [] then 0 else Total(amounts[..|amounts| - 1]) + amounts[|amounts| - 1]
  }

  /** The groups hold the reservations of the first n policies, by the text of their scope. */
  ghost predicate Grouped(doc: Document, groups: map<string, Group>, n: nat)
    requires n <= |doc.policies|
  {
    && (forall text :: text in groups ==> Str(groups[text].scope) == text)
    && forall scope :: TotalReserved(doc, scope, n) == if Str(scope) in groups then Total(groups[Str(scope)].amounts) else 0
  }

  method GroupReservations(doc: Document) returns (groups: map<string, Group>)
    ensures Grouped(doc, groups, |doc.policies|)
  {
    hide ParseId, Str, Total;
    groups := map[];
    for i := 0 to |doc.policies|
      invariant Grouped(doc, groups, i)
    {
      var policy := doc.policies[i];
      if !policy.body.Capacity? || policy.body.reservedBps == 0 {
        continue;
      }
      var scope := ParseId(policy.body.scope);
      if scope.None? {
        continue;
      }
      var text, amount := Str(scope.value), policy.body.reservedBps;
      var amounts := if text in groups then groups[text].amounts else [];
      AmountAdded(amounts, amount);
      ghost var was := groups;
      groups := groups[text := Group(scope.value, amounts + [amount])];
      forall other
        ensures TotalReserved(doc, other, i + 1) == if Str(other) in groups then Total(groups[Str(other)].amounts) else 0
      {
        if Str(other) == text {
          StrInjective(other, scope.value);
        }
      }
    }
  }

  lemma AmountAdded(amounts: seq<U64>, amount: U64)
    ensures Total(amounts + [amount]) == Total(amounts) + amount
    ensures Total([]) == 0
  {
    assert (amounts + [amount])[..|amounts|] == amounts;
  }

  /** Adds the amounts up, and says whether the sum left 64 bits. */
  method AddUp(amounts: seq<U64>) returns (total: U64, overflow: bool)
    ensures overflow ==> Total(amounts) > MAX_U64
    ensures !overflow ==> total == Total(amounts)
  {
    total, overflow := 0, false;
    for k := 0 to |amounts|
      invariant total == Total(amounts[..k]) && !overflow
    {
      assert amounts[..k + 1] == amounts[..k] + [amounts[k]];
      AmountAdded(amounts[..k], amounts[k]);
      var sum := CheckedAdd(total, amounts[k]);
      if sum.None? {
        overflow := true;
        TotalGrows(amounts, k + 1);
        return;
      }
      total := sum.value;
    }
    assert amounts[..|amounts|] == amounts;
  }

  lemma {:induction false} TotalGrows(amounts: seq<U64>, k: nat)
    requires k <= |amounts|
    ensures Total(amounts[..k]) <= Total(amounts)
    decreases |amounts|
  {
    if k < |amounts| {
      TotalGrows(amounts[..|amounts| - 1], k);
      assert amounts[..|amounts| - 1][..k] == amounts[..k];
    } else {
      assert amounts[..k] == amounts;
    }
  }

  /**
   * A conflict is raised only for scopes that are overcommitted, once each, and for every such scope in which
   * no two links share an identity.
   */
  method DetectOvercommit(index: TopologyIndex) returns (conflicts: seq<AnyId>)
    requires index.Valid()
    ensures forall scope :: scope in conflicts ==> Overcommitted(index.document, scope)
    ensures forall scope :: DistinctInScope(index.document, scope) ==> (scope in conflicts <==> Overcommitted(index.document, scope))
    ensures forall i, j :: 0 <= i < j < |conflicts| ==> conflicts[i] != conflicts[j]
  {
    hide StrLe, HasContributor, DistinctInScope, Str, ParseId, Total;
    ghost var doc := index.document;
    var groups := GroupReservations(index.document);
    conflicts := [];
    var rest := groups.Keys;
    while rest != {}
      invariant rest <= groups.Keys
      invariant forall scope :: scope in conflicts ==> Str(scope) in groups && Str(scope) !in rest
      invariant forall scope :: scope in conflicts ==> Overcommitted(doc, scope)
      invariant forall scope :: DistinctInScope(doc, scope) && Str(scope) in groups && Str(scope) !in rest ==>
        (scope in conflicts <==> Overcommitted(doc, scope))
      invariant forall i, j :: 0 <= i < j < |conflicts| ==> conflicts[i] != conflicts[j]
      decreases rest
    {
      LeastKeyExists(rest);
      var text :| LeastKey(text, rest);
      rest := rest - {text};
      var group := groups[text];
      SameScope(group.scope);
      var capacity := ObserveCapacity(index, group.scope);
      if !capacity.known {
        continue;
      }
      var total, overflow := AddUp(group.amounts);
      if !overflow && total <= capacity.capacityBps {
        continue;
      }
      conflicts := conflicts + [group.scope];
    }
  }

  lemma SameScope(scope: AnyId)
    ensures forall other :: Str(other) == Str(scope) ==> other == scope
  {
    hide Str;
    forall other | Str(other) == Str(scope)
      ensures other == scope
    {
      StrInjective(other, scope);
    }
  }

  // ----- the verdict by the declarations alone -----------------------------------------------------

  /** The sum of f over the places before n. */
  ghost function SumOver(n: nat, f: nat -> nat): nat { if n == 0 then 0 else SumOver(n - 1, f) + f(n - 1) }

  /** The capacity policies that name the scope, added up. */
  ghost function Reserved(doc: Document, scope: AnyId): nat {
    SumOver(|doc.policies|, (i: nat) =>
      if i < |doc.policies| && doc.policies[i].body.Capacity? && doc.policies[i].body.scope == Str(scope)
      then doc.policies[i].body.reservedBps else 0)
  }

  /** The enabled links of the scope, added up. */
  ghost function Offered(doc: Document, scope: AnyId): nat {
    SumOver(|doc.links|, (l: nat) =>
      if LinkInScope(doc, scope, l) && doc.links[l].admin == Enabled then doc.links[l].capacityBps else 0)
  }

  /** An enabled link of the scope has a capacity. */
  ghost predicate Observable(doc: Document, scope: AnyId) {
    CanScope(scope.klass)
    && exists l: nat :: LinkInScope(doc, scope, l) && doc.links[l].admin == Enabled && doc.links[l].capacityBps > 0
  }

  lemma {:induction false} TotalIsSum(doc: Document, scope: AnyId, n: nat)
    requires n <= |doc.policies| && ValidName(scope.local)
    ensures TotalReserved(doc, scope, n) == SumOver(n, (i: nat) =>
      if i < |doc.policies| && doc.policies[i].body.Capacity? && doc.policies[i].body.scope == Str(scope)
      then doc.policies[i].body.reservedBps else 0)
  {
    hide ParseId, Str, ValidName;
    if n > 0 {
      TotalIsSum(doc, scope, n - 1);
      if doc.policies[n - 1].body.Capacity? {
        ParseInvertsStr(doc.policies[n - 1].body.scope, scope);
      }
    }
  }

  lemma {:induction false} ScanIsSum(doc: Document, scope: AnyId, n: nat)
    requires n <= |doc.links|
    ensures ScopeSum(doc, scope, n) == SumOver(n, (l: nat) =>
      if LinkInScope(doc, scope, l) && doc.links[l].admin == Enabled then doc.links[l].capacityBps else 0)
  {
    hide TouchesScope, FirstLink;
    if n > 0 {
      ScanIsSum(doc, scope, n - 1);
    }
  }

  lemma OvercommittedIff(doc: Document, scope: AnyId)
    requires ValidName(scope.local)
    ensures Overcommitted(doc, scope) <==> Observable(doc, scope) && Reserved(doc, scope) > Min(MAX_U64, Offered(doc, scope))
  {
    hide TouchesScope, FirstLink, ValidName, Str, ScopeSum, TotalReserved, SumOver;
    TotalIsSum(doc, scope, |doc.policies|);
    ScanIsSum(doc, scope, |doc.links|);
    if HasContributor(doc, scope) {
      var l: nat :| LinkInScope(doc, scope, l) && Vote(doc, l) > 0;
      assert doc.links[l].capacityBps > 0;
    }
    if Observable(doc, scope) {
      var l: nat :| LinkInScope(doc, scope, l) && doc.links[l].admin == Enabled && doc.links[l].capacityBps > 0;
      assert Vote(doc, l) > 0;
    }
  }

  /** Main result. A valid scope in which no two links share an identity is in conflict exactly when its reservations exceed its offer. */
  method OvercommitDecides(index: TopologyIndex) returns (conflicts: seq<AnyId>)
    requires index.Valid()
    ensures forall scope: AnyId :: ValidName(scope.local) && scope in conflicts ==>
      Observable(index.document, scope) && Reserved(index.document, scope) > Min(MAX_U64, Offered(index.document, scope))
    ensures forall scope: AnyId :: ValidName(scope.local) && DistinctInScope(index.document, scope) ==>
      (scope in conflicts <==>
         Observable(index.document, scope) && Reserved(index.document, scope) > Min(MAX_U64, Offered(index.document, scope)))
    ensures forall i, j :: 0 <= i < j < |conflicts| ==> conflicts[i] != conflicts[j]
  {
    hide *;
    conflicts := DetectOvercommit(index);
    forall scope: AnyId | ValidName(scope.local)
      ensures Overcommitted(index.document, scope)
         <==> Observable(index.document, scope) && Reserved(index.document, scope) > Min(MAX_U64, Offered(index.document, scope))
    {
      OvercommittedIff(index.document, scope);
    }
  }
}
