/** Detection of cycles in the reference graph of a document (src/index.cpp:463-675). */
module ReferenceCycles {
  import opened Ordering
  import opened Identities
  import opened Documents
  import opened Reachability
  import opened Tarjan
  import opened References

  // ----- the interned graph ---------------------------------------------------

  class Graph {
    var nodes: seq<AnyId>
    var index: map<string, nat>
    var edges: seq<seq<nat>>

    ghost predicate Valid()
      reads this
    {
      && |edges| == |nodes|
      && (forall i :: 0 <= i < |nodes| ==> Str(nodes[i]) in index && index[Str(nodes[i])] == i)
      && (forall text :: text in index ==> index[text] < |nodes| && Str(nodes[index[text]]) == text)
      && WellFormed(edges)
    }

    ghost function EdgeSet(): set<Edge>
      requires Valid()
      reads this
    {
      NamedEdges(nodes, edges)
    }

    constructor ()
      ensures Valid() && EdgeSet() == {}
    {
      nodes, index, edges := [], map[], [];
    }

    /** The position of id, allocating one when it is new. */
    method Intern(id: AnyId) returns (position: nat)
      requires Valid()
      modifies this
      ensures Valid() && EdgeSet() == old(EdgeSet())
      ensures position < |nodes| && nodes[position] == id
      ensures |nodes| >= old(|nodes|) && nodes[..old(|nodes|)] == old(nodes)
    {
      hide Str, NamedEdges;
      if Str(id) in index {
        position := index[Str(id)];
        StrInjective(nodes[position], id);
        return;
      }
      NamedEdgesNewNode(nodes, edges, id);
      position := |nodes|;
      index := index[Str(id) := position];
      nodes := nodes + [id];
      edges := edges + [[]];
    }

    method AddEdge(from: AnyId, to: AnyId)
      requires Valid()
      modifies this
      ensures Valid() && EdgeSet() == old(EdgeSet()) + {(from, to)}
    {
      var a := Intern(from);
      var b := Intern(to);
      assert nodes[a] == from by { assert nodes[..a + 1][a] == nodes[a]; }
      NamedEdgesAppend(nodes, edges, a, b);
      edges := edges[a := edges[a] + [b]];
    }

    /** Adds the reference unless the field is empty. */
    method AddTyped(from: AnyId, klass: IdClass, local: string)
      requires Valid()
      modifies this
      ensures Valid() && EdgeSet() == old(EdgeSet()) + Typed(from, klass, local)
    {
      if local != "" {
        AddEdge(from, AnyId(klass, local));
      }
    }

    /** Adds the reference unless its text does not parse. */
    method AddParsed(from: AnyId, text: string)
      requires Valid()
      modifies this
      ensures Valid() && EdgeSet() == old(EdgeSet()) + Parsed(from, text)
    {
      var target := ParseId(text);
      if target.Some? {
        AddEdge(from, target.value);
      }
    }

    /** Sorts every successor list and removes its duplicates. */
    method SortSuccessors()
      requires Valid()
      modifies this
      ensures Valid() && EdgeSet() == old(EdgeSet()) && nodes == old(nodes)
    {
      ghost var before := edges;
      for i := 0 to |edges|
        invariant nodes == old(nodes) && index == old(index) && |edges| == |before|
        invariant forall v, x :: 0 <= v < |edges| ==> (x in edges[v] <==> x in before[v])
      {
        NatLeIsTotalOrder();
        SortUnique(NatLe, edges[i]);
        edges := edges[i := Unique(Sort(NatLe, edges[i]))];
      }
      SameSuccessors(nodes, before, edges);
    }
  }

  lemma SameSuccessors(nodes: seq<AnyId>, before: seq<seq<nat>>, after: seq<seq<nat>>)
    requires |before| == |nodes| && WellFormed(before) && |after| == |before|
    requires forall v, x :: 0 <= v < |before| ==> (x in after[v] <==> x in before[v])
    ensures WellFormed(after) && NamedEdges(nodes, after) == NamedEdges(nodes, before)
  {
    forall v, k | 0 <= v < |after| && 0 <= k < |after[v]|
      ensures after[v][k] < |after| && (nodes[v], nodes[after[v][k]]) in NamedEdges(nodes, before)
    {
      assert after[v][k] in before[v];
      var j :| 0 <= j < |before[v]| && before[v][j] == after[v][k];
    }
    forall v, k | 0 <= v < |before| && 0 <= k < |before[v]|
      ensures (nodes[v], nodes[before[v][k]]) in NamedEdges(nodes, after)
    {
      assert before[v][k] in after[v];
      var j :| 0 <= j < |after[v]| && after[v][j] == before[v][k];
    }
  }

  /** The edges between positions, read as edges between the identities stored there. */
  ghost function NamedEdges(nodes: seq<AnyId>, edges: seq<seq<nat>>): set<Edge>
    requires |edges| == |nodes| && WellFormed(edges)
  {
    set v, k | 0 <= v < |edges| && 0 <= k < |edges[v]| :: (nodes[v], nodes[edges[v][k]])
  }

  lemma NamedEdgesNewNode(nodes: seq<AnyId>, edges: seq<seq<nat>>, id: AnyId)
    requires |edges| == |nodes| && WellFormed(edges)
    ensures WellFormed(edges + [[]]) && NamedEdges(nodes + [id], edges + [[]]) == NamedEdges(nodes, edges)
  {
    var after := edges + [[]];
    forall v, k | 0 <= v < |edges| && 0 <= k < |edges[v]|
      ensures (nodes[v], nodes[edges[v][k]]) in NamedEdges(nodes + [id], after)
    {
      assert after[v][k] == edges[v][k];
    }
  }

  lemma NamedEdgesAppend(nodes: seq<AnyId>, edges: seq<seq<nat>>, a: nat, b: nat)
    requires |edges| == |nodes| && WellFormed(edges) && a < |nodes| && b < |nodes|
    ensures WellFormed(edges[a := edges[a] + [b]])
    ensures NamedEdges(nodes, edges[a := edges[a] + [b]]) == NamedEdges(nodes, edges) + {(nodes[a], nodes[b])}
  {
    var after := edges[a := edges[a] + [b]];
    forall v, k | 0 <= v < |edges| && 0 <= k < |edges[v]|
      ensures (nodes[v], nodes[edges[v][k]]) in NamedEdges(nodes, after)
    {
      assert after[v][k] == edges[v][k];
    }
    assert after[a][|edges[a]|] == b;
    forall v, k | 0 <= v < |after| && 0 <= k < |after[v]|
      ensures (nodes[v], nodes[after[v][k]]) in NamedEdges(nodes, edges) + {(nodes[a], nodes[b])}
    {
      if v != a || k < |edges[a]| {
        assert after[v][k] == edges[v][k];
      }
    }
  }

  // ----- building the graph, one collection after another ---------------------

  method AddDevices(graph: Graph, items: seq<Device>)
    requires graph.Valid()
    modifies graph
    ensures graph.Valid() && graph.EdgeSet() == old(graph.EdgeSet()) + Collect(items, DeviceEdges)
  {
    hide Collect, Graph.Valid, Graph.EdgeSet;
    CollectNone(items, DeviceEdges);
    for i := 0 to |items|
      invariant graph.Valid() && graph.EdgeSet() == old(graph.EdgeSet()) + Collect(items[..i], DeviceEdges)
    {
      var item := items[i];
      var from := AnyId(DeviceClass, item.id);
      graph.AddTyped(from, RackClass, item.rack);
      graph.AddTyped(from, PodClass, item.pod);
      graph.AddTyped(from, SiteClass, item.site);
      CollectStep(items, i, DeviceEdges);
    }
    assert items[..|items|] == items;
  }

  method AddRacks(graph: Graph, items: seq<Rack>)
    requires graph.Valid()
    modifies graph
    ensures graph.Valid() && graph.EdgeSet() == old(graph.EdgeSet()) + Collect(items, RackEdges)
  {
    for i := 0 to |items|
      invariant graph.Valid() && graph.EdgeSet() == old(graph.EdgeSet()) + Collect(items[..i], RackEdges)
    {
      var item := items[i];
      graph.AddTyped(AnyId(RackClass, item.id), PodClass, item.pod);
      CollectStep(items, i, RackEdges);
    }
    assert items[..|items|] == items;
  }

  method AddPods(graph: Graph, items: seq<Pod>)
    requires graph.Valid()
    modifies graph
    ensures graph.Valid() && graph.EdgeSet() == old(graph.EdgeSet()) + Collect(items, PodEdges)
  {
    for i := 0 to |items|
      invariant graph.Valid() && graph.EdgeSet() == old(graph.EdgeSet()) + Collect(items[..i], PodEdges)
    {
      var item := items[i];
      graph.AddTyped(AnyId(PodClass, item.id), SiteClass, item.site);
      CollectStep(items, i, PodEdges);
    }
    assert items[..|items|] == items;
  }

  method AddSites(graph: Graph, items: seq<Site>)
    requires graph.Valid()
    modifies graph
    ensures graph.Valid() && graph.EdgeSet() == old(graph.EdgeSet()) + Collect(items, SiteEdges)
  {
    for i := 0 to |items|
      invariant graph.Valid() && graph.EdgeSet() == old(graph.EdgeSet()) + Collect(items[..i], SiteEdges)
    {
      var item := items[i];
      graph.AddTyped(AnyId(SiteClass, item.id), FabricClass, item.fabric);
      CollectStep(items, i, SiteEdges);
    }
    assert items[..|items|] == items;
  }

  method AddPorts(graph: Graph, items: seq<Port>)
    requires graph.Valid()
    modifies graph
    ensures graph.Valid() && graph.EdgeSet() == old(graph.EdgeSet()) + Collect(items, PortEdges)
  {
    for i := 0 to |items|
      invariant graph.Valid() && graph.EdgeSet() == old(graph.EdgeSet()) + Collect(items[..i], PortEdges)
    {
      var item := items[i];
      graph.AddTyped(AnyId(PortClass, item.id), DeviceClass, item.device);
      CollectStep(items, i, PortEdges);
    }
    assert items[..|items|] == items;
  }

  method AddLinks(graph: Graph, items: seq<Link>)
    requires graph.Valid()
    modifies graph
    ensures graph.Valid() && graph.EdgeSet() == old(graph.EdgeSet()) + Collect(items, LinkEdges)
  {
    for i := 0 to |items|
      invariant graph.Valid() && graph.EdgeSet() == old(graph.EdgeSet()) + Collect(items[..i], LinkEdges)
    {
      var item := items[i];
      var from := AnyId(LinkClass, item.id);
      graph.AddTyped(from, PortClass, item.endpointA);
      graph.AddTyped(from, PortClass, item.endpointB);
      CollectStep(items, i, LinkEdges);
    }
    assert items[..|items|] == items;
  }

  method AddPlacement(graph: Graph, from: AnyId, placement: seq<string>)
    requires graph.Valid()
    modifies graph
    ensures graph.Valid()
    ensures graph.EdgeSet() == old(graph.EdgeSet()) + Collect(placement, device => {(from, AnyId(DeviceClass, device))})
  {
    ghost var edges := device => {(from, AnyId(DeviceClass, device))};
    for i := 0 to |placement|
      invariant graph.Valid() && graph.EdgeSet() == old(graph.EdgeSet()) + Collect(placement[..i], edges)
    {
      graph.AddEdge(from, AnyId(DeviceClass, placement[i]));
      CollectStep(placement, i, edges);
    }
    assert placement[..|placement|] == placement;
  }

  method AddScopes(graph: Graph, from: AnyId, scopes: seq<string>)
    requires graph.Valid()
    modifies graph
    ensures graph.Valid()
    ensures graph.EdgeSet() == old(graph.EdgeSet()) + Collect(scopes, scope => Parsed(from, scope))
  {
    ghost var edges := scope => Parsed(from, scope);
    for i := 0 to |scopes|
      invariant graph.Valid() && graph.EdgeSet() == old(graph.EdgeSet()) + Collect(scopes[..i], edges)
    {
      graph.AddParsed(from, scopes[i]);
      CollectStep(scopes, i, edges);
    }
    assert scopes[..|scopes|] == scopes;
  }

  method AddWorkloads(graph: Graph, items: seq<Workload>)
    requires graph.Valid()
    modifies graph
    ensures graph.Valid() && graph.EdgeSet() == old(graph.EdgeSet()) + Collect(items, WorkloadEdges)
  {
    for i := 0 to |items|
      invariant graph.Valid() && graph.EdgeSet() == old(graph.EdgeSet()) + Collect(items[..i], WorkloadEdges)
    {
      var item := items[i];
      var from := AnyId(WorkloadClass, item.id);
      graph.AddTyped(from, TenantClass, item.tenant);
      AddPlacement(graph, from, item.placement);
      CollectStep(items, i, WorkloadEdges);
    }
    assert items[..|items|] == items;
  }

  method AddPolicies(graph: Graph, items: seq<Policy>)
    requires graph.Valid()
    modifies graph
    ensures graph.Valid() && graph.EdgeSet() == old(graph.EdgeSet()) + Collect(items, PolicyEdges)
  {
    hide Collect, Graph.Valid, Graph.EdgeSet;
    CollectNone(items, PolicyEdges);
    for i := 0 to |items|
      invariant graph.Valid() && graph.EdgeSet() == old(graph.EdgeSet()) + Collect(items[..i], PolicyEdges)
    {
      var item := items[i];
      var from := AnyId(PolicyClass, item.id);
      match item.body {
        case Routing(extendsPolicy) =>
          if extendsPolicy != "" {
            graph.AddParsed(from, extendsPolicy);
          }
        case TenantIsolation(tenant, scopes) =>
          graph.AddTyped(from, TenantClass, tenant);
          AddScopes(graph, from, scopes);
        case _ =>
      }
      CollectStep(items, i, PolicyEdges);
    }
    assert items[..|items|] == items;
  }

  method AddIntents(graph: Graph, items: seq<Intent>)
    requires graph.Valid()
    modifies graph
    ensures graph.Valid() && graph.EdgeSet() == old(graph.EdgeSet()) + Collect(items, IntentEdges)
  {
    hide Collect, Graph.Valid, Graph.EdgeSet;
    CollectNone(items, IntentEdges);
    for i := 0 to |items|
      invariant graph.Valid() && graph.EdgeSet() == old(graph.EdgeSet()) + Collect(items[..i], IntentEdges)
    {
      var item := items[i];
      var from := AnyId(IntentClass, item.id);
      if item.subject.local != "" {
        graph.AddEdge(from, item.subject);
      }
      if item.tenant != "" {
        graph.AddParsed(from, item.tenant);
      }
      CollectStep(items, i, IntentEdges);
    }
    assert items[..|items|] == items;
  }

  method BuildGraph(doc: Document) returns (graph: Graph)
    ensures fresh(graph) && graph.Valid() && graph.EdgeSet() == ReferenceEdges(doc)
    ensures forall a, b :: (a, b) in graph.EdgeSet() <==> Refers(doc, a, b)
    ensures ContainmentShown(doc, graph.EdgeSet())
  {
    hide ContainmentShown, Refers;
    hide Graph.Valid, Graph.EdgeSet, Collect;
    graph := new Graph();
    AddDevices(graph, doc.devices);
    AddRacks(graph, doc.racks);
    AddPods(graph, doc.pods);
    AddSites(graph, doc.sites);
    AddPorts(graph, doc.ports);
    AddLinks(graph, doc.links);
    AddWorkloads(graph, doc.workloads);
    AddPolicies(graph, doc.policies);
    AddIntents(graph, doc.intents);
    graph.SortSuccessors();
    assert graph.EdgeSet() == ReferenceEdges(doc);
    hide ReferenceEdges;
    EdgesAre(doc);
    ContainmentIsShown(doc);
  }

  // ----- what is reported -----------------------------------------------------

  predicate CycleLe(a: seq<AnyId>, b: seq<AnyId>) { LexLe(IdLe, a, b) }

  /** c lists, in order and once each, the identities mutually reachable with one on a directed cycle. */
  ghost predicate IsCycleOf(edges: set<Edge>, c: seq<AnyId>) {
    && c != []
    && StrictlySorted(IdLe, c)
    && (forall u :: u in c ==> OnCycle(edges, u))
    && (forall u, v :: u in c ==> (v in c <==> Mutual(edges, u, v)))
  }

  /** Exactly the classes of identities that lie on a directed cycle of references, in canonical order. */
  ghost predicate IsReport(edges: set<Edge>, cycles: seq<seq<AnyId>>) {
    && StrictlySorted(CycleLe, cycles)
    && (forall i :: 0 <= i < |cycles| ==> IsCycleOf(edges, cycles[i]))
    && (forall u :: OnCycle(edges, u) ==> Reported(cycles, u))
  }

  ghost predicate Reported(cycles: seq<seq<AnyId>>, u: AnyId) {
    exists i :: 0 <= i < |cycles| && u in cycles[i]
  }

  lemma CycleLeIsTotalOrder()
    ensures TotalOrder(CycleLe)
  {
    IdLeIsTotalOrder();
    LexIsTotalOrder(IdLe);
    var lex := (a: seq<AnyId>, b: seq<AnyId>) => LexLe(IdLe, a, b);
    assert forall a, b :: CycleLe(a, b) == lex(a, b);
  }

  /** A cycle of one report is a cycle of every other report on the same references. */
  lemma CycleShared(edges: set<Edge>, a: seq<seq<AnyId>>, b: seq<seq<AnyId>>, c: seq<AnyId>)
    requires IsReport(edges, a) && IsReport(edges, b) && c in a
    ensures c in b
  {
    hide OnCycle, Mutual, IdLe;
    var u := c[0];
    assert OnCycle(edges, u);
    assert Reported(b, u);
    var i :| 0 <= i < |b| && u in b[i];
    assert IsCycleOf(edges, b[i]) && IsCycleOf(edges, c);
    IdLeIsTotalOrder();
    StrictlySortedUnique(IdLe, c, b[i]);
  }

  /** The report depends on the set of references alone. */
  lemma ReportUnique(edges: set<Edge>, a: seq<seq<AnyId>>, b: seq<seq<AnyId>>)
    requires IsReport(edges, a) && IsReport(edges, b)
    ensures a == b
  {
    forall c
      ensures c in a <==> c in b
    {
      if c in a { CycleShared(edges, a, b, c); }
      if c in b { CycleShared(edges, b, a, c); }
    }
    CycleLeIsTotalOrder();
    hide IsReport;
    StrictlySortedUnique(CycleLe, a, b);
  }

  // ----- from positions back to identities ------------------------------------

  ghost predicate Interned(nodes: seq<AnyId>, edges: seq<seq<nat>>) {
    |edges| == |nodes| && WellFormed(edges) && forall i, j :: 0 <= i < j < |nodes| ==> nodes[i] != nodes[j]
  }

  lemma EdgeLift(nodes: seq<AnyId>, edges: seq<seq<nat>>, u: nat, v: nat)
    requires Interned(nodes, edges) && u < |nodes| && v < |nodes|
    ensures (u, v) in EdgesOf(edges) <==> (nodes[u], nodes[v]) in NamedEdges(nodes, edges)
  {
  }

  /** Along a walk that starts at an interned identity every identity is interned. */
  lemma {:induction false} WalkInterned(nodes: seq<AnyId>, edges: seq<seq<nat>>, p: seq<AnyId>, i: nat)
    requires Interned(nodes, edges) && IsPath(NamedEdges(nodes, edges), p) && p[0] in nodes && i < |p|
    ensures p[i] in nodes
  {
    if i > 0 {
      assert (p[i - 1], p[i - 1 + 1]) in NamedEdges(nodes, edges);
    }
  }

  lemma ReachedInterned(nodes: seq<AnyId>, edges: seq<seq<nat>>, u: AnyId, v: AnyId)
    requires Interned(nodes, edges) && u in nodes && Reaches(NamedEdges(nodes, edges), u, v)
    ensures v in nodes
  {
    var p :| PathFromTo(NamedEdges(nodes, edges), p, u, v);
    WalkInterned(nodes, edges, p, |p| - 1);
  }

  ghost function Position(nodes: seq<AnyId>, id: AnyId): (k: nat)
    requires id in nodes
    ensures k < |nodes| && nodes[k] == id
  {
    var k :| 0 <= k < |nodes| && nodes[k] == id;
    k
  }

  lemma ReachesNamed(nodes: seq<AnyId>, edges: seq<seq<nat>>, u: nat, v: nat)
    requires Interned(nodes, edges) && u < |nodes| && Reaches(EdgesOf(edges), u, v)
    ensures v < |nodes| && Reaches(NamedEdges(nodes, edges), nodes[u], nodes[v])
  {
    var p :| PathFromTo(EdgesOf(edges), p, u, v);
    forall i | 0 <= i < |p|
      ensures p[i] < |nodes|
    {
      if i > 0 { assert (p[i - 1], p[i - 1 + 1]) in EdgesOf(edges); }
    }
    var q := seq(|p|, i requires 0 <= i < |p| => nodes[p[i]]);
    forall i | 0 <= i < |q| - 1
      ensures (q[i], q[i + 1]) in NamedEdges(nodes, edges)
    {
      assert (p[i], p[i + 1]) in EdgesOf(edges);
      EdgeLift(nodes, edges, p[i], p[i + 1]);
    }
    assert PathFromTo(NamedEdges(nodes, edges), q, nodes[u], nodes[v]);
  }

  lemma ReachesPositions(nodes: seq<AnyId>, edges: seq<seq<nat>>, u: nat, v: nat)
    requires Interned(nodes, edges) && u < |nodes| && v < |nodes|
    requires Reaches(NamedEdges(nodes, edges), nodes[u], nodes[v])
    ensures Reaches(EdgesOf(edges), u, v)
  {
    var q :| PathFromTo(NamedEdges(nodes, edges), q, nodes[u], nodes[v]);
    forall i | 0 <= i < |q|
      ensures q[i] in nodes
    {
      WalkInterned(nodes, edges, q, i);
    }
    var p: seq<nat> := seq(|q|, i requires 0 <= i < |q| => Position(nodes, q[i]));
    assert nodes[p[0]] == nodes[u] && nodes[p[|p| - 1]] == nodes[v];
    forall i | 0 <= i < |p| - 1
      ensures (p[i], p[i + 1]) in EdgesOf(edges)
    {
      assert (q[i], q[i + 1]) in NamedEdges(nodes, edges);
      EdgeLift(nodes, edges, p[i], p[i + 1]);
    }
    assert PathFromTo(EdgesOf(edges), p, u, v);
  }

  lemma MutualLift(nodes: seq<AnyId>, edges: seq<seq<nat>>, u: nat, v: nat)
    requires Interned(nodes, edges) && u < |nodes| && v < |nodes|
    ensures Mutual(EdgesOf(edges), u, v) <==> Mutual(NamedEdges(nodes, edges), nodes[u], nodes[v])
  {
    if Mutual(EdgesOf(edges), u, v) {
      ReachesNamed(nodes, edges, u, v);
      ReachesNamed(nodes, edges, v, u);
    }
    if Mutual(NamedEdges(nodes, edges), nodes[u], nodes[v]) {
      ReachesPositions(nodes, edges, u, v);
      ReachesPositions(nodes, edges, v, u);
    }
  }

  /** Two different mutually reachable identities lie on a directed cycle. */
  lemma MutualOnCycle(edges: set<Edge>, u: AnyId, v: AnyId)
    requires Mutual(edges, u, v) && u != v
    ensures OnCycle(edges, u)
  {
    var p :| PathFromTo(edges, p, u, v);
    assert (p[0], p[0 + 1]) in edges;
    assert PathFromTo(edges, p[1..], p[1], v);
    ReachesTrans(edges, p[1], v, u);
  }

  /** An identity on a directed cycle refers to itself or is mutually reachable with another one. */
  lemma OnCycleMutual(edges: set<Edge>, u: AnyId) returns (w: AnyId)
    requires OnCycle(edges, u)
    ensures (u, w) in edges && Mutual(edges, u, w)
  {
    w :| (u, w) in edges && Reaches(edges, w, u);
    ReachesEdge(edges, u, w);
  }

  ghost function Names(nodes: seq<AnyId>, c: seq<nat>): (r: seq<AnyId>)
    requires forall i :: 0 <= i < |c| ==> c[i] < |nodes|
    ensures |r| == |c| && forall i :: 0 <= i < |c| ==> r[i] == nodes[c[i]]
  {
    seq(|c|, i requires 0 <= i < |c| => nodes[c[i]])
  }

  /** Membership in a component, told by identities. */
  lemma ComponentNames(nodes: seq<AnyId>, edges: seq<seq<nat>>, c: seq<nat>, u: nat, v: AnyId)
    requires Interned(nodes, edges) && IsScc(edges, c) && u in c
    ensures u < |nodes| && (v in Names(nodes, c) <==> Mutual(NamedEdges(nodes, edges), nodes[u], v))
  {
    var rel := NamedEdges(nodes, edges);
    var i :| 0 <= i < |c| && c[i] == u;
    if v in nodes {
      var w := Position(nodes, v);
      MutualLift(nodes, edges, u, w);
      hide Mutual, Reaches;
      assert w in c <==> v in Names(nodes, c) by {
        if v in Names(nodes, c) {
          var k :| 0 <= k < |c| && nodes[c[k]] == v;
          assert c[k] == w;
        }
        if w in c {
          var k :| 0 <= k < |c| && c[k] == w;
          assert Names(nodes, c)[k] == v;
        }
      }
    } else {
      if Mutual(rel, nodes[u], v) {
        ReachedInterned(nodes, edges, nodes[u], v);
      }
    }
  }

  lemma MemberOnCycle(nodes: seq<AnyId>, edges: seq<seq<nat>>, c: seq<nat>, i: nat)
    requires Interned(nodes, edges) && IsScc(edges, c) && i < |c|
    requires |c| > 1 || c[0] in edges[c[0]]
    ensures OnCycle(NamedEdges(nodes, edges), nodes[c[i]])
  {
    if |c| > 1 {
      var other := if i == 0 then 1 else 0;
      ComponentNames(nodes, edges, c, c[i], nodes[c[other]]);
      assert Names(nodes, c)[other] == nodes[c[other]];
      hide Mutual, Reaches, OnCycle, IsScc;
      MutualOnCycle(NamedEdges(nodes, edges), nodes[c[i]], nodes[c[other]]);
    } else {
      SelfLoopOnCycle(nodes, edges, c[0]);
    }
  }

  lemma NamesDistinct(nodes: seq<AnyId>, edges: seq<seq<nat>>, c: seq<nat>)
    requires Interned(nodes, edges) && IsScc(edges, c)
    ensures var names := Names(nodes, c); forall i, j :: 0 <= i < j < |names| ==> names[i] != names[j]
  {
    hide Mutual, Reaches, WellFormed;
  }

  lemma NamedMembers(nodes: seq<AnyId>, edges: seq<seq<nat>>, c: seq<nat>)
    requires Interned(nodes, edges) && IsScc(edges, c)
    requires |c| > 1 || c[0] in edges[c[0]]
    ensures var rel, names := NamedEdges(nodes, edges), Names(nodes, c);
      forall u, v :: u in names ==> (v in names <==> Mutual(rel, u, v)) && OnCycle(rel, u)
  {
    hide Mutual, Reaches, OnCycle, WellFormed, NamedEdges;
    var names := Names(nodes, c);
    forall u, v | u in names
      ensures (v in names <==> Mutual(NamedEdges(nodes, edges), u, v)) && OnCycle(NamedEdges(nodes, edges), u)
    {
      var i :| 0 <= i < |c| && names[i] == u;
      ComponentNames(nodes, edges, c, c[i], v);
      MemberOnCycle(nodes, edges, c, i);
    }
  }

  lemma ComponentIsCycle(nodes: seq<AnyId>, edges: seq<seq<nat>>, c: seq<nat>)
    requires Interned(nodes, edges) && IsScc(edges, c)
    requires |c| > 1 || c[0] in edges[c[0]]
    ensures IsCycleOf(NamedEdges(nodes, edges), Sort(IdLe, Names(nodes, c)))
  {
    var names := Names(nodes, c);
    assert |c| > 0;
    NamedMembers(nodes, edges, c);
    NamesDistinct(nodes, edges, c);
    SortedCycle(NamedEdges(nodes, edges), names);
  }

  lemma SortedCycle(edges: set<Edge>, names: seq<AnyId>)
    requires names != [] && forall i, j :: 0 <= i < j < |names| ==> names[i] != names[j]
    requires forall u, v :: u in names ==> (v in names <==> Mutual(edges, u, v)) && OnCycle(edges, u)
    ensures IsCycleOf(edges, Sort(IdLe, names))
  {
    hide Mutual, Reaches, OnCycle, StrictlySorted, Sort;
    SortIds(names);
    assert names[0] in Sort(IdLe, names);
  }

  lemma SortIds(names: seq<AnyId>)
    requires forall i, j :: 0 <= i < j < |names| ==> names[i] != names[j]
    ensures StrictlySorted(IdLe, Sort(IdLe, names)) && forall u :: u in Sort(IdLe, names) <==> u in names
  {
    hide IdLe, StrictlySorted;
    IdLeIsTotalOrder();
    hide TotalOrder;
    SortDistinct(IdLe, names);
  }

  lemma SelfLoopOnCycle(nodes: seq<AnyId>, edges: seq<seq<nat>>, u: nat)
    requires Interned(nodes, edges) && u < |nodes| && u in edges[u]
    ensures OnCycle(NamedEdges(nodes, edges), nodes[u])
  {
    var k :| 0 <= k < |edges[u]| && edges[u][k] == u;
    ReachesSelf(NamedEdges(nodes, edges), nodes[u]);
    assert (nodes[u], nodes[u]) in NamedEdges(nodes, edges);
  }

  lemma SingletonNotOnCycle(nodes: seq<AnyId>, edges: seq<seq<nat>>, c: seq<nat>)
    requires Interned(nodes, edges) && IsScc(edges, c) && |c| == 1 && c[0] !in edges[c[0]]
    ensures !OnCycle(NamedEdges(nodes, edges), nodes[c[0]])
  {
    var rel := NamedEdges(nodes, edges);
    var u := c[0];
    if OnCycle(rel, nodes[u]) {
      var w := OnCycleMutual(rel, nodes[u]);
      ComponentNames(nodes, edges, c, u, w);
      hide Mutual, Reaches, OnCycle;
      assert Names(nodes, c)[0] == nodes[u];
      assert w == nodes[u];
      EdgeLift(nodes, edges, u, u);
      assert false;
    }
  }

  // ----- rings of declared references ----------------------------------------

  /** One reported cycle has both. */
  ghost predicate Together(cycles: seq<seq<AnyId>>, a: AnyId, b: AnyId) {
    exists i :: 0 <= i < |cycles| && a in cycles[i] && b in cycles[i]
  }

  lemma RingTogether(doc: Document, cycles: seq<seq<AnyId>>, ring: seq<AnyId>, i: nat, j: nat)
    requires IsReport(ReferenceEdges(doc), cycles) && IsRing(doc, ring) && i < |ring| && j < |ring|
    ensures Together(cycles, ring[i], ring[j])
  {
    var rel, p, n := ReferenceEdges(doc), ring + [ring[0]], |ring|;
    var a, b := ring[i], ring[j];
    RingIsPath(doc, ring);
    hide ReferenceEdges, IsRing;
    PartOfPath(rel, p, i, n);
    PartOfPath(rel, p, 0, j);
    PartOfPath(rel, p, j, n);
    PartOfPath(rel, p, 0, i);
    PartOfPath(rel, p, i + 1, n);
    assert (p[i], p[i + 1]) in rel;
    ReachesTrans(rel, a, p[0], b);
    ReachesTrans(rel, b, p[0], a);
    ReachesTrans(rel, p[i + 1], p[0], a);
    hide Reaches, IsPath;
    assert OnCycle(rel, a);
    assert Reported(cycles, a);
    var k :| 0 <= k < |cycles| && a in cycles[k];
    assert IsCycleOf(rel, cycles[k]) && Mutual(rel, a, b);
  }

  /** The closed walk through two identities of one reported cycle. */
  lemma Circuit(rel: set<Edge>, a: AnyId, b: AnyId) returns (p: seq<AnyId>)
    requires OnCycle(rel, a) && Mutual(rel, a, b)
    ensures PathFromTo(rel, p, a, a) && |p| >= 2 && b in p[..|p| - 1]
  {
    var w :| (a, w) in rel && Reaches(rel, w, a);
    var back :| PathFromTo(rel, back, w, a);
    var there :| PathFromTo(rel, there, a, b);
    var home :| PathFromTo(rel, home, b, a);
    assert PathFromTo(rel, [a, w], a, w);
    assert b in there && b in home;
    hide *;
    p := Joined(rel, [a, w], back, a, w, a);
    p := Joined(rel, p, there, a, a, b);
    p := Joined(rel, p, home, a, b, a);
    StartsAndEnds(rel, p, a);
    InFront(p, a, b);
  }

  lemma StartsAndEnds(rel: set<Edge>, p: seq<AnyId>, a: AnyId)
    requires PathFromTo(rel, p, a, a)
    ensures |p| > 0 && p[0] == a && p[|p| - 1] == a
  {
  }

  lemma InFront(p: seq<AnyId>, a: AnyId, b: AnyId)
    requires |p| >= 2 && p[0] == a && p[|p| - 1] == a && b in p
    ensures b in p[..|p| - 1]
  {
    assert p == p[..|p| - 1] + [a] && p[..|p| - 1][0] == a;
  }

  lemma TogetherRing(doc: Document, cycles: seq<seq<AnyId>>, a: AnyId, b: AnyId)
    requires IsReport(ReferenceEdges(doc), cycles) && Together(cycles, a, b)
    ensures OnOneRing(doc, a, b)
  {
    hide ReferenceEdges, OnCycle, Mutual, PathFromTo, IsRing;
    var rel := ReferenceEdges(doc);
    var k :| 0 <= k < |cycles| && a in cycles[k] && b in cycles[k];
    assert IsCycleOf(rel, cycles[k]);
    var p := Circuit(rel, a, b);
    PathIsRing(doc, p, a);
    StartsAndEnds(rel, p, a);
    assert p[..|p| - 1][0] == a;
  }

  /** Identities are reported together exactly when one ring of declared references passes through both. */
  lemma TogetherIff(doc: Document, cycles: seq<seq<AnyId>>, a: AnyId, b: AnyId)
    requires IsReport(ReferenceEdges(doc), cycles)
    ensures Together(cycles, a, b) <==> OnOneRing(doc, a, b)
  {
    hide IsReport, IsRing, Together, ReferenceEdges;
    if Together(cycles, a, b) {
      TogetherRing(doc, cycles, a, b);
    }
    if OnOneRing(doc, a, b) {
      var ring :| IsRing(doc, ring) && a in ring && b in ring;
      var i :| 0 <= i < |ring| && ring[i] == a;
      var j :| 0 <= j < |ring| && ring[j] == b;
      RingTogether(doc, cycles, ring, i, j);
    }
  }

  /** No identity stands in two reported cycles. */
  lemma CyclesApart(edges: set<Edge>, cycles: seq<seq<AnyId>>, i: nat, j: nat, u: AnyId)
    requires IsReport(edges, cycles) && i < |cycles| && j < |cycles| && u in cycles[i] && u in cycles[j]
    ensures i == j
  {
    hide OnCycle, Mutual, IdLe, CycleLe;
    assert IsCycleOf(edges, cycles[i]) && IsCycleOf(edges, cycles[j]);
    assert forall v :: v in cycles[i] <==> v in cycles[j];
    IdLeIsTotalOrder();
    StrictlySortedUnique(IdLe, cycles[i], cycles[j]);
  }

  /** In order, without empty or overlapping cycles, each in order: the form of every report. */
  ghost predicate InOrder(cycles: seq<seq<AnyId>>) {
    && StrictlySorted(CycleLe, cycles)
    && (forall i :: 0 <= i < |cycles| ==> cycles[i] != [] && StrictlySorted(IdLe, cycles[i]))
    && (forall i, j, u :: 0 <= i < |cycles| && 0 <= j < |cycles| && u in cycles[i] && u in cycles[j] ==> i == j)
  }

  /** The report of a document, by its rings alone. */
  ghost predicate ReportsRings(doc: Document, cycles: seq<seq<AnyId>>) {
    InOrder(cycles) && forall a, b :: Together(cycles, a, b) <==> OnOneRing(doc, a, b)
  }

  lemma ReportIsRings(doc: Document, cycles: seq<seq<AnyId>>)
    requires IsReport(ReferenceEdges(doc), cycles)
    ensures ReportsRings(doc, cycles)
  {
    hide ReferenceEdges, OnOneRing, Together;
    forall a, b
      ensures Together(cycles, a, b) <==> OnOneRing(doc, a, b)
    {
      TogetherIff(doc, cycles, a, b);
    }
    forall i, j, u | 0 <= i < |cycles| && 0 <= j < |cycles| && u in cycles[i] && u in cycles[j]
      ensures i == j
    {
      CyclesApart(ReferenceEdges(doc), cycles, i, j, u);
    }
    assert forall i :: 0 <= i < |cycles| ==> IsCycleOf(ReferenceEdges(doc), cycles[i]);
  }

  // ----- the detector ---------------------------------------------------------

  /** The members of a component, sorted. */
  method CycleMembers(nodes: seq<AnyId>, component: seq<nat>) returns (members: seq<AnyId>)
    requires forall i :: 0 <= i < |component| ==> component[i] < |nodes|
    ensures members == Sort(IdLe, Names(nodes, component))
  {
    members := [];
    for i := 0 to |component|
      invariant members == Names(nodes, component[..i])
    {
      members := members + [nodes[component[i]]];
    }
    assert component[..|component|] == component;
    members := Sort(IdLe, members);
  }

  method HasSelfLoop(successors: seq<nat>, node: nat) returns (found: bool)
    ensures found <==> node in successors
  {
    found := false;
    for i := 0 to |successors|
      invariant !found && node !in successors[..i]
    {
      if successors[i] == node {
        found := true;
        break;
      }
    }
  }

  /** The cycles reported for the components looked at so far. */
  ghost predicate Collected(nodes: seq<AnyId>, edges: seq<seq<nat>>, components: seq<seq<nat>>, n: nat, cycles: seq<seq<AnyId>>)
    requires |edges| == |nodes| && WellFormed(edges)
  {
    && n <= |components|
    && (forall j, x :: 0 <= j < |components| && x in components[j] ==> x < |nodes|)
    && (forall a :: 0 <= a < |cycles| ==> IsCycleOf(NamedEdges(nodes, edges), cycles[a]))
    && (forall a, b :: 0 <= a < b < |cycles| ==> cycles[a] != cycles[b])
    && (forall a, j, x :: 0 <= a < |cycles| && n <= j < |components| && x in components[j] ==> nodes[x] !in cycles[a])
    && (forall j, x :: 0 <= j < n && x in components[j] && OnCycle(NamedEdges(nodes, edges), nodes[x]) ==> Reported(cycles, nodes[x]))
  }

  lemma CollectReported(nodes: seq<AnyId>, edges: seq<seq<nat>>, components: seq<seq<nat>>, n: nat,
                        cycles: seq<seq<AnyId>>, cycle: seq<AnyId>)
    requires |edges| == |nodes| && WellFormed(edges)
    requires n < |components| && Collected(nodes, edges, components, n, cycles)
    requires forall x :: x in components[n] ==> nodes[x] in cycle
    ensures forall j, x :: 0 <= j < n + 1 && x in components[j] && OnCycle(NamedEdges(nodes, edges), nodes[x])
              ==> Reported(cycles + [cycle], nodes[x])
  {
    hide IsCycleOf, OnCycle, NamedEdges, Reported, WellFormed;
    forall j, x | 0 <= j < n + 1 && x in components[j] && OnCycle(NamedEdges(nodes, edges), nodes[x])
      ensures Reported(cycles + [cycle], nodes[x])
    {
      if j < n {
        ReportedMore(cycles, cycle, nodes[x]);
      } else {
        ReportedLast(cycles, cycle, nodes[x]);
      }
    }
  }

  lemma CollectCycle(nodes: seq<AnyId>, edges: seq<seq<nat>>, components: seq<seq<nat>>, n: nat, cycles: seq<seq<AnyId>>)
    requires Interned(nodes, edges) && AreComponents(edges, components)
    requires n < |components| && Collected(nodes, edges, components, n, cycles)
    requires forall i :: 0 <= i < |components[n]| ==> components[n][i] < |nodes|
    requires |components[n]| > 1 || (|components[n]| == 1 && components[n][0] in edges[components[n][0]])
    ensures Collected(nodes, edges, components, n + 1, cycles + [Sort(IdLe, Names(nodes, components[n]))])
  {
    hide IsCycleOf, OnCycle, IsScc, Mutual, Reaches, WellFormed, NamedEdges, Reported, Sort, Names, IdLe;
    var c := components[n];
    var cycle := Sort(IdLe, Names(nodes, c));
    var after := cycles + [cycle];
    assert IsScc(edges, c);
    ComponentIsCycle(nodes, edges, c);
    SortedNames(nodes, c);
    assert nodes[c[0]] in cycle && c[0] in c;
    forall a | 0 <= a < |cycles|
      ensures cycles[a] != cycle
    {
      assert nodes[c[0]] !in cycles[a];
    }
    CollectReported(nodes, edges, components, n, cycles, cycle);
    forall j, x | n + 1 <= j < |components| && x in components[j]
      ensures nodes[x] !in cycle
    {
      assert x !in c;
    }
  }

  lemma SortedNames(nodes: seq<AnyId>, c: seq<nat>)
    requires forall i :: 0 <= i < |c| ==> c[i] < |nodes|
    ensures forall id :: id in Sort(IdLe, Names(nodes, c)) <==> exists k :: 0 <= k < |c| && id == nodes[c[k]]
  {
    MultisetMembers(Sort(IdLe, Names(nodes, c)), Names(nodes, c));
    forall k | 0 <= k < |c|
      ensures nodes[c[k]] in Names(nodes, c)
    {
      assert Names(nodes, c)[k] == nodes[c[k]];
    }
  }

  lemma ReportedMore(cycles: seq<seq<AnyId>>, cycle: seq<AnyId>, u: AnyId)
    requires Reported(cycles, u)
    ensures Reported(cycles + [cycle], u)
  {
    var i :| 0 <= i < |cycles| && u in cycles[i];
    assert (cycles + [cycle])[i] == cycles[i];
  }

  lemma ReportedLast(cycles: seq<seq<AnyId>>, cycle: seq<AnyId>, u: AnyId)
    requires u in cycle
    ensures Reported(cycles + [cycle], u)
  {
    assert (cycles + [cycle])[|cycles|] == cycle;
  }

  lemma SkipSingleton(nodes: seq<AnyId>, edges: seq<seq<nat>>, components: seq<seq<nat>>, n: nat, cycles: seq<seq<AnyId>>)
    requires Interned(nodes, edges) && AreComponents(edges, components)
    requires n < |components| && Collected(nodes, edges, components, n, cycles)
    requires |components[n]| == 1 && components[n][0] < |edges| && components[n][0] !in edges[components[n][0]]
    ensures Collected(nodes, edges, components, n + 1, cycles)
  {
    assert IsScc(edges, components[n]);
    SingletonNotOnCycle(nodes, edges, components[n]);
    hide IsCycleOf, OnCycle, IsScc, Mutual, WellFormed, NamedEdges, Reported;
  }

  lemma CollectedReport(nodes: seq<AnyId>, edges: seq<seq<nat>>, components: seq<seq<nat>>, cycles: seq<seq<AnyId>>)
    requires Interned(nodes, edges) && AreComponents(edges, components)
    requires Collected(nodes, edges, components, |components|, cycles)
    ensures IsReport(NamedEdges(nodes, edges), Sort(CycleLe, cycles))
  {
    var rel := NamedEdges(nodes, edges);
    var sorted := Sort(CycleLe, cycles);
    CycleLeIsTotalOrder();
    SortDistinct(CycleLe, cycles);
    hide IsCycleOf, CycleLe, IsScc, Mutual, Reaches;
    assert forall i :: 0 <= i < |sorted| ==> sorted[i] in cycles;
    forall u | OnCycle(rel, u)
      ensures Reported(sorted, u)
    {
      var w :| (u, w) in rel && Reaches(rel, w, u);
      var v, k :| 0 <= v < |edges| && 0 <= k < |edges[v]| && (u, w) == (nodes[v], nodes[edges[v][k]]);
      assert InSome(components, v);
      assert Reported(cycles, u);
      var i :| 0 <= i < |cycles| && u in cycles[i];
      assert cycles[i] in sorted;
      var j :| 0 <= j < |sorted| && sorted[j] == cycles[i];
    }
  }

  lemma GraphInterned(graph: Graph)
    requires graph.Valid()
    ensures Interned(graph.nodes, graph.edges)
  {
  }

  method DetectReferenceCycles(doc: Document) returns (cycles: seq<seq<AnyId>>)
    ensures IsReport(ReferenceEdges(doc), cycles)
    ensures InOrder(cycles)
    ensures forall a, b :: Together(cycles, a, b) <==> OnOneRing(doc, a, b)
    ensures forall names :: RoutingRing(doc, names) ==> AllInOne(cycles, PolicyIds(names))
    ensures forall ring :: CitationRing(doc, ring) ==> AllInOne(cycles, ring)
  {
    hide ReferenceEdges, Together, OnOneRing, RoutingRing, CitationRing, AllInOne, InOrder, Mutual, Reaches, OnCycle, IsCycleOf, NamedEdges, IsReport, Reported;
    var graph := BuildGraph(doc);
    GraphInterned(graph);
    var nodes, edges := graph.nodes, graph.edges;
    var components := StronglyConnectedComponents(edges);
    hide Interned;
    cycles := [];
    for i := 0 to |components|
      invariant Collected(nodes, edges, components, i, cycles)
    {
      var component := components[i];
      assert IsScc(edges, component);
      if |component| == 1 {
        var selfLoop := HasSelfLoop(edges[component[0]], component[0]);
        if !selfLoop {
          SkipSingleton(nodes, edges, components, i, cycles);
          continue;
        }
      }
      var members := CycleMembers(nodes, component);
      CollectCycle(nodes, edges, components, i, cycles);
      cycles := cycles + [members];
    }
    CollectedReport(nodes, edges, components, cycles);
    cycles := Sort(CycleLe, cycles);
    ReportIsRings(doc, cycles);
    forall names | RoutingRing(doc, names)
      ensures AllInOne(cycles, PolicyIds(names))
    {
      RoutingTogether(doc, cycles, names);
    }
    forall ring | CitationRing(doc, ring)
      ensures AllInOne(cycles, ring)
    {
      CitationsTogether(doc, cycles, ring);
    }
  }

  // ----- rings by their declarations -------------------------------------------

  /** The declaration of policy or intent a names b: by extension, exclusive scope, subject or tenant. */
  ghost predicate Cites(doc: Document, a: AnyId, b: AnyId) {
    || (a.klass == PolicyClass && Policy(a.local, Routing(Str(b))) in doc.policies)
    || (a.klass == PolicyClass && exists t, scopes :: Policy(a.local, TenantIsolation(t, scopes)) in doc.policies && Str(b) in scopes)
    || (a.klass == IntentClass && exists t :: Intent(a.local, b, t) in doc.intents)
    || (a.klass == IntentClass && exists s :: Intent(a.local, s, Str(b)) in doc.intents)
  }

  /** Policies and intents, each naming the next in any of the four ways and the last naming the first. */
  ghost predicate CitationRing(doc: Document, ring: seq<AnyId>) {
    ring != [] && forall i :: 0 <= i < |ring| ==> ValidName(ring[i].local) && Cites(doc, ring[i], Next(ring, i))
  }

  /** Routing policies, each extending the next and the last extending the first. */
  ghost predicate RoutingRing(doc: Document, names: seq<string>) {
    names != [] && forall i :: 0 <= i < |names| ==> ValidName(names[i]) && Policy(names[i], Routing("pol." + Next(names, i))) in doc.policies
  }

  /** One reported cycle has them all. */
  ghost predicate AllInOne(cycles: seq<seq<AnyId>>, members: seq<AnyId>) {
    exists i :: 0 <= i < |cycles| && forall a :: a in members ==> a in cycles[i]
  }

  function PolicyIds(names: seq<string>): (ids: seq<AnyId>)
    ensures |ids| == |names| && forall i :: 0 <= i < |names| ==> ids[i] == AnyId(PolicyClass, names[i])
  {
    seq(|names|, i requires 0 <= i < |names| => AnyId(PolicyClass, names[i]))
  }

  lemma CitationRefers(doc: Document, a: AnyId, b: AnyId)
    requires ValidName(b.local) && Cites(doc, a, b)
    ensures Refers(doc, a, b)
  {
    hide Str;
    if a.klass == IntentClass {
      assert Concerns(doc, a, b);
    } else {
      assert Extends(doc, a, b) || Isolates(doc, a, b);
    }
  }

  lemma CitationsTogether(doc: Document, cycles: seq<seq<AnyId>>, ring: seq<AnyId>)
    requires ReportsRings(doc, cycles) && CitationRing(doc, ring)
    ensures AllInOne(cycles, ring)
  {
    hide Cites, Refers, InOrder;
    forall i | 0 <= i < |ring|
      ensures Refers(doc, ring[i], Next(ring, i))
    {
      CitationRefers(doc, ring[i], Next(ring, i));
    }
    assert IsRing(doc, ring);
    RingInOne(doc, cycles, ring);
  }

  lemma RingInOne(doc: Document, cycles: seq<seq<AnyId>>, ring: seq<AnyId>)
    requires ReportsRings(doc, cycles) && IsRing(doc, ring)
    ensures AllInOne(cycles, ring)
  {
    hide Refers, StrictlySorted;
    var a := ring[0];
    assert OnOneRing(doc, a, a);
    assert Together(cycles, a, a);
    var i :| 0 <= i < |cycles| && a in cycles[i];
    forall b | b in ring
      ensures b in cycles[i]
    {
      assert OnOneRing(doc, a, b);
      assert Together(cycles, a, b);
    }
  }

  lemma PolicyText(name: string)
    ensures Str(AnyId(PolicyClass, name)) == "pol." + name
  {
    assert AnyId(PolicyClass, name).klass.Prefix() == "pol";
    assert "pol" + "." == "pol.";
  }

  lemma RoutingTogether(doc: Document, cycles: seq<seq<AnyId>>, names: seq<string>)
    requires ReportsRings(doc, cycles) && RoutingRing(doc, names)
    ensures AllInOne(cycles, PolicyIds(names))
  {
    hide ReportsRings, AllInOne, Str, ValidName;
    var ring := PolicyIds(names);
    forall i | 0 <= i < |ring|
      ensures ValidName(ring[i].local) && Cites(doc, ring[i], Next(ring, i))
    {
      PolicyText(Next(names, i));
    }
    CitationsTogether(doc, cycles, ring);
  }

  // ----- consequences ---------------------------------------------------------

  /** The document with its collections in another order, possibly with items repeated. */
  ghost predicate SameItems<T(!new)>(a: seq<T>, b: seq<T>) {
    forall x :: x in a <==> x in b
  }

  ghost predicate SameDeclarations(a: Document, b: Document) {
    && SameItems(a.devices, b.devices) && SameItems(a.racks, b.racks) && SameItems(a.pods, b.pods)
    && SameItems(a.sites, b.sites) && SameItems(a.ports, b.ports) && SameItems(a.links, b.links)
    && SameItems(a.workloads, b.workloads) && SameItems(a.policies, b.policies) && SameItems(a.intents, b.intents)
  }

  lemma CollectSame<T(!new)>(a: seq<T>, b: seq<T>, edges: T -> set<Edge>)
    requires SameItems(a, b)
    ensures Collect(a, edges) == Collect(b, edges)
  {
    forall e
      ensures e in Collect(a, edges) <==> e in Collect(b, edges)
    {
      if e in Collect(a, edges) {
        var i :| 0 <= i < |a| && e in edges(a[i]);
        assert a[i] in b;
      }
      if e in Collect(b, edges) {
        var i :| 0 <= i < |b| && e in edges(b[i]);
        assert b[i] in a;
      }
    }
  }

  /** The report does not depend on declaration order: any two reports for reordered documents are equal. */
  lemma ReportIgnoresOrder(a: Document, b: Document, ra: seq<seq<AnyId>>, rb: seq<seq<AnyId>>)
    requires SameDeclarations(a, b)
    requires IsReport(ReferenceEdges(a), ra) && IsReport(ReferenceEdges(b), rb)
    ensures ra == rb
  {
    CollectSame(a.devices, b.devices, DeviceEdges);
    CollectSame(a.racks, b.racks, RackEdges);
    CollectSame(a.pods, b.pods, PodEdges);
    CollectSame(a.sites, b.sites, SiteEdges);
    CollectSame(a.ports, b.ports, PortEdges);
    CollectSame(a.links, b.links, LinkEdges);
    CollectSame(a.workloads, b.workloads, WorkloadEdges);
    CollectSame(a.policies, b.policies, PolicyEdges);
    CollectSame(a.intents, b.intents, IntentEdges);
    assert ReferenceEdges(a) == ReferenceEdges(b);
    hide *;
    ReportUnique(ReferenceEdges(a), ra, rb);
  }

  /** Containment runs from fine to coarse; only policies and intent objects may refer to anything. */
  function Rank(klass: IdClass): nat {
    match klass
    case WorkloadClass => 8
    case LinkClass => 7
    case PortClass => 6
    case DeviceClass => 5
    case RackClass => 4
    case PodClass => 3
    case SiteClass => 2
    case FabricClass => 1
    case _ => 0
  }

  predicate FreeSource(id: AnyId) { id.klass == PolicyClass || id.klass == IntentClass }

  lemma FreeEdges(doc: Document, e: Edge)
    requires e in Collect(doc.policies, PolicyEdges) || e in Collect(doc.intents, IntentEdges)
    ensures FreeSource(e.0)
  {
  }

  lemma ContainmentDescends(doc: Document, e: Edge)
    requires e in ReferenceEdges(doc) && !FreeSource(e.0)
    ensures !FreeSource(e.1) && Rank(e.1.klass) < Rank(e.0.klass)
  {
    hide Collect, PolicyEdges, IntentEdges;
    if e in Collect(doc.devices, DeviceEdges) {
      var i := CollectedFrom(doc.devices, DeviceEdges, e);
    } else if e in Collect(doc.racks, RackEdges) {
      var i := CollectedFrom(doc.racks, RackEdges, e);
    } else if e in Collect(doc.pods, PodEdges) {
      var i := CollectedFrom(doc.pods, PodEdges, e);
    } else if e in Collect(doc.sites, SiteEdges) {
      var i := CollectedFrom(doc.sites, SiteEdges, e);
    } else if e in Collect(doc.ports, PortEdges) {
      var i := CollectedFrom(doc.ports, PortEdges, e);
    } else if e in Collect(doc.links, LinkEdges) {
      var i := CollectedFrom(doc.links, LinkEdges, e);
    } else if e in Collect(doc.workloads, WorkloadEdges) {
      var i := CollectedFrom(doc.workloads, WorkloadEdges, e);
      WorkloadDescends(doc.workloads[i], e);
    } else {
      FreeEdges(doc, e);
    }
  }

  lemma WorkloadDescends(w: Workload, e: Edge)
    requires e in WorkloadEdges(w)
    ensures e.0.klass == WorkloadClass && (e.1.klass == TenantClass || e.1.klass == DeviceClass)
  {
  }

  /** From an identity that is neither policy nor intent object, references only lead to lower ranks. */
  lemma {:induction false} WalkDescends(doc: Document, p: seq<AnyId>, i: nat)
    requires IsPath(ReferenceEdges(doc), p) && i < |p| && !FreeSource(p[0])
    ensures !FreeSource(p[i]) && Rank(p[i].klass) <= Rank(p[0].klass)
  {
    if i > 0 {
      WalkDescends(doc, p, i - 1);
      assert (p[i - 1], p[i - 1 + 1]) in ReferenceEdges(doc);
      ContainmentDescends(doc, (p[i - 1], p[i]));
    }
  }

  /** Every reported cycle consists of policies and intent objects only. */
  lemma CyclesAreFree(doc: Document, cycles: seq<seq<AnyId>>, i: nat, u: AnyId)
    requires IsReport(ReferenceEdges(doc), cycles) && i < |cycles| && u in cycles[i]
    ensures FreeSource(u)
  {
    var rel := ReferenceEdges(doc);
    assert OnCycle(rel, u) by { assert IsCycleOf(rel, cycles[i]); }
    hide IsReport, ReferenceEdges;
    if !FreeSource(u) {
      var w :| (u, w) in rel && Reaches(rel, w, u);
      ContainmentDescends(doc, (u, w));
      var p :| PathFromTo(rel, p, w, u);
      WalkDescends(doc, p, |p| - 1);
      assert false;
    }
  }
}
