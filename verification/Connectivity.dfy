/** Device connectivity over enabled links (src/validate.cpp:857-895). */
module Connectivity {
  import opened Ordering
  import opened Identities
  import opened Documents
  import opened Reachability

  type Adjacency = map<string, seq<string>>

  // ----- the undirected graph of a document ----------------------------------------------

  /** A link that is enabled and whose two endpoints resolve joins their devices. */
  predicate Joins(doc: Document, l: Link, a: string, b: string) {
    && l.admin == Enabled
    && PortDevice(doc.ports, l.endpointA) == Some(a)
    && PortDevice(doc.ports, l.endpointB) == Some(b)
  }

  ghost predicate Linked(doc: Document, a: string, b: string) {
    exists l :: l in doc.links && (Joins(doc, l, a, b) || Joins(doc, l, b, a))
  }

  ghost predicate IsDevice(doc: Document, id: string) { exists d :: d in doc.devices && d.id == id }

  /** The declared devices, and those that a port of an enabled link names. */
  ghost predicate IsNode(doc: Document, id: string) { IsDevice(doc, id) || exists other :: Linked(doc, id, other) }

  ghost function Edges(adjacency: Adjacency): set<(string, string)> {
    set a, k | a in adjacency && 0 <= k < |adjacency[a]| :: (a, adjacency[a][k])
  }

  ghost predicate Undirected(adjacency: Adjacency) {
    && (forall a, b :: (a, b) in Edges(adjacency) ==> b in adjacency)
    && forall a, b :: (a, b) in Edges(adjacency) ==> (b, a) in Edges(adjacency)
  }

  /** The adjacency lists are those of the document. */
  ghost predicate Describes(adjacency: Adjacency, doc: Document) {
    && (forall a :: a in adjacency <==> IsNode(doc, a))
    && forall a, b :: (a, b) in Edges(adjacency) <==> Linked(doc, a, b)
  }

  // ----- reachability in an undirected graph -----------------------------------------------

  ghost predicate Symmetric<T(!new)>(rel: set<(T, T)>) { forall a, b :: (a, b) in rel ==> (b, a) in rel }

  lemma {:induction false} ReachesBack<T(!new)>(rel: set<(T, T)>, u: T, v: T)
    requires Symmetric(rel) && Reaches(rel, u, v)
    ensures Reaches(rel, v, u)
  {
    var p :| PathFromTo(rel, p, u, v);
    var q := seq(|p|, i requires 0 <= i < |p| => p[|p| - 1 - i]);
    forall i | 0 <= i < |q| - 1
      ensures (q[i], q[i + 1]) in rel
    {
      assert (p[|p| - 2 - i], p[|p| - 1 - i]) in rel;
    }
    assert PathFromTo(rel, q, v, u);
  }

  // ----- labelling ---------------------------------------------------------------------------

  ghost predicate ClosedUnder(rel: set<(string, string)>, nodes: set<string>) {
    forall a, b :: (a, b) in rel && a in nodes ==> b in nodes
  }

  /** Two labelled nodes are labelled alike exactly when a path joins them, and every label is used. */
  ghost predicate Labelled(rel: set<(string, string)>, component: map<string, nat>, next: nat) {
    && ClosedUnder(rel, component.Keys)
    && (forall u, v :: u in component && v in component ==> (component[u] == component[v] <==> Reaches(rel, u, v)))
    && (forall u :: u in component ==> component[u] < next)
    && forall c: nat :: c < next ==> HasLabel(component, c)
  }

  ghost predicate HasLabel(component: map<string, nat>, c: nat) { exists u :: u in component && component[u] == c }

  /** The search from a root: earlier labels stand, the new ones are reached, and only stacked nodes are unfinished. */
  ghost predicate Searching(adjacency: Adjacency, before: map<string, nat>, component: map<string, nat>, next: nat, root: string, stack: seq<string>) {
    && before.Keys <= component.Keys <= adjacency.Keys
    && (forall u :: u in before ==> component[u] == before[u])
    && root in component && root !in before
    && (forall u :: u in component && u !in before ==> component[u] == next && Reaches(Edges(adjacency), root, u))
    && (forall i :: 0 <= i < |stack| ==> stack[i] in component && stack[i] !in before)
  }

  ghost predicate Finished(adjacency: Adjacency, component: map<string, nat>, u: string)
    requires u in adjacency
  {
    forall k :: 0 <= k < |adjacency[u]| ==> adjacency[u][k] in component
  }

  /** Everything newly labelled is finished, unless it is on the stack. */
  ghost predicate RestStacked(adjacency: Adjacency, before: map<string, nat>, component: map<string, nat>, stack: seq<string>) {
    forall u :: u in component && u !in before && u in adjacency && u !in stack ==> Finished(adjacency, component, u)
  }

  /** When the stack is empty, the newly labelled nodes are the root's component. */
  lemma SearchDone(adjacency: Adjacency, before: map<string, nat>, component: map<string, nat>, next: nat, root: string)
    requires Undirected(adjacency) && Labelled(Edges(adjacency), before, next)
    requires Searching(adjacency, before, component, next, root, []) && RestStacked(adjacency, before, component, [])
    ensures Labelled(Edges(adjacency), component, next + 1)
  {
    var rel := Edges(adjacency);
    var newly := component.Keys - before.Keys;
    forall a, b | (a, b) in rel && a in newly
      ensures b in newly
    {
      assert Finished(adjacency, component, a);
      var k :| 0 <= k < |adjacency[a]| && adjacency[a][k] == b;
      assert (b, a) in rel;
    }
    FreshApart(rel, before, component, next, root);
    forall c: nat | c < next + 1
      ensures HasLabel(component, c)
    {
      if c < next {
        assert HasLabel(before, c);
        var u :| u in before && before[u] == c;
        assert component[u] == c;
      } else {
        assert component[root] == c;
      }
    }
  }

  lemma FreshApart(rel: set<(string, string)>, before: map<string, nat>, component: map<string, nat>, next: nat, root: string)
    requires Symmetric(rel) && Labelled(rel, before, next) && before.Keys <= component.Keys
    requires ClosedUnder(rel, component.Keys - before.Keys)
    requires forall u :: u in before ==> component[u] == before[u]
    requires forall u :: u in component && u !in before ==> component[u] == next && Reaches(rel, root, u)
    ensures ClosedUnder(rel, component.Keys)
    ensures forall u, v :: u in component && v in component ==> (component[u] == component[v] <==> Reaches(rel, u, v))
  {
    var newly := component.Keys - before.Keys;
    forall u, v | u in component && v in component
      ensures component[u] == component[v] <==> Reaches(rel, u, v)
    {
      if u in newly && v in newly {
        ReachesBack(rel, root, u);
        ReachesTrans(rel, u, root, v);
      } else if u in newly {
        if Reaches(rel, u, v) { ReachesStaysInClosed(rel, newly, u, v); }
      } else if v in newly {
        if Reaches(rel, u, v) { ReachesStaysInClosed(rel, before.Keys, u, v); }
      }
    }
  }

  // ----- the search -----------------------------------------------------------------------------

  ghost predicate AllButOne(adjacency: Adjacency, before: map<string, nat>, component: map<string, nat>, stack: seq<string>, current: string) {
    forall u :: u in component && u !in before && u in adjacency && u !in stack && u != current ==> Finished(adjacency, component, u)
  }

  /** Labels the neighbours of one node, and stacks those that had no label. */
  method Visit(adjacency: Adjacency, ghost before: map<string, nat>, component: map<string, nat>, next: nat, ghost root: string, current: string, stack: seq<string>)
    returns (component': map<string, nat>, stack': seq<string>)
    requires Undirected(adjacency) && Searching(adjacency, before, component, next, root, stack)
    requires current in component && current !in before && current in adjacency
    requires AllButOne(adjacency, before, component, stack, current)
    ensures Searching(adjacency, before, component', next, root, stack') && RestStacked(adjacency, before, component', stack')
    ensures component.Keys <= component'.Keys
    ensures component'.Keys == component.Keys ==> stack' == stack
  {
    component', stack' := component, stack;
    var neighbours := adjacency[current];
    for k := 0 to |neighbours|
      invariant component.Keys <= component'.Keys
      invariant Searching(adjacency, before, component', next, root, stack')
      invariant forall j :: 0 <= j < k ==> neighbours[j] in component'
      invariant component'.Keys == component.Keys ==> stack' == stack
      invariant AllButOne(adjacency, before, component', stack', current)
    {
      var neighbour := neighbours[k];
      if neighbour !in component' {
        Reached(adjacency, before, component', next, root, current, k);
        component' := component'[neighbour := next];
        stack' := stack' + [neighbour];
        assert stack'[|stack'| - 1] == neighbour;
      }
    }
  }

  lemma Reached(adjacency: Adjacency, before: map<string, nat>, component: map<string, nat>, next: nat, root: string, current: string, k: nat)
    requires Undirected(adjacency) && Searching(adjacency, before, component, next, root, [])
    requires current in component && current !in before && current in adjacency && k < |adjacency[current]|
    ensures adjacency[current][k] in adjacency && Reaches(Edges(adjacency), root, adjacency[current][k])
  {
    var rel, b := Edges(adjacency), adjacency[current][k];
    assert (current, b) in rel;
    ReachesEdge(rel, current, b);
    ReachesTrans(rel, root, current, b);
  }

  /**
   * Labels every node; the search looks up only nodes that have an adjacency list already, so it adds
   * none to the map it is walking.
   */
  method LabelComponents(adjacency: Adjacency) returns (component: map<string, nat>, next: nat)
    requires Undirected(adjacency)
    ensures component.Keys == adjacency.Keys && Labelled(Edges(adjacency), component, next)
  {
    hide StrLe;
    component, next := map[], 0;
    var rest := adjacency.Keys;
    while rest != {}
      invariant rest <= adjacency.Keys && component.Keys <= adjacency.Keys
      invariant adjacency.Keys - rest <= component.Keys
      invariant Labelled(Edges(adjacency), component, next)
      decreases rest
    {
      LeastKeyExists(rest);
      var node :| LeastKey(node, rest);
      rest := rest - {node};
      if node in component {
        continue;
      }
      component := Search(adjacency, component, next, node);
      next := next + 1;
    }
  }

  /** Labels everything reachable from a node that has no label. */
  method Search(adjacency: Adjacency, before: map<string, nat>, next: nat, root: string) returns (component: map<string, nat>)
    requires Undirected(adjacency) && before.Keys <= adjacency.Keys && Labelled(Edges(adjacency), before, next)
    requires root in adjacency && root !in before
    ensures before.Keys + {root} <= component.Keys <= adjacency.Keys && Labelled(Edges(adjacency), component, next + 1)
  {
    hide Labelled, Undirected, Searching, RestStacked, AllButOne;
    var stack := [root];
    component := before[root := next];
    SearchStarts(adjacency, before, next, root);
    while stack != []
      invariant Searching(adjacency, before, component, next, root, stack) && RestStacked(adjacency, before, component, stack)
      decreases |adjacency.Keys - component.Keys|, |stack|
    {
      var current := stack[|stack| - 1];
      Popped(adjacency, before, component, next, root, stack);
      ghost var known := component.Keys;
      stack := stack[..|stack| - 1];
      component, stack := Visit(adjacency, before, component, next, root, current, stack);
      SearchBounds(adjacency, before, component, next, root, stack);
      Shrinks(adjacency.Keys, known, component.Keys);
    }
    SearchBounds(adjacency, before, component, next, root, []);
    SearchDone(adjacency, before, component, next, root);
  }

  lemma SearchStarts(adjacency: Adjacency, before: map<string, nat>, next: nat, root: string)
    requires before.Keys <= adjacency.Keys && root in adjacency && root !in before
    ensures Searching(adjacency, before, before[root := next], next, root, [root])
    ensures RestStacked(adjacency, before, before[root := next], [root])
  {
    ReachesSelf(Edges(adjacency), root);
  }

  lemma SearchBounds(adjacency: Adjacency, before: map<string, nat>, component: map<string, nat>, next: nat, root: string, stack: seq<string>)
    requires Searching(adjacency, before, component, next, root, stack)
    ensures before.Keys + {root} <= component.Keys <= adjacency.Keys
  {
  }

  lemma Popped(adjacency: Adjacency, before: map<string, nat>, component: map<string, nat>, next: nat, root: string, stack: seq<string>)
    requires stack != []
    requires Searching(adjacency, before, component, next, root, stack) && RestStacked(adjacency, before, component, stack)
    ensures var current, rest := stack[|stack| - 1], stack[..|stack| - 1];
      && current in component && current !in before && current in adjacency
      && Searching(adjacency, before, component, next, root, rest) && AllButOne(adjacency, before, component, rest, current)
  {
    assert stack == stack[..|stack| - 1] + [stack[|stack| - 1]];
  }

  lemma Shrinks<T>(all: set<T>, x: set<T>, y: set<T>)
    requires x <= y <= all
    ensures |all - y| <= |all - x| && (x != y ==> |all - y| < |all - x|)
  {
    Cardinality(all - y, all - x);
    if x != y {
      assert all - y != all - x by {
        var e :| e in y && e !in x;
        assert e in all - x && e !in all - y;
      }
    }
  }

  lemma {:induction false} Cardinality<T>(x: set<T>, y: set<T>)
    requires x <= y
    ensures |x| <= |y| && (x != y ==> |x| < |y|)
  {
    assert y == x + (y - x);
    if x != y {
      var e :| e in y && e !in x;
      assert e in y - x;
    }
  }

  // ----- the adjacency lists of a document ------------------------------------------------------------

  /** Appends to a list of the map, which is created empty where there was none. */
  method Push(adjacency: Adjacency, a: string, b: string) returns (r: Adjacency)
    ensures r.Keys == adjacency.Keys + {a}
    ensures Edges(r) == Edges(adjacency) + {(a, b)}
  {
    var list := if a in adjacency then adjacency[a] else [];
    r := adjacency[a := list + [b]];
    assert r[a][|list|] == b;
    forall x, k | x in adjacency && 0 <= k < |adjacency[x]|
      ensures (x, adjacency[x][k]) in Edges(r)
    {
      assert r[x][k] == adjacency[x][k];
    }
  }

  lemma OneMoreDevice(doc: Document, i: nat, adjacency: Adjacency, r: Adjacency)
    requires i < |doc.devices| && doc.links == []
    requires Describes(adjacency, doc.(devices := doc.devices[..i]))
    requires r.Keys == adjacency.Keys + {doc.devices[i].id} && Edges(r) == Edges(adjacency)
    ensures Describes(r, doc.(devices := doc.devices[..i + 1]))
  {
    hide Linked, Edges, IsDevice;
    var d0, d1 := doc.(devices := doc.devices[..i]), doc.(devices := doc.devices[..i + 1]);
    NoneLinked(d0);
    NoneLinked(d1);
    DevicesGrow(d0, d1, doc.devices[i]);
  }

  lemma NoneLinked(doc: Document)
    requires doc.links == []
    ensures forall a, b :: !Linked(doc, a, b)
  {
  }

  lemma DevicesGrow(d0: Document, d1: Document, device: Device)
    requires d1.devices == d0.devices + [device]
    ensures forall id :: IsDevice(d1, id) <==> IsDevice(d0, id) || id == device.id
  {
    forall id
      ensures IsDevice(d1, id) <==> IsDevice(d0, id) || id == device.id
    {
      assert device in d1.devices;
    }
  }

  /** One more link adds the edges it makes, both ways, or nothing. */
  lemma OneMoreLink(doc: Document, i: nat, adjacency: Adjacency, r: Adjacency, a: string, b: string)
    requires i < |doc.links| && Joins(doc, doc.links[i], a, b)
    requires Describes(adjacency, doc.(links := doc.links[..i]))
    requires r.Keys == adjacency.Keys + {a, b} && Edges(r) == Edges(adjacency) + {(a, b), (b, a)}
    ensures Describes(r, doc.(links := doc.links[..i + 1]))
  {
    hide Linked, PortDevice, Joins;
    var d0, d1, l := doc.(links := doc.links[..i]), doc.(links := doc.links[..i + 1]), doc.links[i];
    forall x, y
      ensures Linked(d1, x, y) <==> Linked(d0, x, y) || (x, y) == (a, b) || (x, y) == (b, a)
    {
      LinkedAfter(doc, i, x, y);
      JoinsAt(doc, l, a, b, x, y);
      JoinsAt(doc, l, a, b, y, x);
    }
    forall x
      ensures IsNode(d1, x) <==> IsNode(d0, x) || x == a || x == b
    {
      assert Linked(d1, a, b) && Linked(d1, b, a);
      assert IsDevice(d1, x) <==> IsDevice(d0, x);
    }
  }

  /** One more link links what it joins. */
  lemma LinkedAfter(doc: Document, i: nat, x: string, y: string)
    requires i < |doc.links|
    ensures Linked(doc.(links := doc.links[..i + 1]), x, y)
       <==> Linked(doc.(links := doc.links[..i]), x, y) || Joins(doc, doc.links[i], x, y) || Joins(doc, doc.links[i], y, x)
  {
    hide PortDevice;
    var d0, d1, l := doc.(links := doc.links[..i]), doc.(links := doc.links[..i + 1]), doc.links[i];
    assert d1.links == d0.links + [l] && l in d1.links;
    assert forall m, u, v :: Joins(d1, m, u, v) == Joins(doc, m, u, v) == Joins(d0, m, u, v);
  }

  lemma JoinsAt(doc: Document, l: Link, a: string, b: string, x: string, y: string)
    requires Joins(doc, l, a, b)
    ensures Joins(doc, l, x, y) <==> x == a && y == b
  {
    hide PortDevice;
  }

  lemma NoMoreEdges(doc: Document, i: nat, adjacency: Adjacency)
    requires i < |doc.links| && forall a, b :: !Joins(doc, doc.links[i], a, b)
    requires Describes(adjacency, doc.(links := doc.links[..i]))
    ensures Describes(adjacency, doc.(links := doc.links[..i + 1]))
  {
    hide Linked, Joins;
    var d0, d1 := doc.(links := doc.links[..i]), doc.(links := doc.links[..i + 1]);
    forall x, y
      ensures Linked(d1, x, y) <==> Linked(d0, x, y)
    {
      LinkedAfter(doc, i, x, y);
    }
    assert forall x :: IsDevice(d1, x) <==> IsDevice(d0, x);
  }

  method BuildAdjacency(doc: Document) returns (adjacency: Adjacency)
    ensures Describes(adjacency, doc) && Undirected(adjacency)
  {
    hide Describes, Edges, Linked, IsNode, PortDevice;
    adjacency := map[];
    ghost var bare := doc.(links := []);
    NothingDescribed(doc);
    for i := 0 to |doc.devices|
      invariant Describes(adjacency, bare.(devices := doc.devices[..i]))
    {
      ghost var was := adjacency;
      var id := doc.devices[i].id;
      if id !in adjacency {
        EmptyList(adjacency, id);
        adjacency := adjacency[id := []];
      }
      OneMoreDevice(bare, i, was, adjacency);
    }
    assert doc.devices[..|doc.devices|] == doc.devices && doc.links[..0] == [];
    for i := 0 to |doc.links|
      invariant Describes(adjacency, doc.(links := doc.links[..i]))
    {
      var l := doc.links[i];
      var a, b := PortDevice(doc.ports, l.endpointA), PortDevice(doc.ports, l.endpointB);
      if l.admin != Enabled || a.None? || b.None? {
        NoMoreEdges(doc, i, adjacency);
        continue;
      }
      var once := Push(adjacency, a.value, b.value);
      var twice := Push(once, b.value, a.value);
      assert twice.Keys == adjacency.Keys + {a.value, b.value};
      assert Edges(twice) == Edges(adjacency) + {(a.value, b.value), (b.value, a.value)};
      OneMoreLink(doc, i, adjacency, twice, a.value, b.value);
      adjacency := twice;
    }
    assert doc.links[..|doc.links|] == doc.links;
    DescribedIsUndirected(doc, adjacency);
  }

  lemma EmptyList(adjacency: Adjacency, id: string)
    requires id !in adjacency
    ensures Edges(adjacency[id := []]) == Edges(adjacency)
  {
    var r := adjacency[id := []];
    forall x, k | x in adjacency && 0 <= k < |adjacency[x]|
      ensures (x, adjacency[x][k]) in Edges(r)
    {
      assert r[x][k] == adjacency[x][k];
    }
  }

  lemma NothingDescribed(doc: Document)
    ensures Describes(map[], doc.(links := []).(devices := doc.devices[..0]))
  {
  }

  lemma DescribedIsUndirected(doc: Document, adjacency: Adjacency)
    requires Describes(adjacency, doc)
    ensures Undirected(adjacency)
  {
    forall a, b | (a, b) in Edges(adjacency)
      ensures (b, a) in Edges(adjacency) && b in adjacency
    {
      assert Linked(doc, a, b);
      assert Linked(doc, b, a);
      assert IsNode(doc, b);
    }
  }

  // ----- the verdict -----------------------------------------------------------------------------------

  /** The links of a document as edges between devices, in both directions. */
  ghost function LinkEdges(doc: Document): set<(string, string)> {
    (set l | l in doc.links && Resolves(doc, l) :: (EndA(doc, l), EndB(doc, l)))
    + (set l | l in doc.links && Resolves(doc, l) :: (EndB(doc, l), EndA(doc, l)))
  }

  predicate Resolves(doc: Document, l: Link) {
    l.admin == Enabled && PortDevice(doc.ports, l.endpointA).Some? && PortDevice(doc.ports, l.endpointB).Some?
  }

  function EndA(doc: Document, l: Link): string
    requires Resolves(doc, l)
  {
    PortDevice(doc.ports, l.endpointA).value
  }

  function EndB(doc: Document, l: Link): string
    requires Resolves(doc, l)
  {
    PortDevice(doc.ports, l.endpointB).value
  }

  lemma LinkEdgesAreLinks(doc: Document, a: string, b: string)
    ensures (a, b) in LinkEdges(doc) <==> Linked(doc, a, b)
  {
    if Linked(doc, a, b) {
      var l :| l in doc.links && (Joins(doc, l, a, b) || Joins(doc, l, b, a));
      assert Resolves(doc, l);
    }
    if (a, b) in LinkEdges(doc) {
      var l :| l in doc.links && Resolves(doc, l) && ((EndA(doc, l), EndB(doc, l)) == (a, b) || (EndB(doc, l), EndA(doc, l)) == (a, b));
      assert Joins(doc, l, a, b) || Joins(doc, l, b, a);
    }
  }

  lemma EdgesAreLinks(doc: Document, adjacency: Adjacency)
    requires Describes(adjacency, doc)
    ensures Edges(adjacency) == LinkEdges(doc)
  {
    hide Linked;
    forall a, b
      ensures (a, b) in LinkEdges(doc) <==> Linked(doc, a, b)
    {
      LinkEdgesAreLinks(doc, a, b);
    }
  }

  /** Two nodes of the document that no path of enabled links joins. */
  ghost predicate Separated(doc: Document) {
    exists u, v :: IsNode(doc, u) && IsNode(doc, v) && !Reaches(LinkEdges(doc), u, v)
  }

  /** The labels group the nodes of the document by paths of enabled links. */
  ghost predicate GroupsNodes(doc: Document, component: map<string, nat>) {
    && (forall u :: u in component <==> IsNode(doc, u))
    && forall u, v :: u in component && v in component ==> (component[u] == component[v] <==> Reaches(LinkEdges(doc), u, v))
  }

  /** With two or more devices, a partition is reported exactly when two nodes are not joined. */
  method CheckConnectivity(doc: Document) returns (partitioned: bool, component: map<string, nat>)
    ensures partitioned <==> |doc.devices| > 1 && Separated(doc)
    ensures |doc.devices| > 1 ==> GroupsNodes(doc, component)
  {
    hide LinkEdges, IsNode, Edges;
    var adjacency := BuildAdjacency(doc);
    EdgesAreLinks(doc, adjacency);
    if |doc.devices| <= 1 {
      return false, map[];
    }
    var next;
    component, next := LabelComponents(adjacency);
    partitioned := next > 1;
    if next > 1 {
      assert HasLabel(component, 0) && HasLabel(component, 1);
    }
  }

  // ----- the verdict by the declarations alone -----------------------------------------------------------

  /** The port at i is the first with the identity. */
  predicate FirstPort(ports: seq<Port>, i: nat, id: string) {
    i < |ports| && ports[i].id == id && forall j :: 0 <= j < i ==> ports[j].id != id
  }

  /** An enabled link ends on a port of either device. */
  ghost predicate Wired(doc: Document, a: string, b: string) {
    exists l, i: nat, j: nat ::
      l in doc.links && l.admin == Enabled && FirstPort(doc.ports, i, l.endpointA) && FirstPort(doc.ports, j, l.endpointB)
      && ((doc.ports[i].device == a && doc.ports[j].device == b) || (doc.ports[i].device == b && doc.ports[j].device == a))
  }

  /** The devices a partition is about. */
  ghost predicate OnMap(doc: Document, u: string) {
    (exists d :: d in doc.devices && d.id == u) || exists v :: Wired(doc, u, v)
  }

  ghost predicate Walk(doc: Document, p: seq<string>, u: string, v: string) {
    |p| > 0 && p[0] == u && p[|p| - 1] == v && forall i :: 0 <= i < |p| - 1 ==> Wired(doc, p[i], p[i + 1])
  }

  /** A walk over enabled links joins the two. */
  ghost predicate Walkable(doc: Document, u: string, v: string) { exists p :: Walk(doc, p, u, v) }

  lemma {:induction false} PortDeviceIff(ports: seq<Port>, id: string, device: string)
    ensures PortDevice(ports, id) == Some(device) <==> exists i: nat :: FirstPort(ports, i, id) && ports[i].device == device
  {
    if ports != [] {
      PortDeviceIff(ports[1..], id, device);
      if ports[0].id == id {
        assert FirstPort(ports, 0, id);
      } else {
        if i: nat :| FirstPort(ports[1..], i, id) && ports[1..][i].device == device {
          assert forall j :: 0 < j < i + 1 ==> ports[1..][j - 1] == ports[j];
          assert FirstPort(ports, i + 1, id);
        }
        if i: nat :| FirstPort(ports, i, id) && ports[i].device == device {
          assert forall j :: 0 <= j < i - 1 ==> ports[1..][j] == ports[j + 1];
          assert FirstPort(ports[1..], i - 1, id);
        }
      }
    }
  }

  lemma WiredIff(doc: Document, a: string, b: string)
    ensures Linked(doc, a, b) <==> Wired(doc, a, b)
  {
    hide PortDevice;
    if Linked(doc, a, b) {
      var l :| l in doc.links && (Joins(doc, l, a, b) || Joins(doc, l, b, a));
      var x := PortDevice(doc.ports, l.endpointA).value;
      var y := PortDevice(doc.ports, l.endpointB).value;
      PortDeviceIff(doc.ports, l.endpointA, x);
      PortDeviceIff(doc.ports, l.endpointB, y);
    }
    if Wired(doc, a, b) {
      var l, i: nat, j: nat :|
        l in doc.links && l.admin == Enabled && FirstPort(doc.ports, i, l.endpointA) && FirstPort(doc.ports, j, l.endpointB)
        && ((doc.ports[i].device == a && doc.ports[j].device == b) || (doc.ports[i].device == b && doc.ports[j].device == a));
      PortDeviceIff(doc.ports, l.endpointA, doc.ports[i].device);
      PortDeviceIff(doc.ports, l.endpointB, doc.ports[j].device);
    }
  }

  lemma WalkableIff(doc: Document, u: string, v: string)
    ensures Reaches(LinkEdges(doc), u, v) <==> Walkable(doc, u, v)
  {
    hide LinkEdges, Linked, Wired;
    forall a, b
      ensures (a, b) in LinkEdges(doc) <==> Wired(doc, a, b)
    {
      LinkEdgesAreLinks(doc, a, b);
      WiredIff(doc, a, b);
    }
    if Reaches(LinkEdges(doc), u, v) {
      var p :| PathFromTo(LinkEdges(doc), p, u, v);
      assert forall i :: 0 <= i < |p| - 1 ==> (p[i], p[i + 1]) in LinkEdges(doc);
      assert Walk(doc, p, u, v);
    }
    if Walkable(doc, u, v) {
      var p :| Walk(doc, p, u, v);
      assert forall i :: 0 <= i < |p| - 1 ==> Wired(doc, p[i], p[i + 1]);
      assert PathFromTo(LinkEdges(doc), p, u, v);
    }
  }

  lemma OnMapIff(doc: Document, u: string)
    ensures IsNode(doc, u) <==> OnMap(doc, u)
  {
    hide Linked, Wired;
    forall v
      ensures Linked(doc, u, v) <==> Wired(doc, u, v)
    {
      WiredIff(doc, u, v);
    }
  }

  /** Main result. A partition is reported exactly when two devices on the map have no walk of enabled links between them. */
  method PartitionDecides(doc: Document) returns (partitioned: bool, component: map<string, nat>)
    ensures partitioned <==> |doc.devices| > 1 && exists u, v :: OnMap(doc, u) && OnMap(doc, v) && !Walkable(doc, u, v)
    ensures |doc.devices| > 1 ==> (forall u :: u in component <==> OnMap(doc, u))
    ensures forall u, v :: u in component && v in component ==> (component[u] == component[v] <==> Walkable(doc, u, v))
  {
    hide IsNode, OnMap, Walkable, Reaches;
    forall u
      ensures IsNode(doc, u) <==> OnMap(doc, u)
    {
      OnMapIff(doc, u);
    }
    forall u, v
      ensures Reaches(LinkEdges(doc), u, v) <==> Walkable(doc, u, v)
    {
      WalkableIff(doc, u, v);
    }
    hide LinkEdges;
    partitioned, component := CheckConnectivity(doc);
    if |doc.devices| <= 1 {
      component := map[];
    }
  }
}
