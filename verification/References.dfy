/**
 * The references a document declares (src/index.cpp:490-566): as they are written in its declarations, and as the
 * set of edges the detector collects.
 */
module References {
  import opened Identities
  import opened Documents
  import opened Reachability

  type Edge = (AnyId, AnyId)

  // ----- references as they are written ------------------------------------------------------

  /** The text names the identity. */
  predicate Denotes(text: string, id: AnyId) { text == Str(id) && ValidName(id.local) }

  ghost predicate Extends(doc: Document, a: AnyId, b: AnyId) {
    exists p :: p in doc.policies && a == AnyId(PolicyClass, p.id) && p.body.Routing? && Denotes(p.body.extendsPolicy, b)
  }

  ghost predicate Isolates(doc: Document, a: AnyId, b: AnyId) {
    exists p :: p in doc.policies && a == AnyId(PolicyClass, p.id) && p.body.TenantIsolation?
      && (b == AnyId(TenantClass, p.body.tenant) || exists text :: text in p.body.exclusiveScopes && Denotes(text, b))
  }

  ghost predicate Concerns(doc: Document, a: AnyId, b: AnyId) {
    exists t :: t in doc.intents && a == AnyId(IntentClass, t.id) && (b == t.subject || Denotes(t.tenant, b))
  }

  ghost predicate StandsIn(doc: Document, a: AnyId, b: AnyId) {
    exists d :: d in doc.devices && a == AnyId(DeviceClass, d.id)
      && b in {AnyId(RackClass, d.rack), AnyId(PodClass, d.pod), AnyId(SiteClass, d.site)}
  }

  ghost predicate EndsAt(doc: Document, a: AnyId, b: AnyId) {
    exists l :: l in doc.links && a == AnyId(LinkClass, l.id)
      && b in {AnyId(PortClass, l.endpointA), AnyId(PortClass, l.endpointB)}
  }

  /** The containment fields. */
  ghost predicate LiesIn(doc: Document, a: AnyId, b: AnyId) {
    || StandsIn(doc, a, b)
    || EndsAt(doc, a, b)
    || (exists r :: r in doc.racks && a == AnyId(RackClass, r.id) && b == AnyId(PodClass, r.pod))
    || (exists p :: p in doc.pods && a == AnyId(PodClass, p.id) && b == AnyId(SiteClass, p.site))
    || (exists s :: s in doc.sites && a == AnyId(SiteClass, s.id) && b == AnyId(FabricClass, s.fabric))
    || (exists p :: p in doc.ports && a == AnyId(PortClass, p.id) && b == AnyId(DeviceClass, p.device))
  }

  ghost predicate Places(doc: Document, a: AnyId, b: AnyId) {
    exists w :: w in doc.workloads && a == AnyId(WorkloadClass, w.id) && b == AnyId(TenantClass, w.tenant)
  }

  /** A placement counts even when it names no device; every other empty field does not. */
  ghost predicate PlacedOn(doc: Document, a: AnyId, b: AnyId) {
    exists w :: w in doc.workloads && a == AnyId(WorkloadClass, w.id) && b.klass == DeviceClass && b.local in w.placement
  }

  /** The document refers from a to b. */
  ghost predicate Refers(doc: Document, a: AnyId, b: AnyId) {
    || PlacedOn(doc, a, b)
    || (b.local != "" && (LiesIn(doc, a, b) || Places(doc, a, b) || Extends(doc, a, b) || Isolates(doc, a, b) || Concerns(doc, a, b)))
  }

  function Next<T>(ring: seq<T>, i: nat): T
    requires i < |ring|
  {
    if i + 1 < |ring| then ring[i + 1] else ring[0]
  }

  /** Each member refers to the next, and the last to the first. */
  ghost predicate IsRing(doc: Document, ring: seq<AnyId>) {
    ring != [] && forall i :: 0 <= i < |ring| ==> Refers(doc, ring[i], Next(ring, i))
  }

  /** One ring passes through both. */
  ghost predicate OnOneRing(doc: Document, a: AnyId, b: AnyId) {
    exists ring :: IsRing(doc, ring) && a in ring && b in ring
  }

  // ----- the edges collected -------------------------------------------------------------------

  /** A reference to a typed identity, absent when the field is empty. */
  function Typed(from: AnyId, klass: IdClass, local: string): set<Edge> {
    if local == "" then {} else {(from, AnyId(klass, local))}
  }

  /** A reference written as text, ignored when it does not parse. */
  function Parsed(from: AnyId, text: string): set<Edge> {
    match ParseId(text)
    case None => {}
    case Some(id) => {(from, id)}
  }

  /** The edges contributed by all the items of one collection. */
  ghost function Collect<T>(items: seq<T>, edges: T -> set<Edge>): set<Edge> {
    set i, e | 0 <= i < |items| && e in edges(items[i]) :: e
  }

  ghost function DeviceEdges(d: Device): set<Edge> {
    var from := AnyId(DeviceClass, d.id);
    Typed(from, RackClass, d.rack) + Typed(from, PodClass, d.pod) + Typed(from, SiteClass, d.site)
  }

  ghost function RackEdges(r: Rack): set<Edge> { Typed(AnyId(RackClass, r.id), PodClass, r.pod) }

  ghost function PodEdges(p: Pod): set<Edge> { Typed(AnyId(PodClass, p.id), SiteClass, p.site) }

  ghost function SiteEdges(s: Site): set<Edge> { Typed(AnyId(SiteClass, s.id), FabricClass, s.fabric) }

  ghost function PortEdges(p: Port): set<Edge> { Typed(AnyId(PortClass, p.id), DeviceClass, p.device) }

  ghost function LinkEdges(l: Link): set<Edge> {
    var from := AnyId(LinkClass, l.id);
    Typed(from, PortClass, l.endpointA) + Typed(from, PortClass, l.endpointB)
  }

  ghost function WorkloadEdges(w: Workload): set<Edge> {
    var from := AnyId(WorkloadClass, w.id);
    Typed(from, TenantClass, w.tenant) + Collect(w.placement, device => {(from, AnyId(DeviceClass, device))})
  }

  ghost function PolicyEdges(p: Policy): set<Edge> {
    var from := AnyId(PolicyClass, p.id);
    match p.body
    case Routing(extendsPolicy) => if extendsPolicy == "" then {} else Parsed(from, extendsPolicy)
    case TenantIsolation(tenant, scopes) => Typed(from, TenantClass, tenant) + Collect(scopes, scope => Parsed(from, scope))
    case _ => {}
  }

  ghost function IntentEdges(i: Intent): set<Edge> {
    var from := AnyId(IntentClass, i.id);
    (if i.subject.local == "" then {} else {(from, i.subject)}) + (if i.tenant == "" then {} else Parsed(from, i.tenant))
  }

  ghost function ReferenceEdges(doc: Document): set<Edge> {
    Collect(doc.devices, DeviceEdges) + Collect(doc.racks, RackEdges) + Collect(doc.pods, PodEdges)
    + Collect(doc.sites, SiteEdges) + Collect(doc.ports, PortEdges) + Collect(doc.links, LinkEdges)
    + Collect(doc.workloads, WorkloadEdges) + Collect(doc.policies, PolicyEdges) + Collect(doc.intents, IntentEdges)
  }

  lemma CollectNone<T>(items: seq<T>, edges: T -> set<Edge>)
    ensures Collect(items[..0], edges) == {}
  {
  }

  lemma CollectStep<T>(items: seq<T>, i: nat, edges: T -> set<Edge>)
    requires i < |items|
    ensures Collect(items[..i + 1], edges) == Collect(items[..i], edges) + edges(items[i])
  {
    assert items[..i + 1] == items[..i] + [items[i]];
    forall e | e in Collect(items[..i + 1], edges)
      ensures e in Collect(items[..i], edges) + edges(items[i])
    {
      var j :| 0 <= j < i + 1 && e in edges(items[..i + 1][j]);
      if j < i { assert items[..i][j] == items[..i + 1][j]; }
    }
    forall e | e in Collect(items[..i], edges)
      ensures e in Collect(items[..i + 1], edges)
    {
      var j :| 0 <= j < i && e in edges(items[..i][j]);
      assert items[..i + 1][j] == items[..i][j];
    }
    assert items[..i + 1][i] == items[i];
  }

  lemma CollectedFrom<T>(items: seq<T>, edges: T -> set<Edge>, e: Edge) returns (i: nat)
    requires e in Collect(items, edges)
    ensures i < |items| && e in edges(items[i])
  {
    i :| 0 <= i < |items| && e in edges(items[i]);
  }

  // ----- the edges are the references ---------------------------------------------------------

  lemma TypedIs(from: AnyId, klass: IdClass, local: string, e: Edge)
    ensures e in Typed(from, klass, local) <==> e.0 == from && e.1 == AnyId(klass, local) && e.1.local != ""
  {
  }

  lemma ParsedIs(from: AnyId, text: string, e: Edge)
    ensures e in Parsed(from, text) <==> e.0 == from && Denotes(text, e.1)
  {
    hide ParseId, Str, ValidName;
    ParseInvertsStr(text, e.1);
  }

  lemma CollectIs<T>(items: seq<T>, edges: T -> set<Edge>, e: Edge)
    ensures e in Collect(items, edges) <==> exists x :: x in items && e in edges(x)
  {
    if e in Collect(items, edges) {
      var i :| 0 <= i < |items| && e in edges(items[i]);
      assert items[i] in items;
    }
    if exists x :: x in items && e in edges(x) {
      var x :| x in items && e in edges(x);
      var i :| 0 <= i < |items| && items[i] == x;
    }
  }

  lemma DevicesAre(doc: Document, e: Edge)
    ensures e in Collect(doc.devices, DeviceEdges) <==> e.1.local != "" && StandsIn(doc, e.0, e.1)
  {
    CollectIs(doc.devices, DeviceEdges, e);
  }

  lemma LinksAre(doc: Document, e: Edge)
    ensures e in Collect(doc.links, LinkEdges) <==> e.1.local != "" && EndsAt(doc, e.0, e.1)
  {
    CollectIs(doc.links, LinkEdges, e);
  }

  lemma ContainersAre(doc: Document, e: Edge)
    ensures e in Collect(doc.racks, RackEdges) <==> (
      e.1.local != "" && exists r :: r in doc.racks && e.0 == AnyId(RackClass, r.id) && e.1 == AnyId(PodClass, r.pod))
    ensures e in Collect(doc.pods, PodEdges) <==> (
      e.1.local != "" && exists p :: p in doc.pods && e.0 == AnyId(PodClass, p.id) && e.1 == AnyId(SiteClass, p.site))
    ensures e in Collect(doc.sites, SiteEdges) <==> (
      e.1.local != "" && exists s :: s in doc.sites && e.0 == AnyId(SiteClass, s.id) && e.1 == AnyId(FabricClass, s.fabric))
    ensures e in Collect(doc.ports, PortEdges) <==> (
      e.1.local != "" && exists p :: p in doc.ports && e.0 == AnyId(PortClass, p.id) && e.1 == AnyId(DeviceClass, p.device))
  {
    hide Collect;
    CollectIs(doc.racks, RackEdges, e);
    CollectIs(doc.pods, PodEdges, e);
    CollectIs(doc.sites, SiteEdges, e);
    CollectIs(doc.ports, PortEdges, e);
  }

  lemma WorkloadIs(w: Workload, e: Edge)
    ensures e in WorkloadEdges(w) <==> (e.0 == AnyId(WorkloadClass, w.id)
      && ((e.1.local != "" && e.1 == AnyId(TenantClass, w.tenant)) || (e.1.klass == DeviceClass && e.1.local in w.placement)))
  {
    var from := AnyId(WorkloadClass, w.id);
    var placed := device => {(from, AnyId(DeviceClass, device))};
    TypedIs(from, TenantClass, w.tenant, e);
    CollectIs(w.placement, placed, e);
    assert forall device :: e in placed(device) <==> e == (from, AnyId(DeviceClass, device));
  }

  lemma WorkloadsAre(doc: Document, e: Edge)
    ensures e in Collect(doc.workloads, WorkloadEdges) <==> PlacedOn(doc, e.0, e.1) || (e.1.local != "" && Places(doc, e.0, e.1))
  {
    hide WorkloadEdges, Collect;
    CollectIs(doc.workloads, WorkloadEdges, e);
    forall w | w in doc.workloads
      ensures e in WorkloadEdges(w) <==> (e.0 == AnyId(WorkloadClass, w.id)
        && ((e.1.local != "" && e.1 == AnyId(TenantClass, w.tenant)) || (e.1.klass == DeviceClass && e.1.local in w.placement)))
    {
      WorkloadIs(w, e);
    }
  }

  lemma PolicyIs(p: Policy, e: Edge)
    requires e.1.local != ""
    ensures e in PolicyEdges(p) <==> (e.0 == AnyId(PolicyClass, p.id)
      && ((p.body.Routing? && Denotes(p.body.extendsPolicy, e.1))
          || (p.body.TenantIsolation?
              && (e.1 == AnyId(TenantClass, p.body.tenant) || exists text :: text in p.body.exclusiveScopes && Denotes(text, e.1)))))
  {
    hide Parsed, Denotes;
    var from := AnyId(PolicyClass, p.id);
    match p.body
    case Routing(text) =>
      ParsedIs(from, text, e);
      EmptyDenotesNothing(e.1);
    case TenantIsolation(tenant, scopes) =>
      var named := scope => Parsed(from, scope);
      TypedIs(from, TenantClass, tenant, e);
      CollectIs(scopes, named, e);
      forall scope
        ensures e in named(scope) <==> e.0 == from && Denotes(scope, e.1)
      {
        ParsedIs(from, scope, e);
      }
    case _ =>
  }

  lemma EmptyDenotesNothing(id: AnyId)
    ensures !Denotes("", id)
  {
  }

  lemma IntentIs(t: Intent, e: Edge)
    requires e.1.local != ""
    ensures e in IntentEdges(t) <==> e.0 == AnyId(IntentClass, t.id) && (e.1 == t.subject || Denotes(t.tenant, e.1))
  {
    hide Parsed, Denotes;
    ParsedIs(AnyId(IntentClass, t.id), t.tenant, e);
    EmptyDenotesNothing(e.1);
  }

  /** No edge but a placement leads to an empty name. */
  lemma NeverEmpty(doc: Document, e: Edge)
    requires e in Collect(doc.policies, PolicyEdges) || e in Collect(doc.intents, IntentEdges)
    ensures e.1.local != ""
  {
    if e in Collect(doc.policies, PolicyEdges) {
      var i := CollectedFrom(doc.policies, PolicyEdges, e);
      PolicyNeverEmpty(doc.policies[i], e);
    } else {
      var i := CollectedFrom(doc.intents, IntentEdges, e);
      var t := doc.intents[i];
      ParsedIs(AnyId(IntentClass, t.id), t.tenant, e);
    }
  }

  lemma PolicyNeverEmpty(p: Policy, e: Edge)
    requires e in PolicyEdges(p)
    ensures e.1.local != ""
  {
    hide Parsed;
    var from := AnyId(PolicyClass, p.id);
    match p.body
    case Routing(text) => ParsedIs(from, text, e);
    case TenantIsolation(tenant, scopes) =>
      if e !in Typed(from, TenantClass, tenant) {
        var i := CollectedFrom(scopes, scope => Parsed(from, scope), e);
        ParsedIs(from, scopes[i], e);
      }
    case _ =>
  }

  lemma PoliciesAre(doc: Document, e: Edge)
    ensures e in Collect(doc.policies, PolicyEdges) <==> e.1.local != "" && (Extends(doc, e.0, e.1) || Isolates(doc, e.0, e.1))
    ensures e in Collect(doc.intents, IntentEdges) <==> e.1.local != "" && Concerns(doc, e.0, e.1)
  {
    hide PolicyEdges, IntentEdges, Collect, Denotes;
    CollectIs(doc.policies, PolicyEdges, e);
    CollectIs(doc.intents, IntentEdges, e);
    if e in Collect(doc.policies, PolicyEdges) || e in Collect(doc.intents, IntentEdges) {
      NeverEmpty(doc, e);
    }
    if e.1.local != "" {
      forall p | p in doc.policies
        ensures e in PolicyEdges(p) <==> (e.0 == AnyId(PolicyClass, p.id)
          && ((p.body.Routing? && Denotes(p.body.extendsPolicy, e.1))
              || (p.body.TenantIsolation?
                  && (e.1 == AnyId(TenantClass, p.body.tenant) || exists text :: text in p.body.exclusiveScopes && Denotes(text, e.1)))))
      {
        PolicyIs(p, e);
      }
      forall t | t in doc.intents
        ensures e in IntentEdges(t) <==> e.0 == AnyId(IntentClass, t.id) && (e.1 == t.subject || Denotes(t.tenant, e.1))
      {
        IntentIs(t, e);
      }
    }
  }

  /** The references written in the document are the edges of its graph, and no others are. */
  lemma ReferencesAreEdges(doc: Document, a: AnyId, b: AnyId)
    ensures (a, b) in ReferenceEdges(doc) <==> Refers(doc, a, b)
  {
    hide Collect, Extends, Isolates, Concerns, Places, PlacedOn;
    var e := (a, b);
    DevicesAre(doc, e);
    ContainersAre(doc, e);
    LinksAre(doc, e);
    WorkloadsAre(doc, e);
    PoliciesAre(doc, e);
  }

  // ----- rings are closed walks -----------------------------------------------------------------

  lemma PartOfPath<T(!new)>(rel: set<(T, T)>, p: seq<T>, i: nat, j: nat)
    requires IsPath(rel, p) && i <= j < |p|
    ensures Reaches(rel, p[i], p[j])
  {
    var q := p[i..j + 1];
    forall k | 0 <= k < |q| - 1
      ensures (q[k], q[k + 1]) in rel
    {
      assert (p[i + k], p[i + k + 1]) in rel;
    }
    assert PathFromTo(rel, q, p[i], p[j]);
  }

  lemma Joined<T(!new)>(rel: set<(T, T)>, p: seq<T>, q: seq<T>, u: T, v: T, w: T) returns (r: seq<T>)
    requires PathFromTo(rel, p, u, v) && PathFromTo(rel, q, v, w)
    ensures PathFromTo(rel, r, u, w) && |r| >= |p| && forall x :: x in p || x in q ==> x in r
  {
    r := p + q[1..];
    forall i | 0 <= i < |r| - 1
      ensures (r[i], r[i + 1]) in rel
    {
      if i >= |p| - 1 {
        assert r[i] == q[i - (|p| - 1)];
      }
    }
    assert q == [q[0]] + q[1..];
    assert p[|p| - 1] == q[0];
  }

  lemma EdgesAre(doc: Document)
    ensures forall a, b :: (a, b) in ReferenceEdges(doc) <==> Refers(doc, a, b)
  {
    forall a, b
      ensures (a, b) in ReferenceEdges(doc) <==> Refers(doc, a, b)
    {
      ReferencesAreEdges(doc, a, b);
    }
  }

  /** A ring, walked once around. */
  lemma RingIsPath(doc: Document, ring: seq<AnyId>)
    requires IsRing(doc, ring)
    ensures IsPath(ReferenceEdges(doc), ring + [ring[0]])
  {
    hide Refers, ReferenceEdges;
    EdgesAre(doc);
    var p := ring + [ring[0]];
    forall i | 0 <= i < |p| - 1
      ensures (p[i], p[i + 1]) in ReferenceEdges(doc)
    {
      assert Refers(doc, ring[i], Next(ring, i));
    }
  }

  lemma PathIsRing(doc: Document, p: seq<AnyId>, a: AnyId)
    requires PathFromTo(ReferenceEdges(doc), p, a, a) && |p| >= 2
    ensures IsRing(doc, p[..|p| - 1])
  {
    hide Refers, ReferenceEdges;
    EdgesAre(doc);
    var ring := p[..|p| - 1];
    forall i | 0 <= i < |ring|
      ensures Refers(doc, ring[i], Next(ring, i))
    {
      assert (p[i], p[i + 1]) in ReferenceEdges(doc);
    }
  }

  // ----- the containment fields, one by one ------------------------------------------------------

  /** A field naming a container gives an edge to it. */
  predicate Shown(edges: set<Edge>, from: AnyId, klass: IdClass, local: string) {
    local != "" ==> (from, AnyId(klass, local)) in edges
  }

  /** Every containment field that is not empty is among the edges. */
  ghost predicate ContainmentShown(doc: Document, edges: set<Edge>) {
    && (forall d :: d in doc.devices ==> Shown(edges, AnyId(DeviceClass, d.id), RackClass, d.rack))
    && (forall d :: d in doc.devices ==> Shown(edges, AnyId(DeviceClass, d.id), PodClass, d.pod))
    && (forall d :: d in doc.devices ==> Shown(edges, AnyId(DeviceClass, d.id), SiteClass, d.site))
    && (forall r :: r in doc.racks ==> Shown(edges, AnyId(RackClass, r.id), PodClass, r.pod))
    && (forall p :: p in doc.pods ==> Shown(edges, AnyId(PodClass, p.id), SiteClass, p.site))
    && (forall s :: s in doc.sites ==> Shown(edges, AnyId(SiteClass, s.id), FabricClass, s.fabric))
    && (forall p :: p in doc.ports ==> Shown(edges, AnyId(PortClass, p.id), DeviceClass, p.device))
    && (forall l :: l in doc.links ==> Shown(edges, AnyId(LinkClass, l.id), PortClass, l.endpointA))
    && (forall l :: l in doc.links ==> Shown(edges, AnyId(LinkClass, l.id), PortClass, l.endpointB))
    && (forall w :: w in doc.workloads ==> Shown(edges, AnyId(WorkloadClass, w.id), TenantClass, w.tenant))
    && (forall w, d :: w in doc.workloads && d in w.placement ==> (AnyId(WorkloadClass, w.id), AnyId(DeviceClass, d)) in edges)
  }

  lemma ReferenceShown(doc: Document, a: AnyId, klass: IdClass, local: string)
    requires local != "" ==> LiesIn(doc, a, AnyId(klass, local)) || Places(doc, a, AnyId(klass, local))
    ensures Shown(ReferenceEdges(doc), a, klass, local)
  {
    hide ReferenceEdges, LiesIn, Places, Extends, Isolates, Concerns;
    if local != "" {
      ReferencesAreEdges(doc, a, AnyId(klass, local));
    }
  }

  lemma ContainmentIsShown(doc: Document)
    ensures ContainmentShown(doc, ReferenceEdges(doc))
  {
    hide ReferenceEdges, Shown, Extends, Isolates, Concerns;
    forall d | d in doc.devices
      ensures Shown(ReferenceEdges(doc), AnyId(DeviceClass, d.id), RackClass, d.rack)
      ensures Shown(ReferenceEdges(doc), AnyId(DeviceClass, d.id), PodClass, d.pod)
      ensures Shown(ReferenceEdges(doc), AnyId(DeviceClass, d.id), SiteClass, d.site)
    {
      ReferenceShown(doc, AnyId(DeviceClass, d.id), RackClass, d.rack);
      ReferenceShown(doc, AnyId(DeviceClass, d.id), PodClass, d.pod);
      ReferenceShown(doc, AnyId(DeviceClass, d.id), SiteClass, d.site);
    }
    forall r | r in doc.racks
      ensures Shown(ReferenceEdges(doc), AnyId(RackClass, r.id), PodClass, r.pod)
    {
      ReferenceShown(doc, AnyId(RackClass, r.id), PodClass, r.pod);
    }
    forall p | p in doc.pods
      ensures Shown(ReferenceEdges(doc), AnyId(PodClass, p.id), SiteClass, p.site)
    {
      ReferenceShown(doc, AnyId(PodClass, p.id), SiteClass, p.site);
    }
    forall s | s in doc.sites
      ensures Shown(ReferenceEdges(doc), AnyId(SiteClass, s.id), FabricClass, s.fabric)
    {
      ReferenceShown(doc, AnyId(SiteClass, s.id), FabricClass, s.fabric);
    }
    forall p | p in doc.ports
      ensures Shown(ReferenceEdges(doc), AnyId(PortClass, p.id), DeviceClass, p.device)
    {
      ReferenceShown(doc, AnyId(PortClass, p.id), DeviceClass, p.device);
    }
    forall l | l in doc.links
      ensures Shown(ReferenceEdges(doc), AnyId(LinkClass, l.id), PortClass, l.endpointA)
      ensures Shown(ReferenceEdges(doc), AnyId(LinkClass, l.id), PortClass, l.endpointB)
    {
      ReferenceShown(doc, AnyId(LinkClass, l.id), PortClass, l.endpointA);
      ReferenceShown(doc, AnyId(LinkClass, l.id), PortClass, l.endpointB);
    }
    WorkloadsShown(doc);
  }

  lemma WorkloadsShown(doc: Document)
    ensures forall w :: w in doc.workloads ==> Shown(ReferenceEdges(doc), AnyId(WorkloadClass, w.id), TenantClass, w.tenant)
    ensures forall w, d :: w in doc.workloads && d in w.placement
              ==> (AnyId(WorkloadClass, w.id), AnyId(DeviceClass, d)) in ReferenceEdges(doc)
  {
    hide ReferenceEdges, LiesIn, Shown, Extends, Isolates, Concerns;
    forall w | w in doc.workloads
      ensures Shown(ReferenceEdges(doc), AnyId(WorkloadClass, w.id), TenantClass, w.tenant)
    {
      ReferenceShown(doc, AnyId(WorkloadClass, w.id), TenantClass, w.tenant);
    }
    forall w, d | w in doc.workloads && d in w.placement
      ensures (AnyId(WorkloadClass, w.id), AnyId(DeviceClass, d)) in ReferenceEdges(doc)
    {
      ReferencesAreEdges(doc, AnyId(WorkloadClass, w.id), AnyId(DeviceClass, d));
    }
  }
}
