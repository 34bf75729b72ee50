/** The topology index and the devices and links of a scope (src/index.cpp:13-95, 284-438). */
module Scopes {
  import opened Ordering
  import opened Identities
  import opened Documents

  // ----- the scope of an identity, by a plain scan of the document -----------------------

  function PortIds(ports: seq<Port>): (r: seq<string>)
    ensures |r| == |ports| && forall i :: 0 <= i < |r| ==> r[i] == ports[i].id
  {
    seq(|ports|, i requires 0 <= i < |ports| => ports[i].id)
  }

  function DeviceIds(devices: seq<Device>): (r: seq<string>)
    ensures |r| == |devices| && forall i :: 0 <= i < |r| ==> r[i] == devices[i].id
  {
    seq(|devices|, i requires 0 <= i < |devices| => devices[i].id)
  }

  function LinkIds(links: seq<Link>): (r: seq<string>)
    ensures |r| == |links| && forall i :: 0 <= i < |r| ==> r[i] == links[i].id
  {
    seq(|links|, i requires 0 <= i < |links| => links[i].id)
  }

  /** The first place an identity is declared at. */
  predicate FirstAt(ids: seq<string>, id: string, i: nat) { id in ids && i == IndexOf(ids, id) }

  /** The place the index finds a device at. */
  ghost predicate FirstDevice(doc: Document, id: string, d: nat) {
    d < |doc.devices| && doc.devices[d].id == id && FirstAt(DeviceIds(doc.devices), id, d)
  }

  /** The place the index finds a link at. */
  ghost predicate FirstLink(doc: Document, id: string, l: nat) {
    l < |doc.links| && doc.links[l].id == id && FirstAt(LinkIds(doc.links), id, l)
  }

  /** An end of the link is a port of the device. */
  predicate Touches(doc: Document, l: Link, device: string) {
    PortDevice(doc.ports, l.endpointA) == Some(device) || PortDevice(doc.ports, l.endpointB) == Some(device)
  }

  ghost predicate SiteInFabric(doc: Document, site: string, fabric: string) {
    exists s :: s in doc.sites && s.fabric == fabric && s.id == site
  }

  ghost predicate PlacedFor(doc: Document, tenant: string, device: string) {
    exists w :: w in doc.workloads && w.tenant == tenant && device in w.placement
  }

  predicate CanScope(klass: IdClass) {
    klass in [FabricClass, SiteClass, PodClass, RackClass, DeviceClass, PortClass, LinkClass, ServiceClass, TenantClass]
  }

  ghost predicate EndOfLink(doc: Document, link: string, device: string) {
    exists l: nat :: FirstLink(doc, link, l) && Touches(doc, doc.links[l], device)
  }

  /** The d-th device declared belongs to the scope. */
  ghost predicate DeviceInScope(doc: Document, scope: AnyId, d: nat) {
    && d < |doc.devices|
    && var device := doc.devices[d];
    match scope.klass
    case FabricClass => SiteInFabric(doc, device.site, scope.local)
    case SiteClass => device.site == scope.local
    case PodClass => device.pod == scope.local
    case RackClass => device.rack == scope.local
    case DeviceClass => FirstDevice(doc, scope.local, d)
    case PortClass => FirstDevice(doc, device.id, d) && PortDevice(doc.ports, scope.local) == Some(device.id)
    case LinkClass => FirstDevice(doc, device.id, d) && EndOfLink(doc, scope.local, device.id)
    case ServiceClass => scope.local in device.serviceClasses
    case TenantClass => FirstDevice(doc, device.id, d) && PlacedFor(doc, scope.local, device.id)
    case _ => false
  }

  ghost predicate DistinctLinks(doc: Document) {
    forall i, j :: 0 <= i < j < |doc.links| ==> doc.links[i].id != doc.links[j].id
  }

  /** A device of the scope is at an end of the link. */
  ghost predicate TouchesScope(doc: Document, scope: AnyId, l: Link) {
    exists d: nat :: DeviceInScope(doc, scope, d) && Touches(doc, l, doc.devices[d].id)
  }

  /** The l-th link declared belongs to the scope: it is the link named, or it touches a device of the scope. */
  ghost predicate LinkInScope(doc: Document, scope: AnyId, l: nat) {
    && l < |doc.links|
    && if scope.klass == LinkClass then FirstLink(doc, scope.local, l) else TouchesScope(doc, scope, doc.links[l])
  }

  /** Another link of the scope has the same identity. */
  ghost predicate SharesIdentity(doc: Document, scope: AnyId, l: nat) {
    l < |doc.links| && exists k: nat :: k != l && LinkInScope(doc, scope, k) && doc.links[k].id == doc.links[l].id
  }

  // ----- the index -----------------------------------------------------------------------------

  /** An identity's place is where it is declared first. */
  method BuildMap(ids: seq<string>) returns (m: map<string, nat>)
    ensures forall id :: id in m <==> id in ids
    ensures forall id :: id in m ==> FirstAt(ids, id, m[id])
  {
    m := map[];
    for i := 0 to |ids|
      invariant forall id :: id in m <==> id in ids[..i]
      invariant forall id :: id in m ==> FirstAt(ids, id, m[id])
    {
      assert ids[..i + 1] == ids[..i] + [ids[i]];
      if ids[i] !in m {
        FirstIs(ids, i);
        m := m[ids[i] := i];
      }
    }
    assert ids[..|ids|] == ids;
  }

  lemma FirstIs(ids: seq<string>, n: nat)
    requires n < |ids| && ids[n] !in ids[..n]
    ensures FirstAt(ids, ids[n], n)
  {
    var k := IndexOf(ids, ids[n]);
    assert forall m :: 0 <= m < n ==> ids[..n][m] == ids[m];
    assert forall m :: 0 <= m < k ==> ids[..k][m] == ids[m];
  }

  lemma {:induction false} PortDeviceIs(ports: seq<Port>, id: string)
    ensures PortDevice(ports, id) == if id in PortIds(ports) then Some(ports[IndexOf(PortIds(ports), id)].device) else None
  {
    hide IndexOf;
    if ports != [] {
      PortDeviceIs(ports[1..], id);
      var ids := PortIds(ports);
      assert ids[1..] == PortIds(ports[1..]);
      assert id in ids <==> id == ids[0] || id in ids[1..] by { assert ids == [ids[0]] + ids[1..]; }
      if id in ids {
        IndexOfTail(ids, id);
      }
    }
  }

  lemma IndexOfTail(ids: seq<string>, id: string)
    requires id in ids
    ensures ids[0] == id ==> IndexOf(ids, id) == 0
    ensures ids[0] != id ==> id in ids[1..] && IndexOf(ids, id) == 1 + IndexOf(ids[1..], id)
  {
  }

  /** The map gives each identity its first place. */
  ghost predicate Maps(m: map<string, nat>, ids: seq<string>) {
    forall id :: if id in ids then id in m && m[id] == IndexOf(ids, id) else id !in m
  }

  lemma PlacesAre(m: map<string, nat>, ids: seq<string>)
    requires (forall id :: id in m <==> id in ids) && forall id :: id in m ==> FirstAt(ids, id, m[id])
    ensures Maps(m, ids)
  {
    hide IndexOf;
  }

  class TopologyIndex {
    const document: Document
    var devices: map<string, nat>
    var ports: map<string, nat>
    var links: map<string, nat>
    var linksByDevice: map<string, seq<nat>>

    ghost predicate Valid()
      reads this
    {
      && Maps(devices, DeviceIds(document.devices))
      && Maps(ports, PortIds(document.ports))
      && Maps(links, LinkIds(document.links))
      && ListsAreOrdered(document, linksByDevice)
    }

    constructor (document: Document)
      ensures this.document == document && Valid()
    {
      hide Touches, FirstAt, PortDevice;
      this.document := document;
      var d := BuildMap(DeviceIds(document.devices));
      var p := BuildMap(PortIds(document.ports));
      var l := BuildMap(LinkIds(document.links));
      PlacesAre(d, DeviceIds(document.devices));
      PlacesAre(p, PortIds(document.ports));
      PlacesAre(l, LinkIds(document.links));
      var lists := ListLinks(document, p);
      var ordered := Ordered(document, lists);
      devices, ports, links, linksByDevice := d, p, l, ordered;
    }

    method PortDeviceOf(id: string) returns (device: Option<string>)
      requires Valid()
      ensures device == PortDevice(document.ports, id)
    {
      PortDeviceIs(document.ports, id);
      device := if id in ports then Some(document.ports[ports[id]].device) else None;
    }

    method LinksOfDevice(device: string) returns (out: seq<nat>)
      requires Valid()
      ensures forall l: nat :: l in out <==> l < |document.links| && Touches(document, document.links[l], device)
    {
      assert IsOrderedList(document, linksByDevice, device);
      out := ListOf(linksByDevice, device);
    }

    /** The first device with an identity, if there is one. */
    method Lookup(id: string) returns (out: seq<nat>)
      requires Valid()
      ensures |out| <= 1 && forall d: nat :: d in out <==> FirstDevice(document, id, d)
      ensures out != [] ==> out[0] < |document.devices| && document.devices[out[0]].id == id
    {
      out := if id in devices then [devices[id]] else [];
    }

    /** The devices with a given home: the site, pod or rack that at reads off. */
    method DevicesIn(at: Device -> string, id: string) returns (out: seq<nat>)
      ensures forall d: nat :: d in out <==> d < |document.devices| && at(document.devices[d]) == id
    {
      out := [];
      for i := 0 to |document.devices|
        invariant forall d: nat :: d in out <==> d < i && at(document.devices[d]) == id
      {
        if at(document.devices[i]) == id {
          out := out + [i];
        }
      }
    }

    method DevicesInFabric(fabric: string) returns (out: seq<nat>)
      ensures forall d: nat :: d in out <==> d < |document.devices| && SiteInFabric(document, document.devices[d].site, fabric)
    {
      out := [];
      for i := 0 to |document.sites|
        invariant forall d: nat :: d in out <==>
          d < |document.devices| && SiteInFabric(document.(sites := document.sites[..i]), document.devices[d].site, fabric)
      {
        var site := document.sites[i];
        assert document.sites[..i + 1] == document.sites[..i] + [site];
        if site.fabric == fabric {
          var more := DevicesIn((d: Device) => d.site, site.id);
          out := out + more;
        }
      }
      assert document.sites[..|document.sites|] == document.sites;
    }

    method DevicesOfServiceClass(id: string) returns (out: seq<nat>)
      ensures forall d: nat :: d in out <==> d < |document.devices| && id in document.devices[d].serviceClasses
    {
      out := [];
      for i := 0 to |document.devices|
        invariant forall d: nat :: d in out <==> d < i && id in document.devices[d].serviceClasses
      {
        if id in document.devices[i].serviceClasses {
          out := out + [i];
        }
      }
    }

    /** The devices at the ends of a link, each once. */
    method DevicesOfLink(id: string) returns (out: seq<nat>)
      requires Valid()
      ensures forall d: nat :: d in out <==> DeviceInScope(document, AnyId(LinkClass, id), d)
    {
      hide FirstAt, PortDevice;
      out := [];
      LinkPlaces(id);
      if id !in links {
        return;
      }
      var l := document.links[links[id]];
      var a := PortDeviceOf(l.endpointA);
      if a.Some? {
        out := Lookup(a.value);
      }
      var b := PortDeviceOf(l.endpointB);
      if b.Some? {
        var other := Lookup(b.value);
        if other != [] && (out == [] || document.devices[out[0]].id != document.devices[other[0]].id) {
          out := out + other;
        }
      }
    }

    /** The placements of the tenant's workloads, sorted by identity and without repetitions. */
    method DevicesOfTenant(tenant: string) returns (out: seq<nat>)
      requires Valid()
      ensures forall d: nat :: d in out <==> DeviceInScope(document, AnyId(TenantClass, tenant), d)
    {
      hide FirstAt, FirstDevice, SortedByIdentity, Shared;
      out := [];
      for i := 0 to |document.workloads|
        invariant forall d: nat :: d in out <==>
          d < |document.devices| && FirstDevice(document, document.devices[d].id, d)
          && PlacedFor(document.(workloads := document.workloads[..i]), tenant, document.devices[d].id)
      {
        var workload := document.workloads[i];
        assert document.workloads[..i + 1] == document.workloads[..i] + [workload];
        if workload.tenant == tenant {
          var placed := Placed(workload.placement);
          out := out + placed;
        }
      }
      assert document.workloads[..|document.workloads|] == document.workloads;
      var sorted := SortByIdentity(DeviceIds(document.devices), out);
      RepeatedOnlyShared(DeviceIds(document.devices), out, sorted);
      out := Unique<nat>(sorted);
    }

    method Placed(placement: seq<string>) returns (out: seq<nat>)
      requires Valid()
      ensures forall d: nat :: d in out <==> d < |document.devices| && FirstDevice(document, document.devices[d].id, d) && document.devices[d].id in placement
    {
      hide FirstAt;
      out := [];
      for k := 0 to |placement|
        invariant forall d: nat :: d in out <==>
          d < |document.devices| && FirstDevice(document, document.devices[d].id, d) && document.devices[d].id in placement[..k]
      {
        assert placement[..k + 1] == placement[..k] + [placement[k]];
        var found := Lookup(placement[k]);
        out := out + found;
      }
      assert placement[..|placement|] == placement;
    }

    method DevicesOfScope(scope: AnyId) returns (ok: bool, out: seq<nat>)
      requires Valid()
      ensures ok == CanScope(scope.klass)
      ensures forall d: nat :: d in out <==> DeviceInScope(document, scope, d)
    {
      hide FirstAt, PortDevice, SiteInFabric, EndOfLink, PlacedFor;
      ok, out := true, [];
      match scope.klass
      case FabricClass => out := DevicesInFabric(scope.local);
      case SiteClass => out := DevicesIn((d: Device) => d.site, scope.local);
      case PodClass => out := DevicesIn((d: Device) => d.pod, scope.local);
      case RackClass => out := DevicesIn((d: Device) => d.rack, scope.local);
      case DeviceClass => out := Lookup(scope.local);
      case PortClass =>
        var device := PortDeviceOf(scope.local);
        if device.Some? {
          out := Lookup(device.value);
        }
      case LinkClass => out := DevicesOfLink(scope.local);
      case ServiceClass => out := DevicesOfServiceClass(scope.local);
      case TenantClass => out := DevicesOfTenant(scope.local);
      case _ => ok := false;
    }

    /**
     * The links of a scope. They are sorted by identity and equal neighbours removed; links with one identity
     * may come in any order, so that such a link, and no other, may be left twice.
     */
    method LinksOfScope(scope: AnyId) returns (ok: bool, out: seq<nat>)
      requires Valid()
      ensures ok == CanScope(scope.klass)
      ensures ok ==> forall l: nat :: l in out <==> LinkInScope(document, scope, l)
      ensures ok ==> forall l: nat :: Repeats(out, l) ==> SharesIdentity(document, scope, l)
    {
      hide FirstAt, PortDevice, DeviceInScope, Touches, TouchesOne, TouchesScope, SortedByIdentity, Shared, SharesIdentity;
      var devices;
      ok, devices := DevicesOfScope(scope);
      out := [];
      if !ok {
        return;
      }
      if scope.klass == LinkClass {
        LinkPlaces(scope.local);
        out := if scope.local in links then [links[scope.local]] else [];
        return;
      }
      NothingTouched(document);
      for k := 0 to |devices|
        invariant forall l: nat :: l in out <==> l < |document.links| && TouchesOne(document, document.links[l], devices[..k])
      {
        InScope(scope, devices, k);
        var more := LinksOfDevice(document.devices[devices[k]].id);
        OneMoreDevice(document, devices, k);
        out := out + more;
      }
      assert devices[..|devices|] == devices;
      ScopeTouched(document, scope, devices);
      var sorted := SortByIdentity(LinkIds(document.links), out);
      LinksLeft(document, scope, out, sorted);
      out := Unique<nat>(sorted);
    }

    lemma InScope(scope: AnyId, devices: seq<nat>, k: nat)
      requires k < |devices| && forall d: nat :: d in devices <==> DeviceInScope(document, scope, d)
      ensures devices[k] < |document.devices|
    {
      assert devices[k] in devices;
    }

    lemma LinkPlaces(id: string)
      requires Valid()
      ensures id in links ==> links[id] < |document.links|
      ensures forall l: nat :: FirstLink(document, id, l) <==> id in links && l == links[id]
    {
    }
  }

  // ----- orders by identity -------------------------------------------------------------------

  function IdAt(ids: seq<string>, i: nat): string { if i < |ids| then ids[i] else "" }

  /** By identity alone. */
  predicate IdentityLe(ids: seq<string>, a: nat, b: nat) { StrLe(IdAt(ids, a), IdAt(ids, b)) }

  lemma IdentityLeIsPreorder(ids: seq<string>)
    ensures TotalPreorder<nat>((a: nat, b: nat) => IdentityLe(ids, a, b))
  {
    StrLeIsTotalOrder();
    hide StrLe, IdAt;
    forall a: nat, b: nat
      ensures IdentityLe(ids, a, b) || IdentityLe(ids, b, a)
    {
      assert StrLe(IdAt(ids, a), IdAt(ids, b)) || StrLe(IdAt(ids, b), IdAt(ids, a));
    }
    forall a: nat, b: nat, c: nat | IdentityLe(ids, a, b) && IdentityLe(ids, b, c)
      ensures IdentityLe(ids, a, c)
    {
      assert StrLe(IdAt(ids, a), IdAt(ids, b)) && StrLe(IdAt(ids, b), IdAt(ids, c));
    }
  }

  ghost predicate SortedByIdentity(ids: seq<string>, r: seq<nat>) {
    forall i, j :: 0 <= i < j < |r| ==> IdentityLe(ids, r[i], r[j])
  }

  /** std::sort: equal identities may come in any order, so nothing is said of it. */
  method SortByIdentity(ids: seq<string>, list: seq<nat>) returns (r: seq<nat>)
    ensures multiset(r) == multiset(list) && SortedByIdentity(ids, r)
  {
    var le := (a: nat, b: nat) => IdentityLe(ids, a, b);
    IdentityLeIsPreorder(ids);
    SortSorts<nat>(le, list);
    r := Sort<nat>(le, list);
    hide IdentityLe;
    assert forall i, j :: 0 <= i < j < |r| ==> le(r[i], r[j]);
  }

  ghost predicate Repeats(list: seq<nat>, x: nat) { exists i, j :: 0 <= i < j < |list| && list[i] == x && list[j] == x }

  /** Another place of the list has the same identity. */
  ghost predicate Shared(ids: seq<string>, list: seq<nat>, x: nat) {
    exists y: nat :: y in list && y != x && IdAt(ids, y) == IdAt(ids, x)
  }

  /** Whatever order equal identities come in, only a place that shares its identity can be left twice. */
  lemma RepeatedOnlyShared(ids: seq<string>, list: seq<nat>, r: seq<nat>)
    requires multiset(r) == multiset(list) && SortedByIdentity(ids, r)
    ensures forall x: nat :: x in Unique<nat>(r) <==> x in list
    ensures forall x: nat :: Repeats(Unique<nat>(r), x) ==> Shared(ids, list, x)
  {
    hide StrLe, IdAt;
    var le := (a: nat, b: nat) => IdentityLe(ids, a, b);
    var u := Unique<nat>(r);
    assert Sorted<nat>(le, r) by {
      assert forall i, j :: 0 <= i < j < |r| ==> le(r[i], r[j]) == IdentityLe(ids, r[i], r[j]);
    }
    UniqueApart<nat>(le, r);
    UniqueMembers<nat>(r);
    MultisetMembers<nat>(r, list);
    StrLeIsTotalOrder();
    forall x: nat | Repeats(u, x)
      ensures Shared(ids, list, x)
    {
      var i, j :| 0 <= i < j < |u| && u[i] == x && u[j] == x;
      assert u[i] != u[i + 1] && u[i + 1] in list;
      assert le(u[i], u[i + 1]) && (i + 1 < j ==> le(u[i + 1], u[j]));
      assert IdentityLe(ids, u[i], u[i + 1]) && IdentityLe(ids, u[i + 1], u[i]);
      assert IdAt(ids, u[i + 1]) == IdAt(ids, u[i]);
    }
  }

  /** So it is for the links of a scope. */
  lemma LinksLeft(doc: Document, scope: AnyId, list: seq<nat>, r: seq<nat>)
    requires forall l: nat :: l in list <==> LinkInScope(doc, scope, l)
    requires multiset(r) == multiset(list) && SortedByIdentity(LinkIds(doc.links), r)
    ensures var u := Unique<nat>(r);
      && (forall l: nat :: l in u <==> LinkInScope(doc, scope, l))
      && forall l: nat :: Repeats(u, l) ==> SharesIdentity(doc, scope, l)
  {
    hide LinkInScope, SortedByIdentity, SharesIdentity, Shared, LinkIds;
    RepeatedOnlyShared(LinkIds(doc.links), list, r);
    var u := Unique<nat>(r);
    forall l: nat | Repeats(u, l)
      ensures SharesIdentity(doc, scope, l)
    {
      assert l in u;
      SharedInScope(doc, scope, list, l);
    }
  }

  lemma SharedInScope(doc: Document, scope: AnyId, list: seq<nat>, l: nat)
    requires forall k: nat :: k in list <==> LinkInScope(doc, scope, k)
    requires l in list && Shared(LinkIds(doc.links), list, l)
    ensures SharesIdentity(doc, scope, l)
  {
    hide TouchesScope, FirstLink;
    var k: nat :| k in list && k != l && IdAt(LinkIds(doc.links), k) == IdAt(LinkIds(doc.links), l);
    assert LinkInScope(doc, scope, k) && LinkInScope(doc, scope, l);
  }

  /** And then it can: two places of one identity, the first listed twice with the second between. */
  lemma SharedCanRepeat(id: string)
    ensures SortedByIdentity([id, id], [0, 1, 0]) && Unique<nat>([0, 1, 0]) == [0, 1, 0]
    ensures SortedByIdentity([id, id], [0, 0, 1]) && Unique<nat>([0, 0, 1]) == [0, 1]
  {
    hide StrLe, Unique;
    StrLeIsTotalOrder();
    assert StrLe(id, id);
    AlternatingKept();
    NeighboursMerged();
  }

  lemma AlternatingKept()
    ensures Unique<nat>([0, 1, 0]) == [0, 1, 0]
  {
    assert [0, 1, 0][1..] == [1, 0] && [1, 0][1..] == [0];
    assert Unique<nat>([1, 0]) == [1] + Unique<nat>([0]);
  }

  lemma NeighboursMerged()
    ensures Unique<nat>([0, 0, 1]) == [0, 1]
  {
    assert [0, 0, 1][1..] == [0, 1] && [0, 1][1..] == [1];
    assert Unique<nat>([0, 1]) == [0] + Unique<nat>([1]);
  }

  ghost predicate TouchesOne(doc: Document, l: Link, devices: seq<nat>) {
    exists d: nat :: d in devices && d < |doc.devices| && Touches(doc, l, doc.devices[d].id)
  }

  lemma NothingTouched(doc: Document)
    ensures forall l: Link :: !TouchesOne(doc, l, [])
  {
  }

  lemma OneMoreDevice(doc: Document, devices: seq<nat>, k: nat)
    requires k < |devices| && devices[k] < |doc.devices|
    ensures forall l: nat :: l < |doc.links| ==>
      (TouchesOne(doc, doc.links[l], devices[..k + 1])
       <==> TouchesOne(doc, doc.links[l], devices[..k]) || Touches(doc, doc.links[l], doc.devices[devices[k]].id))
  {
    assert devices[..k + 1] == devices[..k] + [devices[k]];
  }

  lemma ScopeTouched(doc: Document, scope: AnyId, devices: seq<nat>)
    requires forall d: nat :: d in devices <==> DeviceInScope(doc, scope, d)
    ensures forall l: nat :: l < |doc.links| ==> (TouchesOne(doc, doc.links[l], devices) <==> TouchesScope(doc, scope, doc.links[l]))
  {
    hide Touches;
    forall l: nat | l < |doc.links|
      ensures TouchesOne(doc, doc.links[l], devices) <==> TouchesScope(doc, scope, doc.links[l])
    {
      if TouchesScope(doc, scope, doc.links[l]) {
        var d: nat :| DeviceInScope(doc, scope, d) && Touches(doc, doc.links[l], doc.devices[d].id);
        assert d in devices;
      }
    }
  }

  /** The list holds those of the first n links that touch the device. */
  ghost predicate HoldsLinks(doc: Document, list: seq<nat>, n: nat, device: string)
    requires n <= |doc.links|
  {
    forall l: nat :: l in list <==> l < n && Touches(doc, doc.links[l], device)
  }

  /** The lists hold the first n links, by the devices they touch. */
  ghost predicate Listed(doc: Document, lists: map<string, seq<nat>>, n: nat) {
    n <= |doc.links| && forall device :: HoldsLinks(doc, ListOf(lists, device), n, device)
  }

  function ListOf(lists: map<string, seq<nat>>, device: string): seq<nat> {
    if device in lists then lists[device] else []
  }

  /** Puts a link at the end of the list of a device. */
  method PushLink(lists: map<string, seq<nat>>, end: Option<string>, l: nat) returns (r: map<string, seq<nat>>)
    ensures forall device, k :: k in ListOf(r, device) <==> k in ListOf(lists, device) || (k == l && end == Some(device))
  {
    r := lists;
    if end.Some? {
      r := r[end.value := ListOf(lists, end.value) + [l]];
    }
  }

  /** Each link is put on the list of the device at either end. */
  method ListLinks(doc: Document, ports: map<string, nat>) returns (lists: map<string, seq<nat>>)
    requires Maps(ports, PortIds(doc.ports))
    ensures Listed(doc, lists, |doc.links|)
  {
    hide PortDevice, IndexOf, ListOf;
    lists := map[];
    assert forall device :: ListOf(lists, device) == [] by { NothingListed(); }
    for i := 0 to |doc.links|
      invariant Listed(doc, lists, i)
    {
      var l := doc.links[i];
      PortDeviceIs(doc.ports, l.endpointA);
      PortDeviceIs(doc.ports, l.endpointB);
      var a := if l.endpointA in ports then Some(doc.ports[ports[l.endpointA]].device) else None;
      var b := if l.endpointB in ports then Some(doc.ports[ports[l.endpointB]].device) else None;
      var once := PushLink(lists, a, i);
      var twice := PushLink(once, b, i);
      forall device
        ensures HoldsLinks(doc, ListOf(twice, device), i + 1, device)
      {
        assert HoldsLinks(doc, ListOf(lists, device), i, device);
      }
      lists := twice;
    }
  }

  lemma NothingListed()
    ensures forall device :: ListOf(map[], device) == []
  {
  }

  ghost predicate ListsAreOrdered(doc: Document, lists: map<string, seq<nat>>) {
    forall device :: IsOrderedList(doc, lists, device)
  }

  /** The list of a device holds, in order and once each, the links that touch it. */
  ghost predicate IsOrderedList(doc: Document, lists: map<string, seq<nat>>, device: string) {
    && StrictlySorted<nat>(NatLe, ListOf(lists, device))
    && HoldsLinks(doc, ListOf(lists, device), |doc.links|, device)
  }

  /** Each list is sorted and its repetitions removed. */
  method Ordered(doc: Document, lists: map<string, seq<nat>>) returns (r: map<string, seq<nat>>)
    requires Listed(doc, lists, |doc.links|)
    ensures ListsAreOrdered(doc, r)
  {
    hide Touches, IsOrderedList, Listed;
    r := map device | device in lists :: SortedUnique(lists[device]);
    forall device
      ensures IsOrderedList(doc, r, device)
    {
      assert SortedUnique([]) == [];
      assert ListOf(r, device) == SortedUnique(ListOf(lists, device));
      OrderedList(doc, lists, r, device);
    }
  }

  function SortedUnique(list: seq<nat>): seq<nat> { Unique<nat>(Sort<nat>(NatLe, list)) }

  lemma SortedUniqueIs(list: seq<nat>)
    ensures StrictlySorted<nat>(NatLe, SortedUnique(list))
    ensures forall l: nat :: l in SortedUnique(list) <==> l in list
  {
    NatLeIsTotalOrder();
    SortUnique<nat>(NatLe, list);
  }

  lemma OrderedList(doc: Document, lists: map<string, seq<nat>>, r: map<string, seq<nat>>, device: string)
    requires Listed(doc, lists, |doc.links|) && ListOf(r, device) == SortedUnique(ListOf(lists, device))
    ensures IsOrderedList(doc, r, device)
  {
    hide Touches, SortedUnique;
    assert HoldsLinks(doc, ListOf(lists, device), |doc.links|, device);
    SortedUniqueIs(ListOf(lists, device));
  }
}
