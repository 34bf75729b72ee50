/**
 * The parts of an intent document that the modelled analyses read (include/ifabric/model.hpp).
 * A field of a typed identity holds the local part only; its class is fixed by the field.
 */
module Documents {
  import opened Identities

  const MAX_U64: nat := 0xFFFF_FFFF_FFFF_FFFF
  type U64 = n: nat | n <= MAX_U64

  datatype AdminState = Enabled | Disabled | Maintenance | Draining

  datatype Site = Site(id: string, fabric: string)
  datatype Pod = Pod(id: string, site: string)
  datatype Rack = Rack(id: string, pod: string)
  datatype Device = Device(id: string, site: string, pod: string, rack: string, serviceClasses: seq<string>)
  datatype Port = Port(id: string, device: string)
  datatype Link = Link(id: string, endpointA: string, endpointB: string, admin: AdminState, capacityBps: U64)
  datatype Workload = Workload(id: string, tenant: string, placement: seq<string>)
  datatype PolicyBody =
    | Routing(extendsPolicy: string)
    | TenantIsolation(tenant: string, exclusiveScopes: seq<string>)
    | Capacity(scope: string, reservedBps: U64)
    | OtherPolicy
  datatype Policy = Policy(id: string, body: PolicyBody)
  datatype Intent = Intent(id: string, subject: AnyId, tenant: string)

  datatype Document = Document(
    sites: seq<Site>,
    pods: seq<Pod>,
    racks: seq<Rack>,
    devices: seq<Device>,
    ports: seq<Port>,
    links: seq<Link>,
    workloads: seq<Workload>,
    policies: seq<Policy>,
    intents: seq<Intent>)

  /** The device of the first port with an identity: what looking the port up in the index gives. */
  function PortDevice(ports: seq<Port>, id: string): Option<string> {
    if ports == [] then None
    else if ports[0].id == id then Some(ports[0].device)
    else PortDevice(ports[1..], id)
  }
}
