/** From a Service and the EndpointSlices it owns to the lists of endpoints
    per service key. */
module MeshEndpoints {
  import opened NetTypes
  import opened Sequences

  const SERVICE_OWNER_LABEL := "kubernetes.io/service-name"

  type Port32 = x: int | -0x8000_0000 <= x < 0x8000_0000

  datatype ServicePort = ServicePort(name: Option<string>, port: Port32, protocol: Option<string>)
  datatype ServiceSpec = ServiceSpec(clusterIps: Option<seq<string>>, ports: Option<seq<ServicePort>>)
  datatype Service = Service(
    name: string, namespace: Option<string>, labels: map<string, string>, deleting: bool, spec: Option<ServiceSpec>)

  datatype Conditions = Conditions(ready: Option<bool>, terminating: Option<bool>)
  datatype Endpoint = Endpoint(addresses: seq<string>, conditions: Option<Conditions>)
  datatype EndpointPort = EndpointPort(name: Option<string>, port: Option<Port32>, protocol: Option<string>)
  datatype EndpointSlice = EndpointSlice(
    namespace: Option<string>, labels: map<string, string>, endpoints: seq<Endpoint>, ports: Option<seq<EndpointPort>>)

  datatype BackendPortMapping = BackendPortMapping(ip: IpAddr, servicePort: u16, backendPort: u16, protocol: string)
  datatype MeshEndpointSpec = MeshEndpointSpec(serviceIps: seq<IpAddr>, mappings: seq<BackendPortMapping>)

  /** Address parsing, left to the standard library. */
  type Parser = string -> Option<IpAddr>

  /** A service port whose protocol is recognised. */
  datatype NamedPort = NamedPort(name: string, port: u16, protocol: KubeProtocol)

  /** `as u16` on a signed 32-bit port keeps the low 16 bits. */
  function Truncate(port: Port32): (r: u16)
    ensures 0 <= port < 0x1_0000 ==> r == port
    ensures exists q: int :: port == q * 0x1_0000 + r
  {
    assert port == (port / 0x1_0000) * 0x1_0000 + port % 0x1_0000;
    port % 0x1_0000
  }

  /** Unknown protocol text and absent protocol both mean TCP. */
  function ProtocolOrTcp(text: Option<string>): KubeProtocol {
    if text.None? then Tcp
    else
      var parsed := ParseProtocol(text.value);
      if parsed.Some? then parsed.value else Tcp
  }

  predicate Ready(c: Conditions) {
    (c.ready == Some(true) || c.ready.None?) && c.terminating != Some(true)
  }

  predicate OwnedBy(slice: EndpointSlice, service: Service) {
    && service.namespace.Some?
    && SERVICE_OWNER_LABEL in slice.labels && slice.labels[SERVICE_OWNER_LABEL] == service.name
    && slice.namespace == service.namespace
  }

  predicate PortMatches(p: EndpointPort, name: string, protocol: KubeProtocol) {
    p.name == Some(name) && p.port.Some? && ProtocolOrTcp(p.protocol) == protocol
  }

  // ---------- What the loops compute ----------

  function ServiceIps(service: Service, parse: Parser): seq<IpAddr> {
    if service.spec.Some? && service.spec.value.clusterIps.Some?
    then FilterMap(parse, service.spec.value.clusterIps.value) else []
  }

  function OwnedSlices(store: seq<EndpointSlice>, service: Service): seq<EndpointSlice> {
    FilterMap(slice => if OwnedBy(slice, service) then Some(slice) else None, store)
  }

  function EndpointIps(e: Endpoint, parse: Parser): seq<IpAddr> {
    if e.conditions.Some? && Ready(e.conditions.value) then FilterMap(parse, e.addresses) else []
  }

  function ReadyIps(endpoints: seq<Endpoint>, parse: Parser): seq<IpAddr> {
    FlatMap(e => EndpointIps(e, parse), endpoints)
  }

  function Recognise(sp: ServicePort): Option<NamedPort> {
    var protocol := if sp.protocol.Some? then ParseProtocol(sp.protocol.value) else None;
    if protocol.None? then None
    else Some(NamedPort(if sp.name.Some? then sp.name.value else "", Truncate(sp.port), protocol.value))
  }

  function NamedPorts(service: Service): seq<NamedPort> {
    if service.spec.Some? && service.spec.value.ports.Some?
    then FilterMap(Recognise, service.spec.value.ports.value) else []
  }

  /** The first slice port of that name and protocol that has a number. */
  function FirstPort(ports: seq<EndpointPort>, name: string, protocol: KubeProtocol): Option<u16> {
    if ports == [] then None
    else if PortMatches(ports[0], name, protocol) then Some(Truncate(ports[0].port.value))
    else FirstPort(ports[1..], name, protocol)
  }

  function SlicePort(slice: EndpointSlice, p: NamedPort): Option<u16> {
    if slice.ports.None? then None else FirstPort(slice.ports.value, p.name, p.protocol)
  }

  function MappingOf(slice: EndpointSlice, ip: IpAddr, p: NamedPort): Option<BackendPortMapping> {
    var backend := SlicePort(slice, p);
    if backend.None? then None else Some(BackendPortMapping(ip, p.port, backend.value, p.protocol.Text()))
  }

  function PortMappings(slice: EndpointSlice, ip: IpAddr, ports: seq<NamedPort>): seq<BackendPortMapping> {
    FilterMap(p => MappingOf(slice, ip, p), ports)
  }

  function IpMappings(slice: EndpointSlice, ips: seq<IpAddr>, ports: seq<NamedPort>): seq<BackendPortMapping> {
    FlatMap(ip => PortMappings(slice, ip, ports), ips)
  }

  function Mappings(slices: seq<EndpointSlice>, ports: seq<NamedPort>, parse: Parser): seq<BackendPortMapping> {
    FlatMap((slice: EndpointSlice) => IpMappings(slice, ReadyIps(slice.endpoints, parse), ports), slices)
  }

  function SpecOf(store: seq<EndpointSlice>, service: Service, parse: Parser): MeshEndpointSpec {
    MeshEndpointSpec(ServiceIps(service, parse), Mappings(OwnedSlices(store, service), NamedPorts(service), parse))
  }

  // ---------- The loops ----------

  method ParseAll(texts: seq<string>, parse: Parser) returns (result: seq<IpAddr>)
    ensures result == FilterMap(parse, texts)
  {
    result := [];
    for i := 0 to |texts|
      invariant result == FilterMap(parse, texts[..i])
    {
      FilterMapStep(parse, texts, i);
      var ip := parse(texts[i]);
      if ip.Some? {
        result := result + [ip.value];
      }
    }
    assert texts[..|texts|] == texts;
  }

  method ServiceIpsFromService(service: Service, parse: Parser) returns (result: seq<IpAddr>)
    ensures result == ServiceIps(service, parse)
  {
    result := [];
    if service.spec.Some? && service.spec.value.clusterIps.Some? {
      result := ParseAll(service.spec.value.clusterIps.value, parse);
    }
  }

  method BackendIpsFromSlice(slice: EndpointSlice, parse: Parser) returns (ips: seq<IpAddr>)
    ensures ips == ReadyIps(slice.endpoints, parse)
  {
    ips := [];
    for i := 0 to |slice.endpoints|
      invariant ips == ReadyIps(slice.endpoints[..i], parse)
    {
      ReadyIpsStep(slice.endpoints, parse, i);
      var endpoint := slice.endpoints[i];
      if endpoint.conditions.Some? && Ready(endpoint.conditions.value) {
        var parsed := ParseAll(endpoint.addresses, parse);
        ips := ips + parsed;
      }
    }
    assert slice.endpoints[..|slice.endpoints|] == slice.endpoints;
  }

  lemma ReadyIpsStep(endpoints: seq<Endpoint>, parse: Parser, i: nat)
    requires i < |endpoints|
    ensures ReadyIps(endpoints[..i + 1], parse) == ReadyIps(endpoints[..i], parse) + EndpointIps(endpoints[i], parse)
  {
    FlatMapStep(e => EndpointIps(e, parse), endpoints, i);
  }

  method ServiceNamesPortsProtocols(service: Service) returns (names: seq<NamedPort>)
    ensures names == NamedPorts(service)
  {
    names := [];
    if service.spec.Some? && service.spec.value.ports.Some? {
      var ports := service.spec.value.ports.value;
      for i := 0 to |ports|
        invariant names == FilterMap(Recognise, ports[..i])
      {
        FilterMapStep(Recognise, ports, i);
        var sp := ports[i];
        if sp.protocol.Some? {
          var protocol := ParseProtocol(sp.protocol.value);
          if protocol.Some? {
            var name := if sp.name.Some? then sp.name.value else "";
            names := names + [NamedPort(name, Truncate(sp.port), protocol.value)];
          }
        }
      }
      assert ports[..|ports|] == ports;
    }
  }

  method BackendPortFromSlice(slice: EndpointSlice, p: NamedPort) returns (port: Option<u16>)
    ensures port == SlicePort(slice, p)
  {
    if slice.ports.None? {
      return None;
    }
    var ports := slice.ports.value;
    for i := 0 to |ports|
      invariant FirstPort(ports, p.name, p.protocol) == FirstPort(ports[i..], p.name, p.protocol)
    {
      if PortMatches(ports[i], p.name, p.protocol) {
        return Some(Truncate(ports[i].port.value));
      }
    }
    port := None;
  }

  /** The two inner loops, for one slice. */
  method SliceMappings(slice: EndpointSlice, ips: seq<IpAddr>, ports: seq<NamedPort>)
    returns (mappings: seq<BackendPortMapping>)
    ensures mappings == IpMappings(slice, ips, ports)
  {
    mappings := [];
    for j := 0 to |ips|
      invariant mappings == IpMappings(slice, ips[..j], ports)
    {
      ghost var before := mappings;
      for n := 0 to |ports|
        invariant mappings == before + PortMappings(slice, ips[j], ports[..n])
      {
        var backend := BackendPortFromSlice(slice, ports[n]);
        PortMappingsStep(slice, ips[j], ports, n);
        if backend.Some? {
          mappings := mappings + [BackendPortMapping(ips[j], ports[n].port, backend.value, ports[n].protocol.Text())];
        }
      }
      assert ports[..|ports|] == ports;
      IpMappingsStep(slice, ips, ports, j);
    }
    assert ips[..|ips|] == ips;
  }

  lemma PortMappingsStep(slice: EndpointSlice, ip: IpAddr, ports: seq<NamedPort>, n: nat)
    requires n < |ports|
    ensures var m := MappingOf(slice, ip, ports[n]);
      PortMappings(slice, ip, ports[..n + 1])
        == PortMappings(slice, ip, ports[..n]) + if m.Some? then [m.value] else []
  {
    FilterMapStep(p => MappingOf(slice, ip, p), ports, n);
  }

  lemma IpMappingsStep(slice: EndpointSlice, ips: seq<IpAddr>, ports: seq<NamedPort>, j: nat)
    requires j < |ips|
    ensures IpMappings(slice, ips[..j + 1], ports)
         == IpMappings(slice, ips[..j], ports) + PortMappings(slice, ips[j], ports)
  {
    FlatMapStep(ip => PortMappings(slice, ip, ports), ips, j);
  }

  method GenerateMeshEndpointSpec(store: seq<EndpointSlice>, service: Service, parse: Parser)
    returns (spec: MeshEndpointSpec)
    ensures spec == SpecOf(store, service, parse)
  {
    var serviceIps := ServiceIpsFromService(service, parse);
    var ports := ServiceNamesPortsProtocols(service);
    var slices := OwnedSlices(store, service);
    var mappings: seq<BackendPortMapping> := [];
    for i := 0 to |slices|
      invariant mappings == Mappings(slices[..i], ports, parse)
    {
      var ips := BackendIpsFromSlice(slices[i], parse);
      var added := SliceMappings(slices[i], ips, ports);
      mappings := mappings + added;
      MappingsStep(slices, ports, parse, i);
    }
    assert slices[..|slices|] == slices;
    spec := MeshEndpointSpec(serviceIps, mappings);
  }

  lemma MappingsStep(slices: seq<EndpointSlice>, ports: seq<NamedPort>, parse: Parser, i: nat)
    requires i < |slices|
    ensures Mappings(slices[..i + 1], ports, parse)
         == Mappings(slices[..i], ports, parse) + IpMappings(slices[i], ReadyIps(slices[i].endpoints, parse), ports)
  {
    FlatMapStep((slice: EndpointSlice) => IpMappings(slice, ReadyIps(slice.endpoints, parse), ports), slices, i);
  }

  // ---------- The objects' own fields ----------

  /** A 16-bit number with the low bits of a port; the port itself when it is
      one, as the API server ensures. */
  predicate LowBits(r: u16, port: Port32) {
    (0 <= port < 65536 ==> r == port) && (port - r) % 65536 == 0
  }

  /** A stored slice of the service's namespace that names it as its owner. */
  predicate SliceOf(service: Service, slice: EndpointSlice) {
    && service.namespace.Some? && slice.namespace.Some? && slice.namespace.value == service.namespace.value
    && "kubernetes.io/service-name" in slice.labels && slice.labels["kubernetes.io/service-name"] == service.name
  }

  /** `p` is the name, number and protocol of a service port; the name is empty
      if it has none, and its protocol must be given and recognised. */
  predicate NamesPort(sp: ServicePort, p: NamedPort) {
    && sp.protocol.Some? && Spells(sp.protocol.value, p.protocol)
    && (if sp.name.Some? then p.name == sp.name.value else p.name == "")
    && LowBits(p.port, sp.port)
  }

  /** A slice port that a service port may use: of the same name, with a number,
      and of its protocol, which is TCP where it is absent or unknown. */
  predicate IsPort(ep: EndpointPort, p: NamedPort) {
    && ep.name.Some? && ep.name.value == p.name && ep.port.Some?
    && if ep.protocol.Some? && exists q :: Spells(ep.protocol.value, q)
       then Spells(ep.protocol.value, p.protocol) else p.protocol == Tcp
  }

  /** The first such port of the slice has this number. */
  predicate FirstIs(ports: seq<EndpointPort>, p: NamedPort, number: u16) {
    exists i ::
      && 0 <= i < |ports| && IsPort(ports[i], p) && LowBits(number, ports[i].port.value)
      && forall j :: 0 <= j < i ==> !IsPort(ports[j], p)
  }

  lemma LowBitsExactly(r: u16, port: Port32)
    ensures Truncate(port) == r <==> LowBits(r, port)
  {
    var q :| port == q * 0x1_0000 + Truncate(port);
    if (port - r) % 65536 == 0 {
      assert port - r == ((port - r) / 65536) * 65536;
      assert Truncate(port) - r == ((port - r) / 65536 - q) * 65536;
    } else {
      assert (port - Truncate(port)) % 65536 == 0 by { assert port - Truncate(port) == q * 65536; }
    }
  }

  lemma OwnedExactly(service: Service, slice: EndpointSlice)
    ensures OwnedBy(slice, service) <==> SliceOf(service, slice)
  {}

  lemma RecognisedExactly(sp: ServicePort, p: NamedPort)
    ensures Recognise(sp) == Some(p) <==> NamesPort(sp, p)
  {
    LowBitsExactly(p.port, sp.port);
    if sp.protocol.Some? {
      ParsedSpellings(sp.protocol.value, p.protocol);
    }
  }

  lemma PortMatchesExactly(ep: EndpointPort, p: NamedPort)
    ensures PortMatches(ep, p.name, p.protocol) <==> IsPort(ep, p)
  {
    if ep.protocol.Some? {
      forall q: KubeProtocol
        ensures ParseProtocol(ep.protocol.value) == Some(q) <==> Spells(ep.protocol.value, q)
      {
        ParsedSpellings(ep.protocol.value, q);
      }
    }
  }

  /** Conditions are given, and they neither deny readiness nor tell of
      termination. */
  predicate InService(e: Endpoint) {
    && e.conditions.Some?
    && (e.conditions.value.ready.Some? ==> e.conditions.value.ready.value)
    && (e.conditions.value.terminating.Some? ==> !e.conditions.value.terminating.value)
  }

  /** An endpoint and one of its addresses, by index. */
  datatype AddressPlace = AddressPlace(endpoint: nat, address: nat) {
    predicate Precedes(other: AddressPlace) {
      endpoint < other.endpoint || (endpoint == other.endpoint && address < other.address)
    }

    predicate Gives(endpoints: seq<Endpoint>, parse: Parser, ip: IpAddr) {
      && endpoint < |endpoints| && InService(endpoints[endpoint])
      && address < |endpoints[endpoint].addresses| && parse(endpoints[endpoint].addresses[address]) == Some(ip)
    }
  }

  /** A slice's ready addresses are those of its endpoints in service that
      parse, in the order of the endpoints and of each one's addresses. */
  lemma {:induction false} ReadyIpsExact(endpoints: seq<Endpoint>, parse: Parser) returns (at: seq<AddressPlace>)
    ensures |at| == |ReadyIps(endpoints, parse)|
    ensures forall j :: 0 <= j < |at| ==> at[j].Gives(endpoints, parse, ReadyIps(endpoints, parse)[j])
    ensures forall j, k :: 0 <= j < k < |at| ==> at[j].Precedes(at[k])
    ensures forall place: AddressPlace, ip :: place.Gives(endpoints, parse, ip) ==> place in at
  {
    at := [];
    if endpoints != [] {
      var n := |endpoints| - 1;
      var front, last := endpoints[..n], endpoints[n];
      var before := ReadyIpsExact(front, parse);
      var places := PlacesOfLast(endpoints, parse);
      assert ReadyIps(endpoints, parse) == ReadyIps(front, parse) + EndpointIps(last, parse);
      hide ReadyIps, EndpointIps;
      at := before + places;
      forall place: AddressPlace, ip
        ensures place.endpoint < n ==> (place.Gives(front, parse, ip) <==> place.Gives(endpoints, parse, ip))
      {
      }
    }
  }

  lemma PlacesOfLast(endpoints: seq<Endpoint>, parse: Parser) returns (at: seq<AddressPlace>)
    requires endpoints != []
    ensures |at| == |EndpointIps(endpoints[|endpoints| - 1], parse)|
    ensures forall j :: 0 <= j < |at| ==>
      at[j].endpoint == |endpoints| - 1
      && at[j].Gives(endpoints, parse, EndpointIps(endpoints[|endpoints| - 1], parse)[j])
    ensures forall j, k :: 0 <= j < k < |at| ==> at[j].Precedes(at[k])
    ensures forall place: AddressPlace, ip ::
      place.Gives(endpoints, parse, ip) && place.endpoint == |endpoints| - 1 ==> place in at
  {
    var n := |endpoints| - 1;
    var places: seq<nat> := [];
    if InService(endpoints[n]) {
      places := Picked(parse, endpoints[n].addresses);
    }
    at := seq(|places|, i requires 0 <= i < |places| => AddressPlace(n, places[i]));
    forall place: AddressPlace, ip | place.Gives(endpoints, parse, ip) && place.endpoint == n
      ensures place in at
    {
      var i :| 0 <= i < |places| && places[i] == place.address;
      assert at[i] == place;
    }
  }

  /** The service's addresses are those of its cluster addresses that parse, in
      their order and as often as they are listed. */
  lemma ServiceIpsExact(service: Service, parse: Parser) returns (at: seq<nat>)
    ensures var texts := if service.spec.Some? && service.spec.value.clusterIps.Some?
                         then service.spec.value.clusterIps.value else [];
      && |at| == |ServiceIps(service, parse)|
      && (forall j :: 0 <= j < |at| ==> at[j] < |texts| && parse(texts[at[j]]) == Some(ServiceIps(service, parse)[j]))
      && (forall j, k :: 0 <= j < k < |at| ==> at[j] < at[k])
      && (forall i :: 0 <= i < |texts| && parse(texts[i]).Some? ==> i in at)
  {
    at := [];
    if service.spec.Some? && service.spec.value.clusterIps.Some? {
      at := Picked(parse, service.spec.value.clusterIps.value);
    }
  }

  /** The ports used are those of the service whose protocol is recognised, in
      their order, each with its own name, number and protocol. */
  lemma NamedPortsExact(service: Service) returns (at: seq<nat>)
    ensures var ports := if service.spec.Some? && service.spec.value.ports.Some?
                         then service.spec.value.ports.value else [];
      && |at| == |NamedPorts(service)|
      && (forall j :: 0 <= j < |at| ==> at[j] < |ports| && NamesPort(ports[at[j]], NamedPorts(service)[j]))
      && (forall j, k :: 0 <= j < k < |at| ==> at[j] < at[k])
      && (forall i, p :: 0 <= i < |ports| && NamesPort(ports[i], p) ==> i in at)
  {
    at := [];
    if service.spec.Some? && service.spec.value.ports.Some? {
      var ports := service.spec.value.ports.value;
      at := Picked(Recognise, ports);
      forall i, p | 0 <= i < |ports|
        ensures Recognise(ports[i]) == Some(p) <==> NamesPort(ports[i], p)
      {
        RecognisedExactly(ports[i], p);
      }
    }
  }

  // ---------- Join exactness ----------

  /** The port found is that of the first entry a service port may use; none is
      found exactly when no entry is. */
  lemma {:induction false} FirstPortExact(ports: seq<EndpointPort>, p: NamedPort)
    ensures var found := FirstPort(ports, p.name, p.protocol);
      && (found.None? <==> forall i :: 0 <= i < |ports| ==> !IsPort(ports[i], p))
      && (forall number: u16 :: found == Some(number) <==> FirstIs(ports, p, number))
  {
    if ports != [] {
      PortMatchesExactly(ports[0], p);
      if PortMatches(ports[0], p.name, p.protocol) {
        forall number: u16
          ensures Truncate(ports[0].port.value) == number <==> FirstIs(ports, p, number)
        {
          LowBitsExactly(number, ports[0].port.value);
        }
      } else {
        FirstPortExact(ports[1..], p);
        FirstOfRest(ports, p);
      }
    }
  }

  lemma FirstOfRest(ports: seq<EndpointPort>, p: NamedPort)
    requires ports != [] && !IsPort(ports[0], p)
    ensures (forall i :: 0 <= i < |ports| ==> !IsPort(ports[i], p))
       <==> forall i :: 0 <= i < |ports[1..]| ==> !IsPort(ports[1..][i], p)
    ensures forall number: u16 :: FirstIs(ports, p, number) <==> FirstIs(ports[1..], p, number)
  {
    var rest := ports[1..];
    assert forall i :: 0 < i < |ports| ==> ports[i] == rest[i - 1];
    forall number: u16
      ensures FirstIs(ports, p, number) <==> FirstIs(rest, p, number)
    {
      if FirstIs(rest, p, number) {
        var i :| 0 <= i < |rest| && IsPort(rest[i], p) && LowBits(number, rest[i].port.value)
          && forall j :: 0 <= j < i ==> !IsPort(rest[j], p);
        assert ports[i + 1] == rest[i];
        assert forall j :: 0 <= j < i + 1 ==> j == 0 || ports[j] == rest[j - 1];
      }
      if FirstIs(ports, p, number) {
        var i :| 0 <= i < |ports| && IsPort(ports[i], p) && LowBits(number, ports[i].port.value)
          && forall j :: 0 <= j < i ==> !IsPort(ports[j], p);
        assert ports[i] == rest[i - 1];
        assert forall j :: 0 <= j < i - 1 ==> rest[j] == ports[j + 1];
      }
    }
  }

  /** A ready endpoint of the slice has an address that parses to `ip`. */
  predicate ReadyAddress(endpoints: seq<Endpoint>, ip: IpAddr, parse: Parser) {
    exists e :: e in endpoints && HasReadyAddress(e, ip, parse)
  }

  predicate HasReadyAddress(e: Endpoint, ip: IpAddr, parse: Parser) {
    InService(e) && exists text :: text in e.addresses && parse(text) == Some(ip)
  }

  /** A port of the service with recognised protocol text. */
  predicate ServicePortOf(service: Service, p: NamedPort) {
    && service.spec.Some? && service.spec.value.ports.Some?
    && exists sp :: sp in service.spec.value.ports.value && NamesPort(sp, p)
  }

  /** The mapping from a service port to the slice's first port for it. */
  predicate MapsTo(slice: EndpointSlice, p: NamedPort, m: BackendPortMapping) {
    && slice.ports.Some? && FirstIs(slice.ports.value, p, m.backendPort)
    && m.servicePort == p.port
    && m.protocol == if p.protocol == Tcp then "TCP" else if p.protocol == Udp then "UDP" else "SCTP"
  }

  lemma MapsToExactly(slice: EndpointSlice, ip: IpAddr, p: NamedPort, m: BackendPortMapping)
    ensures MappingOf(slice, ip, p) == Some(m) <==> m.ip == ip && MapsTo(slice, p, m)
  {
    ProtocolRoundTrips(p.protocol);
    if slice.ports.Some? {
      FirstPortExact(slice.ports.value, p);
    }
  }

  lemma InReadyIps(endpoints: seq<Endpoint>, parse: Parser, ip: IpAddr)
    ensures ip in ReadyIps(endpoints, parse) <==> ReadyAddress(endpoints, ip, parse)
  {
    InFlatMap(e => EndpointIps(e, parse), endpoints, ip);
    forall e: Endpoint
      ensures ip in EndpointIps(e, parse) <==> HasReadyAddress(e, ip, parse)
    {
      InFilterMap(parse, e.addresses, ip);
    }
  }

  lemma InIpMappings(slice: EndpointSlice, ips: seq<IpAddr>, ports: seq<NamedPort>, m: BackendPortMapping)
    ensures m in IpMappings(slice, ips, ports) <==> m.ip in ips && exists p :: p in ports && MapsTo(slice, p, m)
  {
    InFlatMap(ip => PortMappings(slice, ip, ports), ips, m);
    forall ip: IpAddr
      ensures m in PortMappings(slice, ip, ports) <==> m.ip == ip && exists p :: p in ports && MapsTo(slice, p, m)
    {
      InFilterMap(p => MappingOf(slice, ip, p), ports, m);
      forall p
        ensures MappingOf(slice, ip, p) == Some(m) <==> m.ip == ip && MapsTo(slice, p, m)
      {
        MapsToExactly(slice, ip, p, m);
      }
    }
  }

  lemma InOwned(store: seq<EndpointSlice>, service: Service, slice: EndpointSlice)
    ensures slice in OwnedSlices(store, service) <==> slice in store && SliceOf(service, slice)
  {
    OwnedExactly(service, slice);
    InFilterMap(slice => if OwnedBy(slice, service) then Some(slice) else None, store, slice);
  }

  lemma InNamedPorts(service: Service, p: NamedPort)
    ensures p in NamedPorts(service) <==> ServicePortOf(service, p)
  {
    if service.spec.Some? && service.spec.value.ports.Some? {
      var ports := service.spec.value.ports.value;
      InFilterMap(Recognise, ports, p);
      forall sp | sp in ports
        ensures Recognise(sp) == Some(p) <==> NamesPort(sp, p)
      {
        RecognisedExactly(sp, p);
      }
    }
  }

  /** A slice with a ready address and a first port of `p` that together give
      the mapping. */
  predicate Joined(slice: EndpointSlice, p: NamedPort, m: BackendPortMapping, parse: Parser) {
    ReadyAddress(slice.endpoints, m.ip, parse) && MapsTo(slice, p, m)
  }

  /** A mapping is generated exactly when a stored slice owned by the service
      has a ready address equal to its ip and a first port matching a
      recognised service port, with that port's numbers and protocol text. */
  lemma MappingsExact(store: seq<EndpointSlice>, service: Service, parse: Parser, m: BackendPortMapping)
    ensures m in SpecOf(store, service, parse).mappings
       <==> exists slice, p ::
              slice in store && SliceOf(service, slice) && ServicePortOf(service, p) && Joined(slice, p, m, parse)
  {
    var slices, ports := OwnedSlices(store, service), NamedPorts(service);
    InFlatMap((slice: EndpointSlice) => IpMappings(slice, ReadyIps(slice.endpoints, parse), ports), slices, m);
    forall slice: EndpointSlice
      ensures slice in slices <==> slice in store && SliceOf(service, slice)
      ensures m in IpMappings(slice, ReadyIps(slice.endpoints, parse), ports)
         <==> exists p :: ServicePortOf(service, p) && Joined(slice, p, m, parse)
    {
      InOwned(store, service, slice);
      JoinOfSlice(slice, service, parse, m);
    }
  }

  lemma JoinOfSlice(slice: EndpointSlice, service: Service, parse: Parser, m: BackendPortMapping)
    ensures m in IpMappings(slice, ReadyIps(slice.endpoints, parse), NamedPorts(service))
       <==> exists p :: ServicePortOf(service, p) && Joined(slice, p, m, parse)
  {
    InIpMappings(slice, ReadyIps(slice.endpoints, parse), NamedPorts(service), m);
    InReadyIps(slice.endpoints, parse, m.ip);
    forall p: NamedPort
      ensures p in NamedPorts(service) <==> ServicePortOf(service, p)
    {
      InNamedPorts(service, p);
    }
  }

  // ---------- Join order ----------

  /** What one stored slice contributes. */
  function MappingsOf(slice: EndpointSlice, service: Service, parse: Parser): seq<BackendPortMapping> {
    if OwnedBy(slice, service) then IpMappings(slice, ReadyIps(slice.endpoints, parse), NamedPorts(service)) else []
  }

  function StoreMappings(store: seq<EndpointSlice>, service: Service, parse: Parser): seq<BackendPortMapping> {
    FlatMap((slice: EndpointSlice) => MappingsOf(slice, service, parse), store)
  }

  lemma {:induction false} MappingsOverStore(store: seq<EndpointSlice>, service: Service, parse: Parser)
    ensures SpecOf(store, service, parse).mappings == StoreMappings(store, service, parse)
  {
    if store != [] {
      var front, last := store[..|store| - 1], store[|store| - 1];
      MappingsOverStore(front, service, parse);
      var slices := OwnedSlices(front, service);
      if OwnedBy(last, service) {
        assert OwnedSlices(store, service) == slices + [last] && (slices + [last])[..|slices|] == slices;
        MappingsStep(slices + [last], NamedPorts(service), parse, |slices|);
        assert (slices + [last])[..|slices| + 1] == slices + [last];
      } else {
        assert OwnedSlices(store, service) == slices;
      }
    }
  }

  /** A stored slice, one of its ready addresses and a recognised service port,
      by index. */
  datatype Place = Place(slice: nat, ip: nat, port: nat) {
    /** By slice, then address, then port. */
    predicate Precedes(other: Place) {
      slice < other.slice || (slice == other.slice && (ip < other.ip || (ip == other.ip && port < other.port)))
    }
  }

  predicate InStore(at: Place, store: seq<EndpointSlice>, service: Service, parse: Parser) {
    && at.slice < |store| && OwnedBy(store[at.slice], service)
    && at.ip < |ReadyIps(store[at.slice].endpoints, parse)|
    && at.port < |NamedPorts(service)|
    && SlicePort(store[at.slice], NamedPorts(service)[at.port]).Some?
  }

  /** How many mappings precede the one at `at`. */
  function Offset(at: Place, store: seq<EndpointSlice>, service: Service, parse: Parser): nat
    requires InStore(at, store, service, parse)
  {
    var slice, ports := store[at.slice], NamedPorts(service);
    var ips := ReadyIps(slice.endpoints, parse);
    |StoreMappings(store[..at.slice], service, parse)|
    + |IpMappings(slice, ips[..at.ip], ports)| + |PortMappings(slice, ips[at.ip], ports[..at.port])|
  }

  lemma MappingInSlice(slice: EndpointSlice, ips: seq<IpAddr>, ports: seq<NamedPort>, a: nat, p: nat)
    requires a < |ips| && p < |ports| && SlicePort(slice, ports[p]).Some?
    ensures var i := |IpMappings(slice, ips[..a], ports)| + |PortMappings(slice, ips[a], ports[..p])|;
      && i < |IpMappings(slice, ips, ports)|
      && Some(IpMappings(slice, ips, ports)[i]) == MappingOf(slice, ips[a], ports[p])
  {
    FilterMapAt(p => MappingOf(slice, ips[a], p), ports, p);
    FlatMapAt(ip => PortMappings(slice, ip, ports), ips, a, |PortMappings(slice, ips[a], ports[..p])|);
  }

  lemma MappingInStore(store: seq<EndpointSlice>, service: Service, parse: Parser, i: nat, j: nat)
    requires i < |store| && j < |MappingsOf(store[i], service, parse)|
    ensures var at := |StoreMappings(store[..i], service, parse)| + j;
      && at < |StoreMappings(store, service, parse)|
      && StoreMappings(store, service, parse)[at] == MappingsOf(store[i], service, parse)[j]
  {
    FlatMapAt((slice: EndpointSlice) => MappingsOf(slice, service, parse), store, i, j);
  }

  lemma PlacedInStore(at: Place, store: seq<EndpointSlice>, service: Service, parse: Parser)
    requires InStore(at, store, service, parse)
    ensures var slice, i := store[at.slice], Offset(at, store, service, parse);
      && i < |StoreMappings(store, service, parse)|
      && Some(StoreMappings(store, service, parse)[i])
         == MappingOf(slice, ReadyIps(slice.endpoints, parse)[at.ip], NamedPorts(service)[at.port])
  {
    var slice, ports := store[at.slice], NamedPorts(service);
    var ips := ReadyIps(slice.endpoints, parse);
    hide StoreMappings, IpMappings, PortMappings, MappingOf;
    MappingInSlice(slice, ips, ports, at.ip, at.port);
    MappingInStore(store, service, parse, at.slice,
                   |IpMappings(slice, ips[..at.ip], ports)| + |PortMappings(slice, ips[at.ip], ports[..at.port])|);
  }

  /** The mapping of a slice, address and port stands at their offset. */
  lemma MappingAtOffset(at: Place, store: seq<EndpointSlice>, service: Service, parse: Parser)
    requires InStore(at, store, service, parse)
    ensures var slice, i := store[at.slice], Offset(at, store, service, parse);
      && i < |SpecOf(store, service, parse).mappings|
      && SpecOf(store, service, parse).mappings[i].ip == ReadyIps(slice.endpoints, parse)[at.ip]
      && MapsTo(slice, NamedPorts(service)[at.port], SpecOf(store, service, parse).mappings[i])
  {
    PlacedInStore(at, store, service, parse);
    MappingsOverStore(store, service, parse);
    var slice, m := store[at.slice], StoreMappings(store, service, parse)[Offset(at, store, service, parse)];
    MapsToExactly(slice, ReadyIps(slice.endpoints, parse)[at.ip], NamedPorts(service)[at.port], m);
  }

  /** Mappings come in order of the stored slices, then of a slice's ready
      addresses, then of the service's ports. */
  lemma MappingsInOrder(a: Place, b: Place, store: seq<EndpointSlice>, service: Service, parse: Parser)
    requires InStore(a, store, service, parse) && InStore(b, store, service, parse)
    ensures Offset(a, store, service, parse) < Offset(b, store, service, parse) <==> a.Precedes(b)
  {
    if a.Precedes(b) {
      EarlierOffset(a, b, store, service, parse);
    } else if b.Precedes(a) {
      EarlierOffset(b, a, store, service, parse);
    } else {
      assert a == b;
    }
  }

  lemma EarlierOffset(a: Place, b: Place, store: seq<EndpointSlice>, service: Service, parse: Parser)
    requires InStore(a, store, service, parse) && InStore(b, store, service, parse) && a.Precedes(b)
    ensures Offset(a, store, service, parse) < Offset(b, store, service, parse)
  {
    var slice, ports := store[a.slice], NamedPorts(service);
    var ips := ReadyIps(slice.endpoints, parse);
    var n := |PortMappings(slice, ips[a.ip], ports[..a.port])|;
    FilterMapAt(p => MappingOf(slice, ips[a.ip], p), ports, a.port);
    FlatMapAt(ip => PortMappings(slice, ip, ports), ips, a.ip, n);
    if a.slice < b.slice {
      FlatMapSpan((slice: EndpointSlice) => MappingsOf(slice, service, parse), store, a.slice, b.slice);
    } else if a.ip < b.ip {
      FlatMapSpan(ip => PortMappings(slice, ip, ports), ips, a.ip, b.ip);
    } else {
      FilterMapSpan(p => MappingOf(slice, ips[a.ip], p), ports, a.port, b.port);
    }
  }

  /** Every mapping stands at the offset of some slice, address and port. */
  lemma EveryMappingPlaced(i: nat, store: seq<EndpointSlice>, service: Service, parse: Parser) returns (at: Place)
    requires i < |SpecOf(store, service, parse).mappings|
    ensures InStore(at, store, service, parse) && Offset(at, store, service, parse) == i
  {
    MappingsOverStore(store, service, parse);
    var s, j := FlatMapFrom((slice: EndpointSlice) => MappingsOf(slice, service, parse), store, i);
    var slice, ports := store[s], NamedPorts(service);
    var ips := ReadyIps(slice.endpoints, parse);
    var a, n := FlatMapFrom(ip => PortMappings(slice, ip, ports), ips, j);
    var p := FilterMapFrom(p => MappingOf(slice, ips[a], p), ports, n);
    at := Place(s, a, p);
  }

  /** The protocol text written into a mapping parses back, so every key built
      from it carries the protocol number of the service port. */
  lemma ProtocolSurvivesMapping(slice: EndpointSlice, p: NamedPort, m: BackendPortMapping, ip: IpAddr)
    requires MapsTo(slice, p, m)
    ensures ip.Ip4? == m.ip.Ip4? <==> PairOf(ip, m).Some?
    ensures PairOf(ip, m).Some? ==>
      match PairOf(ip, m).value.0
      case V4(k) => ip == Ip4(k.ip) && k.port == p.port && ProtocolFromNumber(k.protocol) == Some(p.protocol)
      case V6(k) => ip == Ip6(k.ip) && k.port == p.port && ProtocolFromNumber(k.protocol) == Some(p.protocol)
  {
    ProtocolRoundTrips(p.protocol);
  }

  // ---------- Grouping ----------

  type Pair = (ServiceKey, EndpointValue)

  /** The key and endpoint of a service address and a mapping of one family. */
  function PairOf(ip: IpAddr, m: BackendPortMapping): Option<Pair> {
    var protocol := ProtocolOrTcp(Some(m.protocol)).Number();
    match (ip, m.ip)
    case (Ip4(svc), Ip4(ep)) =>
      Some((V4(ServiceKeyV4(svc, m.servicePort, protocol)), E4(EndpointValueV4(ep, m.backendPort, protocol))))
    case (Ip6(svc), Ip6(ep)) =>
      Some((V6(ServiceKeyV6(svc, m.servicePort, protocol)), E6(EndpointValueV6(ep, m.backendPort, protocol))))
    case _ => None
  }

  /** The number a mapping's protocol text stands for. */
  function NumberFor(text: string): u8 {
    if text == "UDP" || text == "udp" || text == "Udp" then 17
    else if text == "SCTP" || text == "sctp" || text == "Sctp" then 132
    else 6
  }

  /** `key` and `e` carry the two addresses, ports and the protocol number. */
  predicate Carry(
      key: ServiceKey, e: EndpointValue, service: IpAddr, backend: IpAddr, port: u16, backendPort: u16, protocol: u8) {
    match (key, e)
    case (V4(k), E4(v)) =>
      && service == Ip4(k.ip) && backend == Ip4(v.ip)
      && k.port == port && v.port == backendPort && k.protocol == protocol && v.protocol == protocol
    case (V6(k), E6(v)) =>
      && service == Ip6(k.ip) && backend == Ip6(v.ip)
      && k.port == port && v.port == backendPort && k.protocol == protocol && v.protocol == protocol
    case _ => false
  }

  lemma PairExactly(ip: IpAddr, m: BackendPortMapping, key: ServiceKey, e: EndpointValue)
    ensures PairOf(ip, m) == Some((key, e))
       <==> Carry(key, e, ip, m.ip, m.servicePort, m.backendPort, NumberFor(m.protocol))
  {
    forall q: KubeProtocol
      ensures ParseProtocol(m.protocol) == Some(q) <==> Spells(m.protocol, q)
    {
      ParsedSpellings(m.protocol, q);
    }
    ProtocolRoundTrips(Tcp);
    ProtocolRoundTrips(Udp);
    ProtocolRoundTrips(Sctp);
    assert NumberFor(m.protocol) == ProtocolOrTcp(Some(m.protocol)).Number();
  }

  /** The pairs are those of a service address and a mapping of its family. */
  lemma PairsExact(ips: seq<IpAddr>, ms: seq<BackendPortMapping>, key: ServiceKey, e: EndpointValue)
    ensures (key, e) in Pairs(ips, ms)
       <==> exists ip, m ::
              ip in ips && m in ms && Carry(key, e, ip, m.ip, m.servicePort, m.backendPort, NumberFor(m.protocol))
  {
    InFlatMap(ip => PairsWith(ip, ms), ips, (key, e));
    forall ip: IpAddr
      ensures (key, e) in PairsWith(ip, ms)
         <==> exists m :: m in ms && Carry(key, e, ip, m.ip, m.servicePort, m.backendPort, NumberFor(m.protocol))
    {
      InFilterMap(m => PairOf(ip, m), ms, (key, e));
      forall m: BackendPortMapping
        ensures PairOf(ip, m) == Some((key, e))
           <==> Carry(key, e, ip, m.ip, m.servicePort, m.backendPort, NumberFor(m.protocol))
      {
        PairExactly(ip, m, key, e);
      }
    }
  }

  predicate ClusterAddress(service: Service, ip: IpAddr, parse: Parser) {
    && service.spec.Some? && service.spec.value.clusterIps.Some?
    && exists text :: text in service.spec.value.clusterIps.value && parse(text) == Some(ip)
  }

  /** The slice serves the service's port `p` from address `ip` and `port`. */
  predicate Serves(
      slice: EndpointSlice, service: Service, p: NamedPort, ip: IpAddr, port: u16, parse: Parser) {
    && SliceOf(service, slice) && ServicePortOf(service, p)
    && ReadyAddress(slice.endpoints, ip, parse) && slice.ports.Some? && FirstIs(slice.ports.value, p, port)
  }

  /** `key` has a cluster address of the service and the port and protocol
      number of one of its ports, and `e` a ready address of the same family
      and the first port number that an owned slice has for that port. */
  ghost predicate Generated(
      store: seq<EndpointSlice>, service: Service, parse: Parser, key: ServiceKey, e: EndpointValue) {
    exists address, slice, p, backend, port ::
      && ClusterAddress(service, address, parse)
      && slice in store && Serves(slice, service, p, backend, port, parse)
      && Carry(key, e, address, backend, p.port, port,
               if p.protocol == Tcp then 6 else if p.protocol == Udp then 17 else 132)
  }

  /** From the stored objects to the pairs: exactly these are generated. */
  lemma GeneratedExactly(store: seq<EndpointSlice>, service: Service, parse: Parser, key: ServiceKey, e: EndpointValue)
    ensures (key, e) in Pairs(ServiceIps(service, parse), SpecOf(store, service, parse).mappings)
       <==> Generated(store, service, parse, key, e)
  {
    if (key, e) in Pairs(ServiceIps(service, parse), SpecOf(store, service, parse).mappings) {
      PairIsGenerated(store, service, parse, key, e);
    }
    if Generated(store, service, parse, key, e) {
      hide Carry, Serves, ClusterAddress;
      var address, slice, p, backend, port :|
        && ClusterAddress(service, address, parse)
        && slice in store && Serves(slice, service, p, backend, port, parse)
        && Carry(key, e, address, backend, p.port, port,
                 if p.protocol == Tcp then 6 else if p.protocol == Udp then 17 else 132);
      GeneratedIsPair(store, service, parse, key, e, address, slice, p, backend, port);
    }
  }

  lemma PairIsGenerated(store: seq<EndpointSlice>, service: Service, parse: Parser, key: ServiceKey, e: EndpointValue)
    requires (key, e) in Pairs(ServiceIps(service, parse), SpecOf(store, service, parse).mappings)
    ensures Generated(store, service, parse, key, e)
  {
    var ips, ms := ServiceIps(service, parse), SpecOf(store, service, parse).mappings;
    hide SpecOf, ServiceIps, Pairs, FirstIs, SliceOf, ServicePortOf, ReadyAddress, Carry, ClusterAddress;
    PairsExact(ips, ms, key, e);
    var ip, m :| ip in ips && m in ms
      && Carry(key, e, ip, m.ip, m.servicePort, m.backendPort, NumberFor(m.protocol));
    InServiceIps(service, parse, ip);
    MappingsExact(store, service, parse, m);
    var slice, p :| slice in store && SliceOf(service, slice) && ServicePortOf(service, p)
      && Joined(slice, p, m, parse);
    assert Serves(slice, service, p, m.ip, m.backendPort, parse);
    WrittenNumber(p.protocol);
  }

  /** Each protocol's text in a mapping stands for the protocol's number. */
  lemma WrittenNumber(p: KubeProtocol)
    ensures NumberFor(if p == Tcp then "TCP" else if p == Udp then "UDP" else "SCTP")
         == if p == Tcp then 6 else if p == Udp then 17 else 132
  {
    assert "TCP"[0] == 'T' && "UDP"[0] == 'U' && "Udp"[0] == 'U' && "udp"[0] == 'u';
    assert "SCTP"[0] == 'S' && "Sctp"[0] == 'S' && "sctp"[0] == 's';
  }

  lemma GeneratedIsPair(
      store: seq<EndpointSlice>, service: Service, parse: Parser, key: ServiceKey, e: EndpointValue,
      address: IpAddr, slice: EndpointSlice, p: NamedPort, backend: IpAddr, port: u16)
    requires ClusterAddress(service, address, parse)
    requires slice in store && Serves(slice, service, p, backend, port, parse)
    requires Carry(key, e, address, backend, p.port, port,
                   if p.protocol == Tcp then 6 else if p.protocol == Udp then 17 else 132)
    ensures (key, e) in Pairs(ServiceIps(service, parse), SpecOf(store, service, parse).mappings)
  {
    var ips, ms := ServiceIps(service, parse), SpecOf(store, service, parse).mappings;
    hide SpecOf, ServiceIps, Pairs, FirstIs, SliceOf, ServicePortOf, ReadyAddress, Carry, ClusterAddress;
    var text := if p.protocol == Tcp then "TCP" else if p.protocol == Udp then "UDP" else "SCTP";
    var m := BackendPortMapping(backend, p.port, port, text);
    assert Joined(slice, p, m, parse);
    MappingsExact(store, service, parse, m);
    InServiceIps(service, parse, address);
    WrittenNumber(p.protocol);
    PairsExact(ips, ms, key, e);
  }

  lemma InServiceIps(service: Service, parse: Parser, ip: IpAddr)
    ensures ip in ServiceIps(service, parse) <==> ClusterAddress(service, ip, parse)
  {
    if service.spec.Some? && service.spec.value.clusterIps.Some? {
      InFilterMap(parse, service.spec.value.clusterIps.value, ip);
    }
  }

  function PairsWith(ip: IpAddr, ms: seq<BackendPortMapping>): seq<Pair> {
    FilterMap(m => PairOf(ip, m), ms)
  }

  /** All same-family pairs, in generation order. */
  function Pairs(ips: seq<IpAddr>, ms: seq<BackendPortMapping>): seq<Pair> {
    FlatMap(ip => PairsWith(ip, ms), ips)
  }

  /** The endpoints paired with `key`, in order and with multiplicity. */
  function EndpointsFor(ps: seq<Pair>, key: ServiceKey): seq<EndpointValue> {
    FilterMap((p: Pair) => if p.0 == key then Some(p.1) else None, ps)
  }

  predicate Mentions(ps: seq<Pair>, key: ServiceKey) {
    exists p :: p in ps && p.0 == key
  }

  /** `m` has exactly the keys of `ps`, each with all of its endpoints. */
  ghost predicate Groups(m: map<ServiceKey, seq<EndpointValue>>, ps: seq<Pair>) {
    && (forall key :: key in m <==> Mentions(ps, key))
    && (forall key :: key in m ==> m[key] == EndpointsFor(ps, key))
  }

  method GenerateBpfServiceEndpoints(spec: MeshEndpointSpec) returns (result: map<ServiceKey, seq<EndpointValue>>)
    ensures Groups(result, Pairs(spec.serviceIps, spec.mappings))
  {
    var ips, ms := spec.serviceIps, spec.mappings;
    result := map[];
    for i := 0 to |ips|
      invariant Groups(result, Pairs(ips[..i], ms))
    {
      ghost var before := Pairs(ips[..i], ms);
      assert before + PairsWith(ips[i], ms[..0]) == before;
      for j := 0 to |ms|
        invariant Groups(result, before + PairsWith(ips[i], ms[..j]))
      {
        ghost var done := before + PairsWith(ips[i], ms[..j]);
        PairsWithStep(ips[i], ms, j);
        var pair := PairOf(ips[i], ms[j]);
        if pair.Some? {
          var (key, endpoint) := pair.value;
          GroupOneMore(result, done, pair.value);
          if key in result {
            result := result[key := result[key] + [endpoint]];
          } else {
            result := result[key := [endpoint]];
          }
          assert before + PairsWith(ips[i], ms[..j + 1]) == done + [pair.value];
        } else {
          assert before + PairsWith(ips[i], ms[..j + 1]) == done;
        }
      }
      assert ms[..|ms|] == ms;
      PairsStep(ips, ms, i);
    }
    assert ips[..|ips|] == ips;
  }

  lemma PairsWithStep(ip: IpAddr, ms: seq<BackendPortMapping>, j: nat)
    requires j < |ms|
    ensures PairsWith(ip, ms[..j + 1])
         == PairsWith(ip, ms[..j]) + if PairOf(ip, ms[j]).Some? then [PairOf(ip, ms[j]).value] else []
  {
    FilterMapStep(m => PairOf(ip, m), ms, j);
  }

  lemma PairsStep(ips: seq<IpAddr>, ms: seq<BackendPortMapping>, i: nat)
    requires i < |ips|
    ensures Pairs(ips[..i + 1], ms) == Pairs(ips[..i], ms) + PairsWith(ips[i], ms)
  {
    FlatMapStep(ip => PairsWith(ip, ms), ips, i);
  }

  lemma EndpointsForConcat(a: seq<Pair>, b: seq<Pair>, key: ServiceKey)
    ensures EndpointsFor(a + b, key) == EndpointsFor(a, key) + EndpointsFor(b, key)
  {
    FilterMapConcat((p: Pair) => if p.0 == key then Some(p.1) else None, a, b);
  }

  lemma InEndpointsFor(ps: seq<Pair>, key: ServiceKey, e: EndpointValue)
    ensures e in EndpointsFor(ps, key) <==> (key, e) in ps
  {
    InFilterMap((p: Pair) => if p.0 == key then Some(p.1) else None, ps, e);
    assert forall p: Pair :: p.0 == key && p.1 == e <==> p == (key, e);
  }

  lemma AbsentHasNone(ps: seq<Pair>, key: ServiceKey)
    ensures EndpointsFor(ps, key) == [] <==> !Mentions(ps, key)
  {
    if Mentions(ps, key) {
      var p :| p in ps && p.0 == key;
      InEndpointsFor(ps, key, p.1);
      assert p == (key, p.1);
    } else if EndpointsFor(ps, key) != [] {
      InEndpointsFor(ps, key, EndpointsFor(ps, key)[0]);
    }
  }

  lemma GroupOneMore(m: map<ServiceKey, seq<EndpointValue>>, ps: seq<Pair>, pair: Pair)
    requires Groups(m, ps)
    ensures var tail := if pair.0 in m then m[pair.0] else [];
      Groups(m[pair.0 := tail + [pair.1]], ps + [pair])
  {
    AbsentHasNone(ps, pair.0);
    assert pair in ps + [pair];
    forall key: ServiceKey
      ensures EndpointsFor(ps + [pair], key) == EndpointsFor(ps, key) + if key == pair.0 then [pair.1] else []
    {
      EndpointsForOneMore(ps, pair, key);
    }
  }

  lemma EndpointsForOneMore(ps: seq<Pair>, pair: Pair, key: ServiceKey)
    ensures EndpointsFor(ps + [pair], key) == EndpointsFor(ps, key) + if key == pair.0 then [pair.1] else []
  {
    assert (ps + [pair])[..|ps|] == ps && (ps + [pair])[..|ps| + 1] == ps + [pair];
    FilterMapStep((p: Pair) => if p.0 == key then Some(p.1) else None, ps + [pair], |ps|);
  }

  // ---------- Grouping conserves ----------

  function SumLengths(ps: seq<Pair>, keys: seq<ServiceKey>): nat {
    if keys == [] then 0 else |EndpointsFor(ps, keys[0])| + SumLengths(ps, keys[1..])
  }

  lemma {:induction false} SumOneMore(ps: seq<Pair>, keys: seq<ServiceKey>, pair: Pair)
    requires Distinct(keys)
    ensures SumLengths(ps + [pair], keys) == SumLengths(ps, keys) + if pair.0 in keys then 1 else 0
  {
    if keys != [] {
      SumOneMore(ps, keys[1..], pair);
      EndpointsForOneMore(ps, pair, keys[0]);
      assert pair.0 in keys <==> pair.0 == keys[0] || pair.0 in keys[1..];
    }
  }

  /** However the keys of the result are listed, their lists hold together as
      many endpoints as there are same-family pairs: nothing is lost or doubled. */
  lemma {:induction false} GroupingConserves(ps: seq<Pair>, keys: seq<ServiceKey>)
    requires Distinct(keys) && forall p :: p in ps ==> p.0 in keys
    ensures SumLengths(ps, keys) == |ps|
    decreases |ps|
  {
    if ps == [] {
      NoPairsNoLengths(keys);
    } else {
      var front := ps[..|ps| - 1];
      GroupingConserves(front, keys);
      SumOneMore(front, keys, ps[|ps| - 1]);
      assert front + [ps[|ps| - 1]] == ps;
    }
  }

  lemma {:induction false} NoPairsNoLengths(keys: seq<ServiceKey>)
    ensures SumLengths([], keys) == 0
  {
    if keys != [] {
      NoPairsNoLengths(keys[1..]);
    }
  }

  predicate SameFamilyAndProtocol(key: ServiceKey, e: EndpointValue) {
    match (key, e)
    case (V4(k), E4(v)) => k.protocol == v.protocol
    case (V6(k), E6(v)) => k.protocol == v.protocol
    case _ => false
  }

  /** Every list in the result is non-empty and only holds endpoints of its
      key's family and protocol. */
  lemma GroupedListsFit(spec: MeshEndpointSpec, m: map<ServiceKey, seq<EndpointValue>>, key: ServiceKey)
    requires Groups(m, Pairs(spec.serviceIps, spec.mappings)) && key in m
    ensures m[key] != []
    ensures forall e :: e in m[key] ==> SameFamilyAndProtocol(key, e)
  {
    var ps := Pairs(spec.serviceIps, spec.mappings);
    AbsentHasNone(ps, key);
    forall e | e in m[key]
      ensures SameFamilyAndProtocol(key, e)
    {
      InEndpointsFor(ps, key, e);
      InFlatMap(ip => PairsWith(ip, spec.mappings), spec.serviceIps, (key, e));
      var ip :| ip in spec.serviceIps && (key, e) in PairsWith(ip, spec.mappings);
      InFilterMap(m => PairOf(ip, m), spec.mappings, (key, e));
      var mapping :| mapping in spec.mappings && PairOf(ip, mapping) == Some((key, e));
    }
  }

  // ---------- What a key of a service receives ----------

  function AddressOf(key: ServiceKey): IpAddr {
    match key case V4(k) => Ip4(k.ip) case V6(k) => Ip6(k.ip)
  }

  /** The endpoint of a mapping for the key's port, protocol and family. */
  function BackendOf(m: BackendPortMapping, key: ServiceKey): Option<EndpointValue> {
    var protocol := ProtocolOrTcp(Some(m.protocol)).Number();
    match key
    case V4(k) =>
      if k.port == m.servicePort && k.protocol == protocol && m.ip.Ip4?
      then Some(E4(EndpointValueV4(m.ip.bits4, m.backendPort, protocol))) else None
    case V6(k) =>
      if k.port == m.servicePort && k.protocol == protocol && m.ip.Ip6?
      then Some(E6(EndpointValueV6(m.ip.bits6, m.backendPort, protocol))) else None
  }

  /** The endpoints of all such mappings, in generation order. */
  function BackendsFor(ms: seq<BackendPortMapping>, key: ServiceKey): seq<EndpointValue> {
    FilterMap(m => BackendOf(m, key), ms)
  }

  lemma PairOrBackend(ip: IpAddr, m: BackendPortMapping, key: ServiceKey)
    ensures (if PairOf(ip, m).Some? && PairOf(ip, m).value.0 == key then Some(PairOf(ip, m).value.1) else None)
         == if ip == AddressOf(key) then BackendOf(m, key) else None
  {}

  lemma BackendsForStep(ms: seq<BackendPortMapping>, key: ServiceKey, n: nat)
    requires n < |ms|
    ensures BackendsFor(ms[..n + 1], key)
         == BackendsFor(ms[..n], key) + if BackendOf(ms[n], key).Some? then [BackendOf(ms[n], key).value] else []
  {
    FilterMapStep(m => BackendOf(m, key), ms, n);
  }

  lemma {:induction false} EndpointsForOneAddress(ip: IpAddr, ms: seq<BackendPortMapping>, key: ServiceKey, n: nat)
    requires n <= |ms|
    ensures EndpointsFor(PairsWith(ip, ms[..n]), key) == if ip == AddressOf(key) then BackendsFor(ms[..n], key) else []
  {
    if n > 0 {
      EndpointsForOneAddress(ip, ms, key, n - 1);
      PairsWithStep(ip, ms, n - 1);
      BackendsForStep(ms, key, n - 1);
      PairOrBackend(ip, ms[n - 1], key);
      var pair := PairOf(ip, ms[n - 1]);
      if pair.Some? {
        EndpointsForOneMore(PairsWith(ip, ms[..n - 1]), pair.value, key);
      } else {
        assert PairsWith(ip, ms[..n]) == PairsWith(ip, ms[..n - 1]);
      }
    }
  }

  /** `list` written `times` times over. */
  function Repeat<T>(list: seq<T>, times: nat): seq<T> {
    if times == 0 then [] else Repeat(list, times - 1) + list
  }

  lemma {:induction false} RepeatEmpty<T>(list: seq<T>, times: nat)
    ensures Repeat(list, times) == [] <==> list == [] || times == 0
  {
    if times > 0 {
      RepeatEmpty(list, times - 1);
    }
  }

  lemma RepeatOneMore<T, A>(list: seq<T>, front: seq<A>, last: A, a: A)
    ensures Repeat(list, multiset(front + [last])[a])
         == Repeat(list, multiset(front)[a]) + if last == a then list else []
  {
    assert multiset(front + [last])[a] == multiset(front)[a] + if last == a then 1 else 0;
  }

  lemma EndpointsForOneMoreAddress(front: seq<IpAddr>, ip: IpAddr, ms: seq<BackendPortMapping>, key: ServiceKey)
    ensures EndpointsFor(Pairs(front + [ip], ms), key)
         == EndpointsFor(Pairs(front, ms), key) + if ip == AddressOf(key) then BackendsFor(ms, key) else []
  {
    PairsStep(front + [ip], ms, |front|);
    assert (front + [ip])[..|front|] == front && (front + [ip])[..|front| + 1] == front + [ip];
    EndpointsForConcat(Pairs(front, ms), PairsWith(ip, ms), key);
    EndpointsForOneAddress(ip, ms, key, |ms|);
    assert ms[..|ms|] == ms;
  }

  lemma NoAddressesNoEndpoints(ms: seq<BackendPortMapping>, key: ServiceKey)
    ensures EndpointsFor(Pairs([], ms), key) == Repeat(BackendsFor(ms, key), 0) == []
  {
    assert Pairs([], ms) == [];
  }

  lemma {:induction false} EndpointsForAddresses(ips: seq<IpAddr>, ms: seq<BackendPortMapping>, key: ServiceKey)
    ensures EndpointsFor(Pairs(ips, ms), key) == Repeat(BackendsFor(ms, key), multiset(ips)[AddressOf(key)])
  {
    hide Pairs, EndpointsFor, BackendsFor, Repeat;
    if ips == [] {
      NoAddressesNoEndpoints(ms, key);
    } else {
      var front, ip := ips[..|ips| - 1], ips[|ips| - 1];
      EndpointsForAddresses(front, ms, key);
      EndpointsForOneMoreAddress(front, ip, ms, key);
      RepeatOneMore(BackendsFor(ms, key), front, ip, AddressOf(key));
      assert ips == front + [ip];
    }
  }

  /** A key receives exactly the backends mapped for its port and protocol,
      once for each time its address is listed, and nothing if it is not. */
  lemma EndpointsForKey(ips: seq<IpAddr>, ms: seq<BackendPortMapping>, key: ServiceKey)
    ensures EndpointsFor(Pairs(ips, ms), key) == Repeat(BackendsFor(ms, key), multiset(ips)[AddressOf(key)])
    ensures Distinct(ips) && AddressOf(key) in ips ==> EndpointsFor(Pairs(ips, ms), key) == BackendsFor(ms, key)
  {
    EndpointsForAddresses(ips, ms, key);
    if Distinct(ips) && AddressOf(key) in ips {
      OnceIfDistinct(ips, AddressOf(key));
      assert Repeat(BackendsFor(ms, key), 1) == Repeat(BackendsFor(ms, key), 0) + BackendsFor(ms, key);
    }
  }

  lemma {:induction false} OnceIfDistinct(ips: seq<IpAddr>, ip: IpAddr)
    requires Distinct(ips) && ip in ips
    ensures multiset(ips)[ip] == 1
  {
    var front, last := ips[..|ips| - 1], ips[|ips| - 1];
    assert ips == front + [last];
    if ip in front {
      OnceIfDistinct(front, ip);
    }
  }
}
