/** Service VIPs (endpoints.go, service.go, loadbalancer.go, gateway.go): endpoint subsets are
    collected per port name and written as VIPs of the cluster, gateway and external-IP load
    balancers; deleting the service removes them again. */
module LoadBalancer {
  import opened Acl
  import opened Strings

  datatype Proto = TCP | UDP | Other

  datatype EpPort = EpPort(name: string, proto: Proto, port: nat)

  datatype Subset = Subset(addresses: seq<string>, ports: seq<EpPort>)

  /** The endpoints of one port name: its addresses and target port. */
  datatype LbEndpoints = LbEndpoints(ips: seq<string>, port: nat)

  datatype PortMaps = PortMaps(tcp: map<string, LbEndpoints>, udp: map<string, LbEndpoints>)

  // ------------------------------------------------------- collecting endpoints

  /** One turn of the innermost loop: an address and a port of its subset. */
  datatype Visit = Visit(ip: string, port: EpPort)

  function PortVisits(ip: string, ports: seq<EpPort>): seq<Visit> {
    if ports == [] then [] else [Visit(ip, ports[0])] + PortVisits(ip, ports[1..])
  }

  function AddressVisits(addresses: seq<string>, ports: seq<EpPort>): seq<Visit> {
    if addresses == [] then [] else PortVisits(addresses[0], ports) + AddressVisits(addresses[1..], ports)
  }

  function Visits(subsets: seq<Subset>): seq<Visit> {
    if subsets == [] then [] else AddressVisits(subsets[0].addresses, subsets[0].ports) + Visits(subsets[1..])
  }

  function Append(m: map<string, LbEndpoints>, v: Visit): map<string, LbEndpoints> {
    m[v.port.name := LbEndpoints((if v.port.name in m then m[v.port.name].ips else []) + [v.ip], v.port.port)]
  }

  /** The maps after more turns; None is the panic of writing to a nil map, for a port that is
      neither TCP nor UDP. */
  function Collect(m: PortMaps, vs: seq<Visit>): Option<PortMaps>
    decreases |vs|
  {
    if vs == [] then Some(m)
    else match vs[0].port.proto
         case TCP => Collect(m.(tcp := Append(m.tcp, vs[0])), vs[1..])
         case UDP => Collect(m.(udp := Append(m.udp, vs[0])), vs[1..])
         case Other => None
  }

  lemma {:induction false} CollectConcat(m: PortMaps, a: seq<Visit>, b: seq<Visit>)
    ensures Collect(m, a + b) == if Collect(m, a).Some? then Collect(Collect(m, a).value, b) else None
    decreases |a|
  {
    if a == [] {
      assert a + b == b;
    } else {
      assert (a + b)[0] == a[0] && (a + b)[1..] == a[1..] + b;
      if a[0].port.proto == TCP {
        CollectConcat(m.(tcp := Append(m.tcp, a[0])), a[1..], b);
      } else if a[0].port.proto == UDP {
        CollectConcat(m.(udp := Append(m.udp, a[0])), a[1..], b);
      }
    }
  }

  const NoPorts := PortMaps(map[], map[])

  /** The loop over the ports of a subset, for one address. */
  method CollectPorts(m: PortMaps, ip: string, ports: seq<EpPort>) returns (r: Option<PortMaps>)
    ensures r == Collect(m, PortVisits(ip, ports))
  {
    var maps := m;
    var k := 0;
    while k < |ports|
      invariant 0 <= k <= |ports|
      invariant Collect(maps, PortVisits(ip, ports[k..])) == Collect(m, PortVisits(ip, ports))
    {
      var v := Visit(ip, ports[k]);
      assert ports[k..][0] == ports[k] && ports[k..][1..] == ports[k + 1..];
      assert PortVisits(ip, ports[k..])[1..] == PortVisits(ip, ports[k + 1..]);
      if ports[k].proto == UDP {
        maps := maps.(udp := Append(maps.udp, v));
      } else if ports[k].proto == TCP {
        maps := maps.(tcp := Append(maps.tcp, v));
      } else {
        return None;
      }
      k := k + 1;
    }
    return Some(maps);
  }

  /** The loop over the addresses of a subset. */
  method CollectAddresses(m: PortMaps, addresses: seq<string>, ports: seq<EpPort>) returns (r: Option<PortMaps>)
    ensures r == Collect(m, AddressVisits(addresses, ports))
  {
    var maps := m;
    var j := 0;
    while j < |addresses|
      invariant 0 <= j <= |addresses|
      invariant Collect(maps, AddressVisits(addresses[j..], ports)) == Collect(m, AddressVisits(addresses, ports))
    {
      assert addresses[j..][0] == addresses[j] && addresses[j..][1..] == addresses[j + 1..];
      CollectConcat(maps, PortVisits(addresses[j], ports), AddressVisits(addresses[j + 1..], ports));
      var next := CollectPorts(maps, addresses[j], ports);
      if next.None? {
        return None;
      }
      maps := next.value;
      j := j + 1;
    }
    return Some(maps);
  }

  /** The aggregation loops of AddEndpoints. */
  method CollectEndpoints(subsets: seq<Subset>) returns (r: Option<PortMaps>)
    ensures r == Collect(NoPorts, Visits(subsets))
  {
    var maps := NoPorts;
    var i := 0;
    while i < |subsets|
      invariant 0 <= i <= |subsets|
      invariant Collect(maps, Visits(subsets[i..])) == Collect(NoPorts, Visits(subsets))
    {
      var s := subsets[i];
      assert subsets[i..][0] == s && subsets[i..][1..] == subsets[i + 1..];
      CollectConcat(maps, AddressVisits(s.addresses, s.ports), Visits(subsets[i + 1..]));
      var next := CollectAddresses(maps, s.addresses, s.ports);
      if next.None? {
        return None;
      }
      maps := next.value;
      i := i + 1;
    }
    return Some(maps);
  }

  /** The addresses, in order, of the visits to a port name. */
  function IpsOf(vs: seq<Visit>, proto: Proto, name: string): seq<string> {
    if vs == [] then []
    else (if vs[0].port.proto == proto && vs[0].port.name == name then [vs[0].ip] else []) + IpsOf(vs[1..], proto, name)
  }

  function Entry(m: PortMaps, proto: Proto, name: string): seq<string> {
    var t := if proto == TCP then m.tcp else m.udp;
    if name in t then t[name].ips else []
  }

  lemma {:induction false} CollectFails(m: PortMaps, vs: seq<Visit>)
    ensures Collect(m, vs).None? <==> exists v | v in vs :: v.port.proto == Other
    decreases |vs|
  {
    if vs != [] {
      assert forall v :: v in vs <==> v == vs[0] || v in vs[1..];
      if vs[0].port.proto == TCP {
        CollectFails(m.(tcp := Append(m.tcp, vs[0])), vs[1..]);
      } else if vs[0].port.proto == UDP {
        CollectFails(m.(udp := Append(m.udp, vs[0])), vs[1..]);
      }
    }
  }

  lemma {:induction false} CollectIps(m: PortMaps, vs: seq<Visit>, proto: Proto, name: string)
    requires proto != Other && Collect(m, vs).Some?
    ensures Entry(Collect(m, vs).value, proto, name) == Entry(m, proto, name) + IpsOf(vs, proto, name)
    decreases |vs|
  {
    if vs != [] {
      var m' := if vs[0].port.proto == TCP then m.(tcp := Append(m.tcp, vs[0])) else m.(udp := Append(m.udp, vs[0]));
      CollectIps(m', vs[1..], proto, name);
      EntryAfter(m, vs[0], proto, name);
      Regroup(Entry(m, proto, name), if vs[0].port.proto == proto && vs[0].port.name == name then [vs[0].ip] else [],
              IpsOf(vs[1..], proto, name));
    }
  }

  lemma Regroup(a: seq<string>, b: seq<string>, c: seq<string>)
    ensures a + b + c == a + (b + c)
  {
  }

  lemma EntryAfter(m: PortMaps, v: Visit, proto: Proto, name: string)
    requires proto != Other && v.port.proto != Other
    ensures var m' := if v.port.proto == TCP then m.(tcp := Append(m.tcp, v)) else m.(udp := Append(m.udp, v));
            Entry(m', proto, name) == Entry(m, proto, name) + if v.port.proto == proto && v.port.name == name
                                                              then [v.ip] else []
  {
  }

  predicate IsPort(p: EpPort, proto: Proto, name: string) { p.proto == proto && p.name == name }

  /** The number of the last listed port of that name. */
  function NumberOf(ports: seq<EpPort>, proto: Proto, name: string): Option<nat> {
    if ports == [] then None
    else
      var later := NumberOf(ports[1..], proto, name);
      if later.Some? then later else if IsPort(ports[0], proto, name) then Some(ports[0].port) else None
  }

  /** The number of the last port of that name in a subset with addresses. */
  function LastNumber(subsets: seq<Subset>, proto: Proto, name: string): Option<nat> {
    if subsets == [] then None
    else
      var later := LastNumber(subsets[1..], proto, name);
      if later.Some? then later
      else if subsets[0].addresses == [] then None
      else NumberOf(subsets[0].ports, proto, name)
  }

  function Ports(vs: seq<Visit>): seq<EpPort> { seq(|vs|, i requires 0 <= i < |vs| => vs[i].port) }

  lemma {:induction false} NumberConcat(a: seq<EpPort>, b: seq<EpPort>, proto: Proto, name: string)
    ensures NumberOf(a + b, proto, name) ==
            if NumberOf(b, proto, name).Some? then NumberOf(b, proto, name) else NumberOf(a, proto, name)
  {
    if a == [] {
      assert a + b == b;
    } else {
      assert (a + b)[0] == a[0] && (a + b)[1..] == a[1..] + b;
      NumberConcat(a[1..], b, proto, name);
    }
  }

  lemma {:induction false} PortVisitsNumber(ip: string, ports: seq<EpPort>)
    ensures Ports(PortVisits(ip, ports)) == ports
  {
    if ports != [] {
      PortVisitsNumber(ip, ports[1..]);
      assert Ports([Visit(ip, ports[0])] + PortVisits(ip, ports[1..]))
          == [ports[0]] + Ports(PortVisits(ip, ports[1..]));
    }
  }

  lemma {:induction false} AddressVisitsNumber(addresses: seq<string>, ports: seq<EpPort>, proto: Proto, name: string)
    ensures NumberOf(Ports(AddressVisits(addresses, ports)), proto, name) ==
            if addresses == [] then None else NumberOf(ports, proto, name)
  {
    if addresses != [] {
      AddressVisitsNumber(addresses[1..], ports, proto, name);
      var a, b := PortVisits(addresses[0], ports), AddressVisits(addresses[1..], ports);
      PortVisitsNumber(addresses[0], ports);
      assert Ports(a + b) == Ports(a) + Ports(b);
      NumberConcat(Ports(a), Ports(b), proto, name);
    }
  }

  lemma {:induction false} VisitsNumber(subsets: seq<Subset>, proto: Proto, name: string)
    ensures NumberOf(Ports(Visits(subsets)), proto, name) == LastNumber(subsets, proto, name)
  {
    if subsets != [] {
      VisitsNumber(subsets[1..], proto, name);
      var a, b := AddressVisits(subsets[0].addresses, subsets[0].ports), Visits(subsets[1..]);
      AddressVisitsNumber(subsets[0].addresses, subsets[0].ports, proto, name);
      assert Ports(a + b) == Ports(a) + Ports(b);
      NumberConcat(Ports(a), Ports(b), proto, name);
    }
  }

  /** The number a port name has in the maps. */
  function Number(m: PortMaps, proto: Proto, name: string): Option<nat> {
    var t := if proto == TCP then m.tcp else m.udp;
    if name in t then Some(t[name].port) else None
  }

  lemma {:induction false} CollectNumber(m: PortMaps, vs: seq<Visit>, proto: Proto, name: string)
    requires proto != Other && Collect(m, vs).Some?
    ensures var last := NumberOf(Ports(vs), proto, name);
            Number(Collect(m, vs).value, proto, name) == if last.Some? then last else Number(m, proto, name)
    decreases |vs|
  {
    if vs != [] {
      assert Ports(vs)[1..] == Ports(vs[1..]);
      if vs[0].port.proto == TCP {
        CollectNumber(m.(tcp := Append(m.tcp, vs[0])), vs[1..], proto, name);
      } else if vs[0].port.proto == UDP {
        CollectNumber(m.(udp := Append(m.udp, vs[0])), vs[1..], proto, name);
      }
    }
  }

  /** Every address of a subset is visited with every port of it. */
  lemma {:induction false} VisitsAre(subsets: seq<Subset>, v: Visit)
    ensures v in Visits(subsets) <==> exists s | s in subsets :: v.ip in s.addresses && v.port in s.ports
  {
    if subsets != [] {
      VisitsAre(subsets[1..], v);
      AddressVisitsAre(subsets[0].addresses, subsets[0].ports, v);
      assert forall s :: s in subsets <==> s == subsets[0] || s in subsets[1..];
    }
  }

  lemma {:induction false} AddressVisitsAre(addresses: seq<string>, ports: seq<EpPort>, v: Visit)
    ensures v in AddressVisits(addresses, ports) <==> v.ip in addresses && v.port in ports
  {
    if addresses != [] {
      AddressVisitsAre(addresses[1..], ports, v);
      PortVisitsAre(addresses[0], ports, v);
      assert forall a :: a in addresses <==> a == addresses[0] || a in addresses[1..];
    }
  }

  lemma {:induction false} PortVisitsAre(ip: string, ports: seq<EpPort>, v: Visit)
    ensures v in PortVisits(ip, ports) <==> v.ip == ip && v.port in ports
  {
    if ports != [] {
      PortVisitsAre(ip, ports[1..], v);
      assert forall p :: p in ports <==> p == ports[0] || p in ports[1..];
    }
  }

  lemma {:induction false} IpsOfMembers(vs: seq<Visit>, proto: Proto, name: string, ip: string)
    ensures ip in IpsOf(vs, proto, name)
        <==> exists v | v in vs :: v.ip == ip && v.port.proto == proto && v.port.name == name
  {
    if vs != [] {
      IpsOfMembers(vs[1..], proto, name, ip);
      assert forall v :: v in vs <==> v == vs[0] || v in vs[1..];
    }
  }

  /** AddEndpoints gives a port name exactly the addresses of the subsets with such a port, and the
      number it has in the last of them. */
  lemma EndpointsOfPort(subsets: seq<Subset>, proto: Proto, name: string, ip: string)
    requires proto != Other && Collect(NoPorts, Visits(subsets)).Some?
    ensures var m := Collect(NoPorts, Visits(subsets)).value;
            && (ip in Entry(m, proto, name)
              <==> exists s, p | s in subsets && p in s.ports ::
                     ip in s.addresses && p.proto == proto && p.name == name)
            && Number(m, proto, name) == LastNumber(subsets, proto, name)
  {
    var vs := Visits(subsets);
    CollectIps(NoPorts, vs, proto, name);
    CollectNumber(NoPorts, vs, proto, name);
    VisitsNumber(subsets, proto, name);
    IpsOfMembers(vs, proto, name, ip);
    if v :| v in vs && v.ip == ip && v.port.proto == proto && v.port.name == name {
      VisitsAre(subsets, v);
      var s :| s in subsets && v.ip in s.addresses && v.port in s.ports;
      assert s in subsets && v.port in s.ports;
    }
    if s, p :| s in subsets && p in s.ports && ip in s.addresses && p.proto == proto && p.name == name {
      VisitsAre(subsets, Visit(ip, p));
    }
  }

  /** AddEndpoints panics exactly when a subset with an address has a port that is neither TCP nor
      UDP. */
  lemma PanicsExactly(subsets: seq<Subset>)
    ensures Collect(NoPorts, Visits(subsets)).None? <==>
            exists s, p | s in subsets && p in s.ports :: s.addresses != [] && p.proto == Other
  {
    var vs := Visits(subsets);
    CollectFails(NoPorts, vs);
    if v :| v in vs && v.port.proto == Other {
      VisitsAre(subsets, v);
      var s :| s in subsets && v.ip in s.addresses && v.port in s.ports;
      assert s in subsets && v.port in s.ports;
    }
    if s, p :| s in subsets && p in s.ports && s.addresses != [] && p.proto == Other {
      assert s.addresses[0] in s.addresses;
      VisitsAre(subsets, Visit(s.addresses[0], p));
    }
  }

  // ------------------------------------------------------- VIPs

  datatype Vip = Vip(lb: string, ip: string, port: nat)

  type Table = map<Vip, string>

  /** A gateway router: its physical address and its load balancers. */
  datatype Gateway = Gateway(ip: string, tcpLb: Option<string>, udpLb: Option<string>)

  /** The load balancers there are: the cluster's, every gateway's and the default gateway's. */
  datatype Lbs = Lbs(tcp: Option<string>, udp: Option<string>, gateways: seq<Gateway>,
                     gwTcp: Option<string>, gwUdp: Option<string>, nodePortEnable: bool)

  datatype ServiceType = ClusterIPType | NodePortType | OtherType

  datatype SvcPort = SvcPort(name: string, proto: Proto, port: nat, nodePort: nat)

  datatype Service = Service(type_: ServiceType, clusterIP: string, ports: seq<SvcPort>, externalIPs: seq<string>)

  function ClusterLb(e: Lbs, proto: Proto): Option<string> {
    match proto case TCP => e.tcp case UDP => e.udp case Other => None
  }

  function GatewayLb(g: Gateway, proto: Proto): Option<string> {
    match proto case TCP => g.tcpLb case UDP => g.udpLb case Other => None
  }

  function DefaultLb(e: Lbs, proto: Proto): Option<string> {
    match proto case TCP => e.gwTcp case UDP => e.gwUdp case Other => None
  }

  /** "ip:port" of every endpoint, separated by commas. */
  function Targets(ips: seq<string>, port: nat): string {
    if ips == [] then ""
    else if |ips| == 1 then ips[0] + ":" + Decimal(port)
    else Targets(ips[..|ips| - 1], port) + "," + ips[|ips| - 1] + ":" + Decimal(port)
  }

  function EndpointText(ip: string, port: nat): string { ip + ":" + Decimal(port) }

  /** The text lists exactly these endpoints, in order: cut at the commas, it has one piece for each.
      Addresses hold no commas. */
  ghost predicate Lists(text: string, ips: seq<string>, port: nat) {
    (forall ip | ip in ips :: ',' !in ip) ==>
      && |Split(text, ',')| == |ips|
      && forall i | 0 <= i < |ips| :: Split(text, ',')[i] == EndpointText(ips[i], port)
  }

  lemma OneEndpoint(ip: string, port: nat)
    requires ',' !in ip
    ensures ',' !in EndpointText(ip, port)
  {
  }

  ghost predicate PiecesAre(pieces: seq<string>, ips: seq<string>, port: nat) {
    |pieces| == |ips| && forall i | 0 <= i < |ips| :: pieces[i] == EndpointText(ips[i], port)
  }

  lemma NextPiece(pieces: seq<string>, ips: seq<string>, port: nat)
    requires ips != [] && PiecesAre(pieces, ips[..|ips| - 1], port)
    ensures PiecesAre(pieces + [EndpointText(ips[|ips| - 1], port)], ips, port)
  {
  }

  lemma TargetsSnoc(ips: seq<string>, port: nat)
    requires |ips| > 1
    ensures var n := |ips| - 1;
            Targets(ips, port) == Targets(ips[..n], port) + [','] + EndpointText(ips[n], port)
  {
  }

  lemma {:induction false} TargetsPieces(ips: seq<string>, port: nat)
    requires ips != [] && forall ip | ip in ips :: ',' !in ip
    ensures PiecesAre(Split(Targets(ips, port), ','), ips, port)
  {
    var n := |ips| - 1;
    assert ips[n] in ips;
    OneEndpoint(ips[n], port);
    if n == 0 {
      SplitOne(EndpointText(ips[0], port), ',');
    } else {
      TargetsPieces(ips[..n], port);
      TargetsSnoc(ips, port);
      SplitLast(Targets(ips[..n], port), EndpointText(ips[n], port), ',');
      NextPiece(Split(Targets(ips[..n], port), ','), ips, port);
    }
  }

  lemma TargetsList(ips: seq<string>, port: nat)
    requires ips != []
    ensures Lists(Targets(ips, port), ips, port)
  {
    if forall ip | ip in ips :: ',' !in ip {
      TargetsPieces(ips, port);
    }
  }

  method TargetsText(ips: seq<string>, port: nat) returns (text: string)
    ensures text == Targets(ips, port)
    ensures ips != [] ==> Lists(text, ips, port)
  {
    text := "";
    var i := 0;
    while i < |ips|
      invariant 0 <= i <= |ips| && text == Targets(ips[..i], port)
    {
      assert ips[..i + 1][..i] == ips[..i];
      var comma := if i == 0 then "" else ",";
      text := text + comma + ips[i] + ":" + Decimal(port);
      i := i + 1;
    }
    assert ips[..i] == ips;
    if ips != [] {
      TargetsList(ips, port);
    }
  }

  /** Writing all of some VIPs to one value, or removing them when there are no endpoints. */
  function Write(t: Table, keys: set<Vip>, ips: seq<string>, port: nat): Table {
    if ips == [] then t - keys else map k | k in t.Keys + keys :: if k in keys then Targets(ips, port) else t[k]
  }

  function GatewayKeys(gs: seq<Gateway>, proto: Proto, port: nat): set<Vip> {
    set g | g in gs && GatewayLb(g, proto).Some? :: Vip(GatewayLb(g, proto).value, g.ip, port)
  }

  function ExternalKeys(e: Lbs, ips: seq<string>, proto: Proto, port: nat): set<Vip> {
    if DefaultLb(e, proto).None? then {} else set ip | ip in ips :: Vip(DefaultLb(e, proto).value, ip, port)
  }

  /** The VIPs a service port gets. */
  function Keys(e: Lbs, s: Service, p: SvcPort): set<Vip> {
    (if s.type_ == NodePortType && e.nodePortEnable then GatewayKeys(e.gateways, p.proto, p.nodePort) else {})
    + (if s.type_ != OtherType && ClusterLb(e, p.proto).Some?
       then {Vip(ClusterLb(e, p.proto).value, s.clusterIP, p.port)}
       + ExternalKeys(e, s.externalIPs, p.proto, p.port) else {})
  }

  /** `lb` is the one of the two load balancers that serves the protocol. */
  predicate Serves(tcp: Option<string>, udp: Option<string>, proto: Proto, lb: string) {
    (proto == TCP && tcp == Some(lb)) || (proto == UDP && udp == Some(lb))
  }

  /** The places a service port is to be reached at: with NodePorts, every gateway's address and the
      node port on that gateway's load balancer for the protocol; the cluster IP and the port on the
      cluster's; and, where there is one of these, every external IP and the port on the default
      gateway's. */
  predicate IsVip(e: Lbs, s: Service, p: SvcPort, v: Vip) {
    || (&& s.type_ == NodePortType && e.nodePortEnable && v.port == p.nodePort
        && exists g | g in e.gateways :: v.ip == g.ip && Serves(g.tcpLb, g.udpLb, p.proto, v.lb))
    || (s.type_ != OtherType && v.port == p.port && v.ip == s.clusterIP && Serves(e.tcp, e.udp, p.proto, v.lb))
    || (&& s.type_ != OtherType && v.port == p.port && v.ip in s.externalIPs && Serves(e.gwTcp, e.gwUdp, p.proto, v.lb)
        && if p.proto == TCP then e.tcp.Some? else e.udp.Some?)
  }

  lemma GatewayKeysAre(gs: seq<Gateway>, proto: Proto, port: nat, v: Vip)
    ensures v in GatewayKeys(gs, proto, port)
        <==> v.port == port && exists g | g in gs :: v.ip == g.ip && Serves(g.tcpLb, g.udpLb, proto, v.lb)
  {
    if v in GatewayKeys(gs, proto, port) {
      var g :| g in gs && GatewayLb(g, proto).Some? && v == Vip(GatewayLb(g, proto).value, g.ip, port);
      assert Serves(g.tcpLb, g.udpLb, proto, v.lb);
    }
    if g :| v.port == port && g in gs && v.ip == g.ip && Serves(g.tcpLb, g.udpLb, proto, v.lb) {
      assert GatewayLb(g, proto).Some? && v == Vip(GatewayLb(g, proto).value, g.ip, port);
    }
  }

  /** The VIPs written for a port are these places. */
  lemma KeysAreVips(e: Lbs, s: Service, p: SvcPort, v: Vip)
    ensures v in Keys(e, s, p) <==> IsVip(e, s, p, v)
  {
    GatewayKeysAre(e.gateways, p.proto, p.nodePort, v);
  }

  lemma NoGateways(gs: seq<Gateway>, proto: Proto, port: nat, t: Table, ips: seq<string>, targetPort: nat)
    ensures t == Write(t, GatewayKeys(gs[..0], proto, port), ips, targetPort)
  {
  }

  lemma NextGateway(gs: seq<Gateway>, i: nat, proto: Proto, port: nat)
    requires i < |gs|
    ensures GatewayLb(gs[i], proto).None? ==> GatewayKeys(gs[..i + 1], proto, port) == GatewayKeys(gs[..i], proto, port)
    ensures GatewayLb(gs[i], proto).Some? ==>
            GatewayKeys(gs[..i + 1], proto, port) ==
            GatewayKeys(gs[..i], proto, port) + {Vip(GatewayLb(gs[i], proto).value, gs[i].ip, port)}
  {
  }

  lemma NextExternal(e: Lbs, ips: seq<string>, i: nat, proto: Proto, port: nat)
    requires i < |ips|
    ensures DefaultLb(e, proto).None?
        ==> ExternalKeys(e, ips[..i + 1], proto, port) == ExternalKeys(e, ips[..i], proto, port)
    ensures DefaultLb(e, proto).Some? ==>
            ExternalKeys(e, ips[..i + 1], proto, port) ==
            ExternalKeys(e, ips[..i], proto, port) + {Vip(DefaultLb(e, proto).value, ips[i], port)}
  {
  }

  lemma WriteTwice(t: Table, a: set<Vip>, b: set<Vip>, ips: seq<string>, port: nat)
    ensures Write(Write(t, a, ips, port), b, ips, port) == Write(t, a + b, ips, port)
  {
  }

  class Balancers {
    var vips: Table

    constructor ()
      ensures vips == map[]
    {
      vips := map[];
    }

    /** createLoadBalancerVIP. */
    method CreateVIP(lb: string, ip: string, port: nat, ips: seq<string>, targetPort: nat)
      modifies this
      ensures vips == Write(old(vips), {Vip(lb, ip, port)}, ips, targetPort)
      ensures ips != [] ==> Vip(lb, ip, port) in vips && Lists(vips[Vip(lb, ip, port)], ips, targetPort)
    {
      if |ips| == 0 {
        vips := vips - {Vip(lb, ip, port)};
        return;
      }
      var text := TargetsText(ips, targetPort);
      vips := vips[Vip(lb, ip, port) := text];
    }

    method CreateGatewayVIP(lb: Option<string>, ip: string, port: nat, ips: seq<string>, targetPort: nat,
                            ghost before: Table, ghost keys: set<Vip>)
      requires vips == Write(before, keys, ips, targetPort)
      modifies this
      ensures vips == Write(before, if lb.Some? then keys + {Vip(lb.value, ip, port)} else keys, ips, targetPort)
    {
      if lb.Some? {
        WriteTwice(before, keys, {Vip(lb.value, ip, port)}, ips, targetPort);
        CreateVIP(lb.value, ip, port, ips, targetPort);
      }
    }

    /** createGatewaysVIP: every gateway that has a load balancer for the protocol. */
    method CreateGatewaysVIP(gs: seq<Gateway>, proto: Proto, port: nat, ips: seq<string>, targetPort: nat)
      modifies this
      ensures vips == Write(old(vips), GatewayKeys(gs, proto, port), ips, targetPort)
    {
      var i := 0;
      ghost var before, keys := vips, GatewayKeys(gs[..0], proto, port);
      NoGateways(gs, proto, port, vips, ips, targetPort);
      while i < |gs|
        invariant 0 <= i <= |gs| && keys == GatewayKeys(gs[..i], proto, port)
        invariant vips == Write(before, keys, ips, targetPort)
      {
        NextGateway(gs, i, proto, port);
        CreateGatewayVIP(GatewayLb(gs[i], proto), gs[i].ip, port, ips, targetPort, before, keys);
        keys := GatewayKeys(gs[..i + 1], proto, port);
        i := i + 1;
      }
      assert gs[..i] == gs;
    }

    /** handleExternalIPs. */
    method HandleExternalIPs(e: Lbs, externalIPs: seq<string>, proto: Proto, port: nat, ips: seq<string>,
                             targetPort: nat)
      modifies this
      ensures vips == Write(old(vips), ExternalKeys(e, externalIPs, proto, port), ips, targetPort)
    {
      var i := 0;
      ghost var before, keys := vips, ExternalKeys(e, externalIPs[..0], proto, port);
      assert keys == {} && Write(vips, {}, ips, targetPort) == vips;
      while i < |externalIPs|
        invariant 0 <= i <= |externalIPs| && keys == ExternalKeys(e, externalIPs[..i], proto, port)
        invariant vips == Write(before, keys, ips, targetPort)
      {
        NextExternal(e, externalIPs, i, proto, port);
        CreateGatewayVIP(DefaultLb(e, proto), externalIPs[i], port, ips, targetPort, before, keys);
        keys := ExternalKeys(e, externalIPs[..i + 1], proto, port);
        i := i + 1;
      }
      assert externalIPs[..i] == externalIPs;
    }

    /** The body of AddEndpoints' loops for one matching service port. */
    method WritePort(e: Lbs, s: Service, p: SvcPort, ips: seq<string>, targetPort: nat)
      modifies this
      ensures vips == Write(old(vips), Keys(e, s, p), ips, targetPort)
    {
      var g := if s.type_ == NodePortType && e.nodePortEnable then GatewayKeys(e.gateways, p.proto, p.nodePort) else {};
      assert Write(vips, {}, ips, targetPort) == vips;
      if s.type_ == NodePortType && e.nodePortEnable {
        CreateGatewaysVIP(e.gateways, p.proto, p.nodePort, ips, targetPort);
      }
      if s.type_ != OtherType {
        var lb := ClusterLb(e, p.proto);
        if lb.Some? {
          var key := Vip(lb.value, s.clusterIP, p.port);
          WriteTwice(old(vips), g, {key}, ips, targetPort);
          WriteTwice(old(vips), g + {key}, ExternalKeys(e, s.externalIPs, p.proto, p.port), ips, targetPort);
          CreateVIP(lb.value, s.clusterIP, p.port, ips, targetPort);
          HandleExternalIPs(e, s.externalIPs, p.proto, p.port, ips, targetPort);
          assert g + {key} + ExternalKeys(e, s.externalIPs, p.proto, p.port) == Keys(e, s, p);
        }
      }
    }

    /** The loop over the service ports for one collected port name. */
    method WriteName(e: Lbs, s: Service, m: PortMaps, proto: Proto, name: string, ghost before: Table,
                     ghost done: set<SvcPort>)
      requires proto != Other && name in MapOf(m, proto) && MapsOk(m) && PortsDiffer(e, s)
      requires Assigned(e, s, m, before, vips, done) && forall p | p in done :: p in s.ports
      modifies this
      ensures Assigned(e, s, m, before, vips, done + Named(s.ports, proto, name))
    {
      var eps := MapOf(m, proto)[name];
      var i := 0;
      ghost var all := done;
      while i < |s.ports|
        invariant 0 <= i <= |s.ports| && all == done + Named(s.ports[..i], proto, name)
        invariant Assigned(e, s, m, before, vips, all) && forall p | p in all :: p in s.ports
      {
        NextNamed(s.ports, i, proto, name);
        if s.ports[i].proto == proto && s.ports[i].name == name {
          AssignOne(e, s, m, before, vips, all, s.ports[i]);
          WritePort(e, s, s.ports[i], eps.ips, eps.port);
          all := all + {s.ports[i]};
        }
        i := i + 1;
      }
      assert s.ports[..i] == s.ports;
    }

    /** One of the two loops over the collected port names, in any order. */
    method WriteProto(e: Lbs, s: Service, m: PortMaps, proto: Proto, ghost before: Table, ghost done: set<SvcPort>)
      requires proto != Other && MapsOk(m) && PortsDiffer(e, s)
      requires Assigned(e, s, m, before, vips, done) && forall p | p in done :: p in s.ports
      modifies this
      ensures Assigned(e, s, m, before, vips, done + Collected(s.ports, m, proto))
    {
      var left := MapOf(m, proto).Keys;
      ghost var all := done;
      while left != {}
        invariant left <= MapOf(m, proto).Keys && forall p | p in all :: p in s.ports
        invariant all == done + set p | p in s.ports && p.proto == proto && p.name in MapOf(m, proto) && p.name !in left
        invariant Assigned(e, s, m, before, vips, all)
        decreases |left|
      {
        var name :| name in left;
        WriteName(e, s, m, proto, name, before, all);
        all := all + Named(s.ports, proto, name);
        left := left - {name};
      }
      assert all == done + Collected(s.ports, m, proto);
    }

    /** AddEndpoints for an existing service with a cluster IP. */
    method AddEndpoints(e: Lbs, s: Service, subsets: seq<Subset>) returns (panicked: bool)
      requires PortsDiffer(e, s)
      modifies this
      ensures panicked <==> Collect(NoPorts, Visits(subsets)).None?
      ensures panicked ==> vips == old(vips)
      ensures !panicked ==> Assigned(e, s, Collect(NoPorts, Visits(subsets)).value, old(vips), vips,
                                     WithEndpoints(s, Collect(NoPorts, Visits(subsets)).value))
      ensures !panicked ==> Served(e, s, subsets, old(vips), vips)
    {
      var maps := CollectEndpoints(subsets);
      if maps.None? {
        return true;
      }
      CollectNonEmpty(NoPorts, Visits(subsets));
      ghost var before := vips;
      WriteProto(e, s, maps.value, TCP, before, {});
      WriteProto(e, s, maps.value, UDP, before, {} + Collected(s.ports, maps.value, TCP));
      assert {} + Collected(s.ports, maps.value, TCP) + Collected(s.ports, maps.value, UDP)
          == WithEndpoints(s, maps.value);
      AssignedServes(e, s, subsets, maps.value, before, vips);
      return false;
    }

    /** deleteService: every port's VIPs are removed; a missing cluster load balancer ends it. */
    method DeleteService(e: Lbs, s: Service)
      modifies this
      ensures vips == old(vips) - Deleted(e, s, 0)
      ensures forall v :: v in vips <==> v in old(vips) && !Withdrawn(e, s, v)
    {
      forall v ensures v in Deleted(e, s, 0) <==> Withdrawn(e, s, v) {
        DeletedIsWithdrawn(e, s, v);
      }
      ghost var target := old(vips) - Deleted(e, s, 0);
      var i := 0;
      while i < |s.ports|
        invariant 0 <= i <= |s.ports| && vips - Deleted(e, s, i) == target
      {
        var p := s.ports[i];
        if UsedPort(s, p) != 0 {
          ghost var now := vips;
          var proto := if p.proto == Other then TCP else p.proto;
          if s.type_ == NodePortType && e.nodePortEnable {
            CreateGatewaysVIP(e.gateways, proto, p.nodePort, [], 0);
          }
          assert vips == now - DeletedGateways(e, s, p);
          if s.type_ != OtherType {
            var lb := ClusterLb(e, proto);
            if lb.None? {
              return;
            }
            CreateVIP(lb.value, s.clusterIP, p.port, [], 0);
            HandleExternalIPs(e, s.externalIPs, p.proto, p.port, [], 0);
            assert vips == now - DeletedGateways(e, s,
                                                 p) - {Vip(lb.value, s.clusterIP,
                                                           p.port)} - ExternalKeys(e, s.externalIPs, p.proto, p.port);
          }
          DeleteNext(e, s, i, now);
        }
        i := i + 1;
      }
    }
  }

  // ------------------------------------------------------- the service ports written

  function MapOf(m: PortMaps, proto: Proto): map<string, LbEndpoints> { if proto == TCP then m.tcp else m.udp }

  ghost predicate MapsOk(m: PortMaps) {
    (forall n | n in m.tcp :: m.tcp[n].ips != []) && (forall n | n in m.udp :: m.udp[n].ips != [])
  }

  lemma {:induction false} CollectNonEmpty(m: PortMaps, vs: seq<Visit>)
    requires MapsOk(m) && Collect(m, vs).Some?
    ensures MapsOk(Collect(m, vs).value)
    decreases |vs|
  {
    if vs != [] {
      if vs[0].port.proto == TCP {
        CollectNonEmpty(m.(tcp := Append(m.tcp, vs[0])), vs[1..]);
      } else if vs[0].port.proto == UDP {
        CollectNonEmpty(m.(udp := Append(m.udp, vs[0])), vs[1..]);
      }
    }
  }

  /** Different ports of the service have different VIPs. */
  ghost predicate PortsDiffer(e: Lbs, s: Service) {
    forall p, q | p in s.ports && q in s.ports && p != q :: Keys(e, s, p) !! Keys(e, s, q)
  }

  function Named(ports: seq<SvcPort>, proto: Proto, name: string): set<SvcPort> {
    set p | p in ports && p.proto == proto && p.name == name
  }

  lemma NextNamed(ports: seq<SvcPort>, i: nat, proto: Proto, name: string)
    requires i < |ports|
    ensures if ports[i].proto == proto && ports[i].name == name
            then Named(ports[..i + 1], proto, name) == Named(ports[..i], proto, name) + {ports[i]}
            else Named(ports[..i + 1], proto, name) == Named(ports[..i], proto, name)
  {
  }

  function Collected(ports: seq<SvcPort>, m: PortMaps, proto: Proto): set<SvcPort> {
    set p | p in ports && p.proto == proto && p.name in MapOf(m, proto)
  }

  /** The TCP and UDP ports of the service that have endpoints. */
  function WithEndpoints(s: Service, m: PortMaps): set<SvcPort> {
    set p | p in s.ports && p.proto != Other && p.name in MapOf(m, p.proto)
  }

  function AllKeys(e: Lbs, s: Service, ps: set<SvcPort>): set<Vip> { set p, k | p in ps && k in Keys(e, s, p) :: k }

  /** The VIPs of the ports in `done` hold exactly those ports' endpoints, and nothing else
      changed. */
  ghost predicate Assigned(e: Lbs, s: Service, m: PortMaps, before: Table, now: Table, done: set<SvcPort>) {
    && (forall p | p in done :: PortWritten(e, s, m, now, p))
    && (forall k | k !in AllKeys(e, s, done) :: SameAt(before, now, k))
  }

  ghost predicate PortWritten(e: Lbs, s: Service, m: PortMaps, now: Table, p: SvcPort) {
    && p.name in MapOf(m, p.proto)
    && forall k | k in Keys(e, s, p) ::
         && k in now && now[k] == Targets(MapOf(m, p.proto)[p.name].ips, MapOf(m, p.proto)[p.name].port)
         && Lists(now[k], MapOf(m, p.proto)[p.name].ips, MapOf(m, p.proto)[p.name].port)
  }

  /** What AddEndpoints is for: each place a port of the service is to be reached at lists exactly the
      addresses of the subsets with a port of that protocol and name, each with the number that port
      has last, and no other VIP changes. */
  ghost predicate Served(e: Lbs, s: Service, subsets: seq<Subset>, before: Table, now: Table) {
    && (forall p, v | p in s.ports && IsVip(e, s, p, v) && IpsOf(Visits(subsets), p.proto, p.name) != [] ::
          Reaches(now, v, IpsOf(Visits(subsets), p.proto, p.name), LastNumber(subsets, p.proto, p.name)))
    && (forall v | !IsServed(e, s, subsets, v) :: SameAt(before, now, v))
  }

  ghost predicate IsServed(e: Lbs, s: Service, subsets: seq<Subset>, v: Vip) {
    exists p | p in s.ports :: IsVip(e, s, p, v) && IpsOf(Visits(subsets), p.proto, p.name) != []
  }

  ghost predicate Reaches(now: Table, v: Vip, ips: seq<string>, port: Option<nat>) {
    v in now && port.Some? && Lists(now[v], ips, port.value)
  }

  lemma CollectedIs(subsets: seq<Subset>, m: PortMaps, p: SvcPort)
    requires Collect(NoPorts, Visits(subsets)) == Some(m) && MapsOk(m) && p.proto != Other
    ensures p.name in MapOf(m, p.proto) <==> IpsOf(Visits(subsets), p.proto, p.name) != []
    ensures p.name in MapOf(m, p.proto) ==>
            var eps := MapOf(m, p.proto)[p.name];
            eps.ips == IpsOf(Visits(subsets), p.proto, p.name) && LastNumber(subsets, p.proto, p.name) == Some(eps.port)
  {
    CollectIps(NoPorts, Visits(subsets), p.proto, p.name);
    CollectNumber(NoPorts, Visits(subsets), p.proto, p.name);
    VisitsNumber(subsets, p.proto, p.name);
  }

  lemma AssignedServes(e: Lbs, s: Service, subsets: seq<Subset>, m: PortMaps, before: Table, now: Table)
    requires Collect(NoPorts, Visits(subsets)) == Some(m) && MapsOk(m)
    requires Assigned(e, s, m, before, now, WithEndpoints(s, m))
    ensures Served(e, s, subsets, before, now)
  {
    forall p, v | p in s.ports && IsVip(e, s, p, v) && IpsOf(Visits(subsets), p.proto, p.name) != []
      ensures Reaches(now, v, IpsOf(Visits(subsets), p.proto, p.name), LastNumber(subsets, p.proto, p.name))
    {
      CollectedIs(subsets, m, p);
      KeysAreVips(e, s, p, v);
      assert p in WithEndpoints(s, m) && PortWritten(e, s, m, now, p);
    }
    forall v | !IsServed(e, s, subsets, v) ensures SameAt(before, now, v) {
      if v in AllKeys(e, s, WithEndpoints(s, m)) {
        var p :| p in WithEndpoints(s, m) && v in Keys(e, s, p);
        CollectedIs(subsets, m, p);
        KeysAreVips(e, s, p, v);
        assert false;
      }
    }
  }

  predicate SameAt(before: Table, now: Table, k: Vip) {
    (k in now <==> k in before) && (k in before ==> now[k] == before[k])
  }

  lemma KeysGrow(e: Lbs, s: Service, done: set<SvcPort>, p: SvcPort, k: Vip)
    ensures k in AllKeys(e, s, done + {p}) <==> k in AllKeys(e, s, done) || k in Keys(e, s, p)
  {
  }

  lemma OthersStayWritten(e: Lbs, s: Service, m: PortMaps, now: Table, now': Table, p: SvcPort, q: SvcPort)
    requires PortWritten(e, s, m, now, q) && Keys(e, s, p) !! Keys(e, s, q)
             && forall k | k !in Keys(e, s, p) :: SameAt(now, now', k)
    ensures PortWritten(e, s, m, now', q)
  {
  }

  lemma WriteChanges(t: Table, keys: set<Vip>, ips: seq<string>, port: nat, k: Vip)
    requires ips != []
    ensures if k in keys then k in Write(t, keys, ips, port) && Write(t, keys, ips, port)[k] == Targets(ips, port)
            else SameAt(t, Write(t, keys, ips, port), k)
  {
  }

  lemma AssignOne(e: Lbs, s: Service, m: PortMaps, before: Table, now: Table, done: set<SvcPort>, p: SvcPort)
    requires Assigned(e, s, m, before, now, done) && PortsDiffer(e, s) && p in s.ports
             && (forall q | q in done :: q in s.ports)
    requires p.name in MapOf(m, p.proto) && MapsOk(m)
    ensures var eps := MapOf(m, p.proto)[p.name];
            Assigned(e, s, m, before, Write(now, Keys(e, s, p), eps.ips, eps.port), done + {p})
  {
    var eps, keys := MapOf(m, p.proto)[p.name], Keys(e, s, p);
    var now', more := Write(now, keys, eps.ips, eps.port), done + {p};
    forall k ensures if k in keys then k in now' && now'[k] == Targets(eps.ips, eps.port) else SameAt(now, now', k) {
      WriteChanges(now, keys, eps.ips, eps.port, k);
    }
    TargetsList(eps.ips, eps.port);
    forall q | q in more ensures PortWritten(e, s, m, now', q) {
      if q != p {
        OthersStayWritten(e, s, m, now, now', p, q);
      }
    }
    forall k | k !in AllKeys(e, s, more) ensures SameAt(before, now', k) {
      KeysGrow(e, s, done, p, k);
      assert SameAt(before, now, k) && SameAt(now, now', k);
    }
  }

  // ------------------------------------------------------- deleting the service

  function UsedPort(s: Service, p: SvcPort): nat { if s.type_ == NodePortType then p.nodePort else p.port }

  function DeletedGateways(e: Lbs, s: Service, p: SvcPort): set<Vip> {
    if s.type_ == NodePortType && e.nodePortEnable
    then GatewayKeys(e.gateways, if p.proto == Other then TCP else p.proto, p.nodePort) else {}
  }

  function DeletedCluster(e: Lbs, s: Service, p: SvcPort): set<Vip> {
    var lb := ClusterLb(e, if p.proto == Other then TCP else p.proto);
    if s.type_ == OtherType || lb.None? then {}
    else {Vip(lb.value, s.clusterIP, p.port)} + ExternalKeys(e, s.externalIPs, p.proto, p.port)
  }

  /** The VIPs deleteService removes from port i on. */
  function Deleted(e: Lbs, s: Service, i: nat): set<Vip>
    requires i <= |s.ports|
    decreases |s.ports| - i
  {
    if i == |s.ports| then {}
    else
      var p := s.ports[i];
      if UsedPort(s, p) == 0 then Deleted(e, s, i + 1)
      else if s.type_ != OtherType && ClusterLb(e, if p.proto == Other then TCP else p.proto).None?
           then DeletedGateways(e, s, p)
      else DeletedGateways(e, s, p) + DeletedCluster(e, s, p) + Deleted(e, s, i + 1)
  }

  lemma DeleteNext(e: Lbs, s: Service, i: nat, t: Table)
    requires i < |s.ports| && UsedPort(s, s.ports[i]) != 0
    requires s.type_ == OtherType || ClusterLb(e, if s.ports[i].proto == Other then TCP else s.ports[i].proto).Some?
    ensures t - DeletedGateways(e, s, s.ports[i]) - DeletedCluster(e, s, s.ports[i]) - Deleted(e, s, i + 1)
         == t - Deleted(e, s, i)
  {
  }

  /** What deleteService removes for one port it gets to. */
  function Removed(e: Lbs, s: Service, p: SvcPort): set<Vip> { DeletedGateways(e, s, p) + DeletedCluster(e, s, p) }

  lemma RemovedIsKeys(e: Lbs, s: Service, p: SvcPort)
    requires p.proto != Other
    ensures Removed(e, s, p) == Keys(e, s, p)
  {
  }

  /** The places deleteService closes for a port it gets to: those of the port, and for a protocol
      that is neither TCP nor UDP those of TCP except the external ones. */
  predicate IsClosed(e: Lbs, s: Service, p: SvcPort, v: Vip) {
    if p.proto != Other then IsVip(e, s, p, v) else IsVip(e, s.(externalIPs := []), p.(proto := TCP), v)
  }

  lemma RemovedAreVips(e: Lbs, s: Service, p: SvcPort, v: Vip)
    ensures v in Removed(e, s, p) <==> IsClosed(e, s, p, v)
  {
    if p.proto != Other {
      RemovedIsKeys(e, s, p);
      KeysAreVips(e, s, p, v);
    } else {
      GatewayKeysAre(e.gateways, TCP, p.nodePort, v);
    }
  }

  /** A port deleteService gets to has the VIP. */
  ghost predicate Withdrawn(e: Lbs, s: Service, v: Vip) {
    exists p | p in s.ports :: Reached(e, s, p) && IsClosed(e, s, p, v)
  }

  lemma DeletedIsWithdrawn(e: Lbs, s: Service, v: Vip)
    ensures v in Deleted(e, s, 0) <==> Withdrawn(e, s, v)
  {
    DeletedByPort(e, s, v);
    forall p ensures v in Removed(e, s, p) <==> IsClosed(e, s, p, v) {
      RemovedAreVips(e, s, p, v);
    }
  }

  /** The port asks for a cluster load balancer that is not there. */
  predicate Ends(e: Lbs, s: Service, p: SvcPort) {
    && UsedPort(s, p) != 0
    && s.type_ != OtherType && ClusterLb(e, if p.proto == Other then TCP else p.proto).None?
  }

  /** Starting at port i, deleteService gets to port j. */
  ghost predicate ReachedFrom(e: Lbs, s: Service, i: nat, j: nat) {
    && i <= j < |s.ports| && UsedPort(s, s.ports[j]) != 0
    && forall k | i <= k < j :: !Ends(e, s, s.ports[k])
  }

  /** The port has a nonzero port (node port, for a NodePort service), and no port before it asks
      for a cluster load balancer that is not there. */
  ghost predicate Reached(e: Lbs, s: Service, p: SvcPort) {
    exists j: nat :: ReachedFrom(e, s, 0, j) && s.ports[j] == p
  }

  ghost predicate RemovedFrom(e: Lbs, s: Service, i: nat, j: nat, v: Vip) {
    ReachedFrom(e, s, i, j) && v in Removed(e, s, s.ports[j])
  }

  /** deleteService removes the VIPs of the ports it gets to. */
  lemma {:induction false} DeletedIs(e: Lbs, s: Service, i: nat, v: Vip)
    requires i <= |s.ports|
    ensures v in Deleted(e, s, i) <==> exists j: nat :: RemovedFrom(e, s, i, j, v)
    decreases |s.ports| - i
  {
    if i < |s.ports| {
      var p, next := s.ports[i], i + 1;
      DeletedIs(e, s, next, v);
      if UsedPort(s, p) != 0 && v in Removed(e, s, p) {
        assert RemovedFrom(e, s, i, i, v);
      }
      if !Ends(e, s, p) {
        if j: nat :| RemovedFrom(e, s, next, j, v) {
          assert RemovedFrom(e, s, i, j, v);
        }
      }
      if j: nat :| RemovedFrom(e, s, i, j, v) {
        assert j > i ==> !Ends(e, s, p) && RemovedFrom(e, s, next, j, v);
      }
    }
  }

  lemma DeletedByPort(e: Lbs, s: Service, v: Vip)
    ensures v in Deleted(e, s, 0) <==> exists p | p in s.ports :: Reached(e, s, p) && v in Removed(e, s, p)
  {
    DeletedIs(e, s, 0, v);
    if j: nat :| RemovedFrom(e, s, 0, j, v) {
      assert s.ports[j] in s.ports && Reached(e, s, s.ports[j]);
    }
    if p :| p in s.ports && Reached(e, s, p) && v in Removed(e, s, p) {
      var j: nat :| ReachedFrom(e, s, 0, j) && s.ports[j] == p;
      assert RemovedFrom(e, s, 0, j, v);
    }
  }

  /** Adding endpoints and removing VIPs restores the tables exactly when all that was added is
      removed, and nothing removed was there before. */
  lemma RestoredWhen(e: Lbs, s: Service, m: PortMaps, before: Table, added: Table, d: set<Vip>)
    requires Assigned(e, s, m, before, added, WithEndpoints(s, m)) && AllKeys(e, s, WithEndpoints(s, m)) !! before.Keys
    ensures added - d == before <==> AllKeys(e, s, WithEndpoints(s, m)) <= d && d !! before.Keys
  {
    var w := AllKeys(e, s, WithEndpoints(s, m));
    forall k ensures k in added <==> k in before || k in w {
      if k in w {
        var p :| p in WithEndpoints(s, m) && k in Keys(e, s, p);
        assert PortWritten(e, s, m, added, p);
      } else {
        assert SameAt(before, added, k);
      }
    }
    forall k | k in before ensures added[k] == before[k] {
      assert SameAt(before, added, k);
    }
    if added - d == before {
      forall k | k in w ensures k in d {
        assert k in added && k !in before;
      }
      forall k | k in d ensures k !in before {
        assert k !in added - d;
      }
    }
  }

  /** The VIP is also that of a port deleteService gets to and reads as TCP, because its protocol
      is neither TCP nor UDP. */
  ghost predicate ReadAsTcp(e: Lbs, s: Service, v: Vip) {
    exists q | q in s.ports && q.proto == Other :: Reached(e, s, q) && v in Removed(e, s, q)
  }

  ghost predicate AllRemoved(e: Lbs, s: Service, m: PortMaps) {
    forall p | p in WithEndpoints(s, m) ::
      Reached(e, s, p) || forall v | v in Keys(e, s, p) :: ReadAsTcp(e, s, v)
  }

  ghost predicate OthersUntouched(e: Lbs, s: Service, m: PortMaps, before: Table) {
    forall q | q in s.ports && q !in WithEndpoints(s, m) && Reached(e, s, q) :: Removed(e, s, q) !! before.Keys
  }

  lemma AllRemovedMeans(e: Lbs, s: Service, m: PortMaps)
    requires PortsDiffer(e, s)
    ensures AllKeys(e, s, WithEndpoints(s, m)) <= Deleted(e, s, 0) <==> AllRemoved(e, s, m)
  {
    forall p, v | p in WithEndpoints(s, m) && v in Keys(e, s, p)
      ensures v in Deleted(e, s, 0) <==> Reached(e, s, p) || ReadAsTcp(e, s, v)
    {
      DeletedByPort(e, s, v);
      RemovedIsKeys(e, s, p);
      if q :| q in s.ports && Reached(e, s, q) && v in Removed(e, s, q) {
        if q.proto != Other {
          RemovedIsKeys(e, s, q);
        }
      }
    }
    if AllKeys(e, s, WithEndpoints(s, m)) <= Deleted(e, s, 0) {
      forall p | p in WithEndpoints(s, m) && !Reached(e, s, p)
        ensures forall v | v in Keys(e, s, p) :: ReadAsTcp(e, s, v)
      {
        forall v | v in Keys(e, s, p) ensures ReadAsTcp(e, s, v) {
          assert v in AllKeys(e, s, WithEndpoints(s, m));
        }
      }
    }
  }

  lemma UntouchedMeans(e: Lbs, s: Service, m: PortMaps, before: Table)
    requires AllKeys(e, s, WithEndpoints(s, m)) !! before.Keys
    ensures Deleted(e, s, 0) !! before.Keys <==> OthersUntouched(e, s, m, before)
  {
    if Deleted(e, s, 0) !! before.Keys {
      forall q, v | q in s.ports && Reached(e, s, q) && v in Removed(e, s, q) ensures v !in before {
        DeletedByPort(e, s, v);
      }
    }
    if OthersUntouched(e, s, m, before) {
      forall v | v in Deleted(e, s, 0) ensures v !in before {
        DeletedByPort(e, s, v);
        var q :| q in s.ports && Reached(e, s, q) && v in Removed(e, s, q);
        if q in WithEndpoints(s, m) {
          RemovedIsKeys(e, s, q);
          assert v in AllKeys(e, s, WithEndpoints(s, m));
        }
      }
    }
  }

  /** Adding a service's endpoints and then deleting the service restores the tables exactly when
      every port with endpoints is one deleteService gets to (or all its VIPs are those of such a
      port read as TCP), and no port without endpoints that it gets to had its VIPs there before. */
  lemma RoundTripExactly(e: Lbs, s: Service, m: PortMaps, before: Table, added: Table)
    requires PortsDiffer(e, s)
    requires Assigned(e, s, m, before, added, WithEndpoints(s, m)) && AllKeys(e, s, WithEndpoints(s, m)) !! before.Keys
    ensures added - Deleted(e, s, 0) == before <==> AllRemoved(e, s, m) && OthersUntouched(e, s, m, before)
  {
    RestoredWhen(e, s, m, before, added, Deleted(e, s, 0));
    AllRemovedMeans(e, s, m);
    UntouchedMeans(e, s, m, before);
  }

  /** When all ports are TCP or UDP and had no VIPs before: exactly when every port with endpoints
      and at least one VIP has a nonzero port and no port before it ends the deletion. */
  lemma PlainRoundTripExactly(e: Lbs, s: Service, m: PortMaps, before: Table, added: Table)
    requires PortsDiffer(e, s) && forall p | p in s.ports :: p.proto != Other && Keys(e, s, p) !! before.Keys
    requires Assigned(e, s, m, before, added, WithEndpoints(s, m))
    ensures added - Deleted(e, s, 0) == before
        <==> forall p | p in WithEndpoints(s, m) && Keys(e, s, p) != {} :: Reached(e, s, p)
  {
    RoundTripExactly(e, s, m, before, added);
    forall q | q in s.ports ensures Removed(e, s, q) !! before.Keys {
      RemovedIsKeys(e, s, q);
    }
    forall v ensures !ReadAsTcp(e, s, v) {
    }
    if AllRemoved(e, s, m) {
      forall p | p in WithEndpoints(s, m) && Keys(e, s, p) != {} ensures Reached(e, s, p) {
        var v :| v in Keys(e, s, p);
        assert !ReadAsTcp(e, s, v);
      }
    }
  }

  /** Service VIP round trip: with the cluster's TCP and UDP load balancers there and the ports of
      the service nonzero (node ports, for a NodePort service), deleting the service after adding
      its endpoints restores every table that had none of its VIPs. */
  lemma ServiceRoundTrip(e: Lbs, s: Service, m: PortMaps, before: Table, added: Table)
    requires Assigned(e, s, m, before, added, WithEndpoints(s, m)) && AllKeys(e, s, WithEndpoints(s, m)) !! before.Keys
    requires e.tcp.Some? && e.udp.Some? && Deleted(e, s, 0) !! before.Keys
    requires forall p | p in s.ports :: UsedPort(s, p) != 0
    ensures added - Deleted(e, s, 0) == before
  {
    forall k | k in AllKeys(e, s, WithEndpoints(s, m)) ensures k in Deleted(e, s, 0) {
      var p :| p in WithEndpoints(s, m) && k in Keys(e, s, p);
      var j: nat :| j < |s.ports| && s.ports[j] == p;
      assert ReachedFrom(e, s, 0, j) && Reached(e, s, p);
      RemovedIsKeys(e, s, p);
      DeletedByPort(e, s, k);
    }
    RestoredWhen(e, s, m, before, added, Deleted(e, s, 0));
  }

  lemma OneAssigned(e: Lbs, s: Service, m: PortMaps, p: SvcPort, eps: LbEndpoints, v: Vip)
    requires p.name in MapOf(m, p.proto) && MapOf(m, p.proto)[p.name] == eps && eps.ips != [] && Keys(e, s, p) == {v}
    ensures Assigned(e, s, m, map[], map[v := Targets(eps.ips, eps.port)], {p})
  {
    TargetsList(eps.ips, eps.port);
    assert AllKeys(e, s, {p}) == {v};
  }

  /** Without that it may fail: a NodePort service whose node port is 0 keeps its cluster VIP. */
  lemma ZeroNodePortStays() returns (e: Lbs, s: Service, m: PortMaps, added: Table)
    ensures s.type_ == NodePortType && |s.ports| == 1 && s.ports[0].nodePort == 0 && e.tcp.Some? && e.udp.Some?
    ensures PortsDiffer(e, s) && Assigned(e, s, m, map[], added, WithEndpoints(s, m))
    ensures added - Deleted(e, s, 0) == added != map[]
  {
    e := Lbs(Some("tcp"), Some("udp"), [], None, None, true);
    var p := SvcPort("web", TCP, 80, 0);
    s := Service(NodePortType, "10.96.0.10", [p], []);
    var eps, v := LbEndpoints(["10.128.0.5"], 8080), Vip("tcp", "10.96.0.10", 80);
    m := PortMaps(map["web" := eps], map[]);
    added := map[v := Targets(eps.ips, eps.port)];
    assert WithEndpoints(s, m) == {p} && Keys(e, s, p) == {v};
    OneAssigned(e, s, m, p, eps, v);
    assert Deleted(e, s, 1) == {};
  }

  /** Nor does it get to the ports behind a UDP port when there is no UDP load balancer. */
  lemma MissingBalancerStops() returns (e: Lbs, s: Service, m: PortMaps, added: Table)
    ensures e.tcp.Some? && e.udp.None? && |s.ports| == 2 && s.ports[0].proto == UDP && s.ports[1].proto == TCP
    ensures forall p | p in s.ports :: UsedPort(s, p) != 0
    ensures PortsDiffer(e, s) && Assigned(e, s, m, map[], added, WithEndpoints(s, m))
    ensures added - Deleted(e, s, 0) == added != map[]
  {
    e := Lbs(Some("tcp"), None, [], None, None, false);
    var p, q := SvcPort("dns", UDP, 53, 0), SvcPort("dns-tcp", TCP, 53, 0);
    s := Service(ClusterIPType, "10.96.0.10", [p, q], []);
    var eps, v := LbEndpoints(["10.128.0.5"], 53), Vip("tcp", "10.96.0.10", 53);
    m := PortMaps(map["dns-tcp" := eps], map[]);
    added := map[v := Targets(eps.ips, eps.port)];
    assert WithEndpoints(s, m) == {q} && Keys(e, s, q) == {v};
    OneAssigned(e, s, m, q, eps, v);
    assert Deleted(e, s, 0) == {};
  }
}
