/** The shared-gateway bridge (gateway_shared_intf.go): OpenFlow rules that send pod traffic out and
    commit its connections, and send traffic from the physical port to OVN or to the host, while
    NodePort services come and go. */
module SharedGateway {
  import opened Acl

  datatype Port = Patch | Phys | Host

  datatype Proto = Tcp | Udp

  datatype L4 = L4(proto: Proto, dst: nat)

  /** What a rule asks of a packet's headers: nothing, IP, or a transport protocol and port. */
  datatype Header = AnyHeader | IpHeader | L4Header(l4: L4)

  datatype CtMatch = AnyCt | Established | Related

  datatype Match = Match(inPort: Option<Port>, header: Header, ct: CtMatch)

  /** Output, commit the connection and output, or go through conntrack to table 1. */
  datatype Action = Output(port: Port) | CommitOutput(port: Port) | Track

  datatype Flow = Flow(table: nat, priority: nat, m: Match, action: Action)

  /** A packet's payload headers: IP with a TCP or UDP destination, other IP, or not IP. */
  datatype Payload = Transport(l4: L4) | OtherIp | NotIp

  /** `conn` names the connection in either direction, `relatedTo` one it belongs to (ICMP errors). */
  datatype Pkt = Pkt(inPort: Port, payload: Payload, conn: nat, relatedTo: Option<nat>)

  // ------------------------------------------------------- ovs-ofctl

  /** add-flow replaces a flow with the same table, priority and match. */
  function AddFlow(fs: set<Flow>, f: Flow): set<Flow> {
    (set g | g in fs && !(g.table == f.table && g.priority == f.priority && g.m == f.m)) + {f}
  }

  /** del-flows matches loosely: every flow at least as specific goes, in any table. */
  predicate AtLeast(m: Match, g: Match) {
    (m.inPort.Some? ==> g.inPort == m.inPort) && (m.header.L4Header? ==> g.header == m.header)
  }

  function DelFlows(fs: set<Flow>, m: Match): set<Flow> { set g | g in fs && !AtLeast(m, g.m) }

  // ------------------------------------------------------- evaluation

  predicate HeaderHolds(h: Header, p: Payload) {
    match h
    case AnyHeader => true
    case IpHeader => p != NotIp
    case L4Header(l4) => p == Transport(l4)
  }

  /** In table 1 the packet has been tracked. */
  predicate FlowMatches(f: Flow, table: nat, pkt: Pkt, committed: set<nat>) {
    && f.table == table && (f.m.inPort.Some? ==> f.m.inPort.value == pkt.inPort) && HeaderHolds(f.m.header, pkt.payload)
    && match f.m.ct
       case AnyCt => true
       case Established => table == 1 && pkt.conn in committed
       case Related => table == 1 && pkt.relatedTo.Some? && pkt.relatedTo.value in committed
  }

  ghost predicate Wins(fs: set<Flow>, table: nat, pkt: Pkt, committed: set<nat>, f: Flow) {
    && f in fs && FlowMatches(f, table, pkt, committed)
    && forall g | g in fs && FlowMatches(g, table, pkt, committed) :: g.priority <= f.priority
  }

  /** The bridge may send the packet to the port. */
  ghost predicate Goes(fs: set<Flow>, pkt: Pkt, committed: set<nat>, out: Port) {
    exists f :: Wins(fs, 0, pkt, committed, f) &&
      match f.action
      case Output(p) => p == out
      case CommitOutput(p) => p == out
      case Track => exists g :: Wins(fs, 1, pkt, committed, g) && g.action == Output(out)
  }

  // ------------------------------------------------------- the rules

  const FromPods := Flow(0, 100, Match(Some(Patch), IpHeader, AnyCt), CommitOutput(Phys))
  const FromOutside := Flow(0, 50, Match(Some(Phys), IpHeader, AnyCt), Track)
  const ToPodEst := Flow(1, 100, Match(None, AnyHeader, Established), Output(Patch))
  const ToPodRel := Flow(1, 100, Match(None, AnyHeader, Related), Output(Patch))
  const ToHost := Flow(1, 0, Match(None, AnyHeader, AnyCt), Output(Host))

  function Defaults(): set<Flow> { {FromPods, FromOutside, ToPodEst, ToPodRel, ToHost} }

  function NodeMatch(k: L4): Match { Match(Some(Phys), L4Header(k), AnyCt) }

  function NodeFlow(k: L4): Flow { Flow(0, 100, NodeMatch(k), Output(Patch)) }

  /** The bridge's rules when NodePorts `ks` are open. */
  ghost predicate Holds(fs: set<Flow>, ks: set<L4>) {
    forall f :: f in fs <==> f in Defaults() || exists k | k in ks :: f == NodeFlow(k)
  }

  lemma AddNodeFlow(fs: set<Flow>, ks: set<L4>, k: L4)
    requires Holds(fs, ks)
    ensures Holds(AddFlow(fs, NodeFlow(k)), ks + {k})
  {
  }

  lemma DelNodeFlow(fs: set<Flow>, ks: set<L4>, k: L4)
    requires Holds(fs, ks)
    ensures Holds(DelFlows(fs, NodeMatch(k)), ks - {k})
  {
  }

  // ------------------------------------------------------- what the rules mean

  predicate Tracked(pkt: Pkt, committed: set<nat>) {
    pkt.conn in committed || (pkt.relatedTo.Some? && pkt.relatedTo.value in committed)
  }

  predicate ToNodePort(pkt: Pkt, ks: set<L4>) { pkt.payload.Transport? && pkt.payload.l4 in ks }

  /** No two rules of equal priority that match a packet disagree. */
  lemma NoConflict(fs: set<Flow>, ks: set<L4>, table: nat, pkt: Pkt, committed: set<nat>, f: Flow, g: Flow)
    requires Holds(fs, ks) && f in fs && g in fs && f.priority == g.priority
    requires FlowMatches(f, table, pkt, committed) && FlowMatches(g, table, pkt, committed)
    ensures f.action == g.action
  {
  }

  lemma Table1(fs: set<Flow>, ks: set<L4>, pkt: Pkt, committed: set<nat>, g: Flow)
    requires Holds(fs, ks) && Wins(fs, 1, pkt, committed, g)
    ensures g.action == Output(if Tracked(pkt, committed) then Patch else Host)
  {
  }

  lemma Table1Decides(fs: set<Flow>, ks: set<L4>, pkt: Pkt, committed: set<nat>) returns (g: Flow)
    requires Holds(fs, ks)
    ensures Wins(fs, 1, pkt, committed, g)
  {
    g := if pkt.conn in committed then ToPodEst else if Tracked(pkt, committed) then ToPodRel else ToHost;
    assert ToPodEst in fs && ToPodRel in fs && ToHost in fs;
  }

  lemma Table0(fs: set<Flow>, ks: set<L4>, pkt: Pkt, committed: set<nat>, f: Flow)
    requires Holds(fs, ks) && pkt.inPort == Phys && pkt.payload != NotIp && Wins(fs, 0, pkt, committed, f)
    ensures f.action == if ToNodePort(pkt, ks) then Output(Patch) else Track
  {
    assert FromOutside in fs;
    if ToNodePort(pkt, ks) {
      assert NodeFlow(pkt.payload.l4) in fs;
    }
    assert FlowMatches(FromOutside, 0, pkt, committed);
  }

  lemma Table0Decides(fs: set<Flow>, ks: set<L4>, pkt: Pkt, committed: set<nat>) returns (f: Flow)
    requires Holds(fs, ks) && pkt.inPort == Phys && pkt.payload != NotIp
    ensures Wins(fs, 0, pkt, committed, f)
  {
    f := if ToNodePort(pkt, ks) then NodeFlow(pkt.payload.l4) else FromOutside;
    assert FromOutside in fs;
  }

  /** An IP packet from the physical port goes to OVN exactly when it belongs or is related to a
      committed connection or targets an open NodePort, and otherwise to the host. */
  lemma OutsidePacket(fs: set<Flow>, ks: set<L4>, pkt: Pkt, committed: set<nat>, out: Port)
    requires Holds(fs, ks) && pkt.inPort == Phys && pkt.payload != NotIp
    ensures Goes(fs, pkt, committed, out)
        <==> out == if ToNodePort(pkt, ks) || Tracked(pkt, committed) then Patch else Host
  {
    if Goes(fs, pkt, committed, out) {
      var f :| Wins(fs, 0, pkt, committed, f) && match f.action
        case Output(p) => p == out
        case CommitOutput(p) => p == out
        case Track => exists g :: Wins(fs, 1, pkt, committed, g) && g.action == Output(out);
      Table0(fs, ks, pkt, committed, f);
      if f.action == Track {
        var g :| Wins(fs, 1, pkt, committed, g) && g.action == Output(out);
        Table1(fs, ks, pkt, committed, g);
      }
    }
    var f := Table0Decides(fs, ks, pkt, committed);
    Table0(fs, ks, pkt, committed, f);
    var g := Table1Decides(fs, ks, pkt, committed);
    Table1(fs, ks, pkt, committed, g);
  }

  /** Pod traffic leaves through the physical port and commits its connection. */
  lemma PodPacket(fs: set<Flow>, ks: set<L4>, pkt: Pkt, committed: set<nat>, f: Flow)
    requires Holds(fs, ks) && pkt.inPort == Patch && pkt.payload != NotIp
    ensures Wins(fs, 0, pkt, committed, f) <==> f == FromPods
  {
    assert FromPods in fs;
  }

  // ------------------------------------------------------- services

  datatype SvcProto = TcpPort | UdpPort | OtherPort

  datatype SvcPort = SvcPort(proto: SvcProto, nodePort: nat)

  datatype Service = Service(nodePortType: bool, ports: seq<SvcPort>)

  function KeyOf(p: SvcPort): L4
    requires p.proto != OtherPort
  {
    L4(if p.proto == TcpPort then Tcp else Udp, p.nodePort)
  }

  /** The service is to be reached from outside at this protocol and port. */
  predicate Opens(s: Service, k: L4) {
    && s.nodePortType
    && match k.proto
       case Tcp => SvcPort(TcpPort, k.dst) in s.ports
       case Udp => SvcPort(UdpPort, k.dst) in s.ports
  }

  function PortKeys(ports: seq<SvcPort>): set<L4> { set p | p in ports && p.proto != OtherPort :: KeyOf(p) }

  function Keys(s: Service): set<L4> { if s.nodePortType then PortKeys(s.ports) else {} }

  /** The keys rules are written for are those of the service's own TCP and UDP ports. */
  lemma KeysOpen(s: Service, k: L4)
    ensures k in Keys(s) <==> Opens(s, k)
  {
    var p := SvcPort(if k.proto == Tcp then TcpPort else UdpPort, k.dst);
    assert KeyOf(p) == k;
    if k in Keys(s) {
      var q :| q in s.ports && q.proto != OtherPort && KeyOf(q) == k;
      assert q == p;
    }
  }

  lemma AllKeysOpen(s: Service)
    ensures forall k :: k in Keys(s) <==> Opens(s, k)
  {
    forall k ensures k in Keys(s) <==> Opens(s, k) {
      KeysOpen(s, k);
    }
  }

  lemma PortKeysSnoc(ports: seq<SvcPort>, i: nat)
    requires i < |ports|
    ensures PortKeys(ports[..i + 1]) == PortKeys(ports[..i]) + if ports[i].proto == OtherPort then {}
                                                               else {KeyOf(ports[i])}
  {
  }

  /** The rules after addService or deleteService has gone through the ports. */
  function PortsAdded(fs: set<Flow>, ports: seq<SvcPort>): set<Flow> {
    if ports == [] then fs
    else
      var n := |ports| - 1;
      var before := PortsAdded(fs, ports[..n]);
      if ports[n].proto == OtherPort then before else AddFlow(before, NodeFlow(KeyOf(ports[n])))
  }

  function PortsDeleted(fs: set<Flow>, ports: seq<SvcPort>): set<Flow> {
    if ports == [] then fs
    else
      var n := |ports| - 1;
      var before := PortsDeleted(fs, ports[..n]);
      if ports[n].proto == OtherPort then before else DelFlows(before, NodeMatch(KeyOf(ports[n])))
  }

  function ServiceAdded(fs: set<Flow>, s: Service): set<Flow> { if s.nodePortType then PortsAdded(fs, s.ports) else fs }

  function ServiceDeleted(fs: set<Flow>, s: Service): set<Flow> {
    if s.nodePortType then PortsDeleted(fs, s.ports) else fs
  }

  lemma PortsNext(fs: set<Flow>, ports: seq<SvcPort>, i: nat)
    requires i < |ports|
    ensures PortsAdded(fs, ports[..i + 1]) == if ports[i].proto == OtherPort then PortsAdded(fs, ports[..i])
                                              else AddFlow(PortsAdded(fs, ports[..i]), NodeFlow(KeyOf(ports[i])))
    ensures PortsDeleted(fs, ports[..i + 1]) == if ports[i].proto == OtherPort then PortsDeleted(fs, ports[..i])
                                                else DelFlows(PortsDeleted(fs, ports[..i]), NodeMatch(KeyOf(ports[i])))
  {
    assert ports[..i + 1][..i] == ports[..i];
  }

  lemma {:induction false} PortsHold(fs: set<Flow>, ks: set<L4>, ports: seq<SvcPort>)
    requires Holds(fs, ks)
    ensures Holds(PortsAdded(fs, ports), ks + PortKeys(ports)) && Holds(PortsDeleted(fs, ports), ks - PortKeys(ports))
  {
    if ports == [] {
      assert ks + PortKeys(ports) == ks && ks - PortKeys(ports) == ks;
    } else {
      var n := |ports| - 1;
      PortsHold(fs, ks, ports[..n]);
      PortKeysSnoc(ports, n);
      assert ports[..n + 1] == ports;
      var before := PortKeys(ports[..n]);
      if ports[n].proto != OtherPort {
        var k := KeyOf(ports[n]);
        AddNodeFlow(PortsAdded(fs, ports[..n]), ks + before, k);
        DelNodeFlow(PortsDeleted(fs, ports[..n]), ks - before, k);
        assert ks + before + {k} == ks + PortKeys(ports) && ks - before - {k} == ks - PortKeys(ports);
      } else {
        assert PortKeys(ports) == before;
      }
    }
  }

  /** Adding a service opens, and deleting it closes, exactly its NodePorts. */
  lemma ServiceHolds(fs: set<Flow>, ks: set<L4>, s: Service)
    requires Holds(fs, ks)
    ensures Holds(ServiceAdded(fs, s), ks + Keys(s)) && Holds(ServiceDeleted(fs, s), ks - Keys(s))
  {
    PortsHold(fs, ks, s.ports);
    assert ks + {} == ks && ks - {} == ks;
  }

  class Bridge {
    var flows: set<Flow>
    /** The NodePorts with a rule. */
    ghost var open: set<L4>

    ghost predicate Ok()
      reads this
    {
      Holds(flows, open)
    }

    /** addDefaultConntrackRules on an empty bridge. */
    constructor ()
      ensures Ok() && open == {} && flows == Defaults()
    {
      new;
      flows := {};
      flows := AddFlow(flows, FromPods);
      flows := AddFlow(flows, FromOutside);
      flows := AddFlow(flows, ToPodEst);
      flows := AddFlow(flows, ToPodRel);
      flows := AddFlow(flows, ToHost);
      open := {};
      assert flows == Defaults();
    }

    /** addService: one rule per TCP or UDP port of a NodePort service. */
    method AddService(s: Service)
      requires Ok()
      modifies this
      ensures Ok() && open == old(open) + Keys(s) && flows == ServiceAdded(old(flows), s)
      ensures forall k :: k in open <==> k in old(open) || Opens(s, k)
    {
      AllKeysOpen(s);
      ServiceHolds(flows, open, s);
      open := open + Keys(s);
      if !s.nodePortType {
        return;
      }
      var i := 0;
      while i < |s.ports|
        invariant 0 <= i <= |s.ports| && open == old(open) + Keys(s) && flows == PortsAdded(old(flows), s.ports[..i])
      {
        PortsNext(old(flows), s.ports, i);
        if s.ports[i].proto != OtherPort {
          flows := AddFlow(flows, NodeFlow(KeyOf(s.ports[i])));
        }
        i := i + 1;
      }
      assert s.ports[..i] == s.ports;
    }

    /** deleteService: the loose delete takes exactly the service's rules. */
    method DeleteService(s: Service)
      requires Ok()
      modifies this
      ensures Ok() && open == old(open) - Keys(s) && flows == ServiceDeleted(old(flows), s)
      ensures forall k :: k in open <==> k in old(open) && !Opens(s, k)
    {
      AllKeysOpen(s);
      ServiceHolds(flows, open, s);
      open := open - Keys(s);
      if !s.nodePortType {
        return;
      }
      var i := 0;
      while i < |s.ports|
        invariant 0 <= i <= |s.ports| && open == old(open) - Keys(s) && flows == PortsDeleted(old(flows), s.ports[..i])
      {
        PortsNext(old(flows), s.ports, i);
        if s.ports[i].proto != OtherPort {
          flows := DelFlows(flows, NodeMatch(KeyOf(s.ports[i])));
        }
        i := i + 1;
      }
      assert s.ports[..i] == s.ports;
    }

    /** The keys syncServices expects: TCP and UDP ports of NodePort services, except port 0. */
    method ExpectedKeys(services: seq<Service>) returns (r: set<L4>)
      ensures forall k :: k in r <==> k.dst != 0 && exists s | s in services :: Opens(s, k)
    {
      r := {};
      var i := 0;
      while i < |services|
        invariant 0 <= i <= |services|
                  && forall k :: k in r <==> k.dst != 0 && exists s | s in services[..i] :: Opens(s, k)
      {
        var s := services[i];
        assert services[..i + 1] == services[..i] + [s];
        ghost var before := r;
        if s.nodePortType && |s.ports| > 0 {
          var j := 0;
          while j < |s.ports|
            invariant 0 <= j <= |s.ports|
                      && forall k :: k in r <==> k in before || (k.dst != 0 && k in PortKeys(s.ports[..j]))
          {
            PortKeysSnoc(s.ports, j);
            if s.ports[j].nodePort != 0 && s.ports[j].proto != OtherPort {
              r := r + {KeyOf(s.ports[j])};
            }
            j := j + 1;
          }
          assert s.ports[..j] == s.ports;
        }
        AllKeysOpen(s);
        assert forall k :: k in r <==> k in before || (k.dst != 0 && Opens(s, k));
        i := i + 1;
      }
      assert services[..i] == services;
    }

    /** syncServices: rules of NodePorts no listed service has are removed, and no others. */
    method SyncServices(services: seq<Service>)
      requires Ok()
      modifies this
      ensures Ok() && open <= old(open)
      ensures forall k :: k in open <==> k in old(open) && k.dst != 0 && exists s | s in services :: Opens(s, k)
    {
      var expected := ExpectedKeys(services);
      var dump := flows;
      ghost var done: set<Flow> := {};
      ghost var all := flows;
      while dump != {}
        invariant done + dump == all && done !! dump && Ok() && open <= old(open) && all == old(flows)
        invariant forall k :: k in open <==> k in old(open) && (k in expected || NodeFlow(k) in dump)
        decreases |dump|
      {
        var f :| f in dump;
        if f.m.header.L4Header? && f.m.header.l4 !in expected {
          DelNodeFlow(flows, open, f.m.header.l4);
          flows := DelFlows(flows, NodeMatch(f.m.header.l4));
          open := open - {f.m.header.l4};
        }
        dump := dump - {f};
        done := done + {f};
      }
    }
  }

  // ------------------------------------------------------- whole runs

  /** A packet arrives at the bridge, or a service comes or goes. */
  datatype Event = Arrives(pkt: Pkt) | ServiceAdd(id: nat, svc: Service) | ServiceDelete(id: nat)

  /** The rules, the connections conntrack has committed, and the services. */
  datatype Gateway = Gateway(flows: set<Flow>, committed: set<nat>, live: map<nat, Service>)

  /** The rule the packet meets commits its connection. */
  ghost predicate Commits(g: Gateway, pkt: Pkt) {
    exists f :: Wins(g.flows, 0, pkt, g.committed, f) && f.action.CommitOutput?
  }

  ghost function Step(g: Gateway, ev: Event): Gateway {
    match ev
    case Arrives(pkt) => if Commits(g, pkt) then g.(committed := g.committed + {pkt.conn}) else g
    case ServiceAdd(id, svc) => g.(flows := ServiceAdded(g.flows, svc), live := g.live[id := svc])
    case ServiceDelete(id) =>
      if id in g.live then g.(flows := ServiceDeleted(g.flows, g.live[id]), live := g.live - {id}) else g
  }

  /** The gateway after a run that starts with the default rules. */
  ghost function Run(evs: seq<Event>): Gateway {
    if evs == [] then Gateway(Defaults(), {}, map[]) else Step(Run(evs[..|evs| - 1]), evs[|evs| - 1])
  }

  lemma RunNext(evs: seq<Event>, i: nat)
    requires i < |evs|
    ensures Run(evs[..i + 1]) == Step(Run(evs[..i]), evs[i])
  {
    assert evs[..i + 1][..i] == evs[..i];
  }

  function LiveKeys(live: map<nat, Service>): set<L4> { set id, k | id in live && k in Keys(live[id]) :: k }

  /** The service shares no NodePort with another one. */
  ghost predicate Unshared(live: map<nat, Service>, id: nat, svc: Service) {
    forall j | j in live && j != id :: Keys(live[j]) !! Keys(svc)
  }

  /** Deleting a service leaves exactly the other services' NodePorts open if and only if it
      shares none with them. */
  lemma DeleteExact(live: map<nat, Service>, id: nat)
    requires id in live
    ensures LiveKeys(live) - Keys(live[id]) == LiveKeys(live - {id}) <==> Unshared(live, id, live[id])
  {
    var rest := live - {id};
    if Unshared(live, id, live[id]) {
      forall k ensures k in LiveKeys(live) - Keys(live[id]) <==> k in LiveKeys(rest) {
        if k in LiveKeys(rest) {
          var j :| j in rest && k in Keys(rest[j]);
          assert j in live && Keys(live[j]) !! Keys(live[id]);
        }
        if k in LiveKeys(live) - Keys(live[id]) {
          var j :| j in live && k in Keys(live[j]);
          assert j in rest && rest[j] == live[j];
        }
      }
    } else {
      var j :| j in live && j != id && !(Keys(live[j]) !! Keys(live[id]));
      var k :| k in Keys(live[j]) && k in Keys(live[id]);
      assert j in rest && k in LiveKeys(rest) && k !in LiveKeys(live) - Keys(live[id]);
    }
  }

  lemma AddExact(live: map<nat, Service>, id: nat, svc: Service)
    requires id !in live
    ensures LiveKeys(live) + Keys(svc) == LiveKeys(live[id := svc])
  {
    var live' := live[id := svc];
    forall k | k in LiveKeys(live) ensures k in LiveKeys(live') {
      var j :| j in live && k in Keys(live[j]);
      assert j in live' && live'[j] == live[j];
    }
    forall k | k in Keys(svc) ensures k in LiveKeys(live') {
      assert id in live';
    }
    forall k | k in LiveKeys(live') ensures k in LiveKeys(live) || k in Keys(svc) {
      var j :| j in live' && k in Keys(live'[j]);
      assert j != id ==> j in live && live[j] == live'[j];
    }
  }

  ghost predicate LegalEvent(live: map<nat, Service>, ev: Event) {
    match ev
    case Arrives(_) => true
    case ServiceAdd(id, svc) => id !in live && Unshared(live, id, svc)
    case ServiceDelete(id) => id in live
  }

  /** Services are added once and never share a NodePort, as the API server sees to. */
  ghost predicate LegalEvents(evs: seq<Event>) {
    forall i | 0 <= i < |evs| :: LegalEvent(Run(evs[..i]).live, evs[i])
  }

  lemma LegalPrefix(evs: seq<Event>, i: nat)
    requires LegalEvents(evs) && i <= |evs|
    ensures LegalEvents(evs[..i])
  {
    forall j | 0 <= j < i ensures LegalEvent(Run(evs[..i][..j]).live, evs[..i][j]) {
      assert evs[..i][..j] == evs[..j];
    }
  }

  ghost predicate NothingShared(live: map<nat, Service>) {
    forall i, j | i in live && j in live && i != j :: Keys(live[i]) !! Keys(live[j])
  }

  /** The rules are the default ones and one for each live NodePort. */
  ghost predicate Ready(g: Gateway) { Holds(g.flows, LiveKeys(g.live)) && NothingShared(g.live) }

  lemma StepReady(g: Gateway, ev: Event)
    requires Ready(g) && LegalEvent(g.live, ev)
    ensures Ready(Step(g, ev))
  {
    match ev
    case Arrives(_) =>
    case ServiceAdd(id, svc) =>
      ServiceHolds(g.flows, LiveKeys(g.live), svc);
      AddExact(g.live, id, svc);
    case ServiceDelete(id) =>
      ServiceHolds(g.flows, LiveKeys(g.live), g.live[id]);
      DeleteExact(g.live, id);
  }

  lemma {:induction false} RunReady(evs: seq<Event>)
    requires LegalEvents(evs)
    ensures Ready(Run(evs))
  {
    if evs == [] {
      assert LiveKeys(Run(evs).live) == {};
    } else {
      var n := |evs| - 1;
      LegalPrefix(evs, n);
      RunReady(evs[..n]);
      assert LegalEvent(Run(evs[..n]).live, evs[n]);
      StepReady(Run(evs[..n]), evs[n]);
    }
  }

  /** The bridge after a run of packets arriving and services coming and going in any order. */
  method RunServices(evs: seq<Event>) returns (b: Bridge)
    requires LegalEvents(evs)
    ensures fresh(b) && b.Ok() && b.open == LiveKeys(Run(evs).live) && b.flows == Run(evs).flows
  {
    b := new Bridge();
    var live: map<nat, Service> := map[];
    assert LiveKeys(live) == {};
    var i := 0;
    while i < |evs|
      invariant 0 <= i <= |evs| && fresh(b) && b.Ok() && b.open == LiveKeys(live)
      invariant live == Run(evs[..i]).live && b.flows == Run(evs[..i]).flows
    {
      RunNext(evs, i);
      assert LegalEvent(live, evs[i]);
      match evs[i] {
        case Arrives(_) =>
        case ServiceAdd(id, svc) =>
          AddExact(live, id, svc);
          b.AddService(svc);
          live := live[id := svc];
        case ServiceDelete(id) =>
          LegalPrefix(evs, i);
          RunReady(evs[..i]);
          DeleteExact(live, id);
          b.DeleteService(live[id]);
          live := live - {id};
      }
      i := i + 1;
    }
    assert evs[..i] == evs;
  }

  // ------------------------------------------------------- the run as seen from outside

  /** A pod sent an IP packet on the connection. */
  predicate IsPodPacket(ev: Event, conn: nat) {
    ev.Arrives? && ev.pkt.inPort == Patch && ev.pkt.payload != NotIp && ev.pkt.conn == conn
  }

  ghost predicate PodSent(evs: seq<Event>, conn: nat) { exists ev | ev in evs :: IsPodPacket(ev, conn) }

  /** Service `id` was added as `svc` at step i and not deleted since. */
  ghost predicate AddedAt(evs: seq<Event>, i: nat, id: nat, svc: Service) {
    i < |evs| && evs[i] == ServiceAdd(id, svc) && forall j | i < j < |evs| :: evs[j] != ServiceDelete(id)
  }

  /** A service that was added and not deleted since has the NodePort. */
  ghost predicate LivePort(evs: seq<Event>, k: L4) {
    exists i: nat, id, svc :: AddedAt(evs, i, id, svc) && Opens(svc, k)
  }

  /** Only IP packets from pods commit. */
  lemma CommitsExactly(g: Gateway, ks: set<L4>, pkt: Pkt)
    requires Holds(g.flows, ks)
    ensures Commits(g, pkt) <==> pkt.inPort == Patch && pkt.payload != NotIp
  {
    if pkt.inPort == Patch && pkt.payload != NotIp {
      PodPacket(g.flows, ks, pkt, g.committed, FromPods);
    }
    if f :| Wins(g.flows, 0, pkt, g.committed, f) && f.action.CommitOutput? {
      assert f == FromPods;
    }
  }

  lemma CommitStep(g: Gateway, ev: Event, conn: nat)
    requires Ready(g)
    ensures conn in Step(g, ev).committed <==> conn in g.committed || IsPodPacket(ev, conn)
  {
    if ev.Arrives? {
      CommitsExactly(g, LiveKeys(g.live), ev.pkt);
    }
  }

  lemma PodSentSnoc(evs: seq<Event>, conn: nat)
    requires evs != []
    ensures PodSent(evs, conn) <==> PodSent(evs[..|evs| - 1], conn) || IsPodPacket(evs[|evs| - 1], conn)
  {
    assert evs == evs[..|evs| - 1] + [evs[|evs| - 1]];
  }

  lemma {:induction false} CommittedIs(evs: seq<Event>, conn: nat)
    requires LegalEvents(evs)
    ensures conn in Run(evs).committed <==> PodSent(evs, conn)
  {
    if evs != [] {
      var n := |evs| - 1;
      LegalPrefix(evs, n);
      CommittedIs(evs[..n], conn);
      RunReady(evs[..n]);
      CommitStep(Run(evs[..n]), evs[n], conn);
      PodSentSnoc(evs, conn);
    }
  }

  ghost predicate EverAdded(evs: seq<Event>, id: nat, svc: Service) { exists i: nat :: AddedAt(evs, i, id, svc) }

  lemma EverAddedSnoc(evs: seq<Event>, ev: Event, id: nat, svc: Service)
    ensures EverAdded(evs + [ev], id, svc)
        <==> ev == ServiceAdd(id, svc) || (EverAdded(evs, id, svc) && ev != ServiceDelete(id))
  {
    var all := evs + [ev];
    if i: nat :| AddedAt(all, i, id, svc) {
      if i < |evs| {
        assert all[|evs|] == ev;
        assert forall j | 0 <= j < |evs| :: all[j] == evs[j];
        assert AddedAt(evs, i, id, svc);
      }
    }
    if i: nat :| AddedAt(evs, i, id, svc) {
      assert ev != ServiceDelete(id) ==> AddedAt(all, i, id, svc);
    }
    if ev == ServiceAdd(id, svc) {
      assert AddedAt(all, |evs|, id, svc);
    }
  }

  predicate IsLive(g: Gateway, id: nat, svc: Service) { id in g.live && g.live[id] == svc }

  lemma LiveStep(g: Gateway, ev: Event, id: nat, svc: Service)
    requires LegalEvent(g.live, ev)
    ensures IsLive(Step(g, ev), id, svc)
        <==> ev == ServiceAdd(id, svc) || (IsLive(g, id, svc) && ev != ServiceDelete(id))
  {
  }

  lemma {:induction false} LiveIs(evs: seq<Event>, id: nat, svc: Service)
    requires LegalEvents(evs)
    ensures IsLive(Run(evs), id, svc) <==> EverAdded(evs, id, svc)
  {
    if evs != [] {
      var n := |evs| - 1;
      LegalPrefix(evs, n);
      LiveIs(evs[..n], id, svc);
      assert LegalEvent(Run(evs[..n]).live, evs[n]);
      LiveStep(Run(evs[..n]), evs[n], id, svc);
      assert evs == evs[..n] + [evs[n]];
      EverAddedSnoc(evs[..n], evs[n], id, svc);
    }
  }

  lemma LivePortIs(evs: seq<Event>, k: L4)
    requires LegalEvents(evs)
    ensures k in LiveKeys(Run(evs).live) <==> LivePort(evs, k)
  {
    var live := Run(evs).live;
    if k in LiveKeys(live) {
      var id :| id in live && k in Keys(live[id]);
      KeysOpen(live[id], k);
      LiveIs(evs, id, live[id]);
      assert IsLive(Run(evs), id, live[id]) && EverAdded(evs, id, live[id]);
    }
    if i: nat, id, svc :| AddedAt(evs, i, id, svc) && Opens(svc, k) {
      KeysOpen(svc, k);
      LiveIs(evs, id, svc);
      assert EverAdded(evs, id, svc) && IsLive(Run(evs), id, svc);
    }
  }

  /** A packet from pods goes out of the physical port. */
  lemma PodPacketGoes(fs: set<Flow>, ks: set<L4>, pkt: Pkt, committed: set<nat>, out: Port)
    requires Holds(fs, ks) && pkt.inPort == Patch && pkt.payload != NotIp
    ensures Goes(fs, pkt, committed, out) <==> out == Phys
  {
    PodPacket(fs, ks, pkt, committed, FromPods);
    forall f | Wins(fs, 0, pkt, committed, f) ensures f == FromPods {
      PodPacket(fs, ks, pkt, committed, f);
    }
  }

  /** No rule matches what is not IP, or comes from the host. */
  lemma OtherPacket(fs: set<Flow>, ks: set<L4>, pkt: Pkt, committed: set<nat>, out: Port)
    requires Holds(fs, ks) && (pkt.inPort == Host || pkt.payload == NotIp)
    ensures !Goes(fs, pkt, committed, out)
  {
  }

  /** What should become of a packet after these events. */
  ghost function Verdict(evs: seq<Event>, pkt: Pkt): Option<Port> {
    if pkt.inPort == Host || pkt.payload == NotIp then None
    else if pkt.inPort == Patch then Some(Phys)
    else if || PodSent(evs, pkt.conn)
            || (pkt.relatedTo.Some? && PodSent(evs, pkt.relatedTo.value))
            || (pkt.payload.Transport? && LivePort(evs, pkt.payload.l4)) then Some(Patch)
    else Some(Host)
  }

  /** The pipeline over every interleaving of packets and services coming and going: each packet
      that arrives meets the rules and connections the run has led to, and they send an IP packet
      from the physical port to OVN exactly when it belongs or is related to a connection on which
      a pod sent an IP packet before or targets a NodePort of a service added and not deleted
      since, else to the host, one from pods out of the physical port, and match nothing else. */
  lemma PipelineOverRuns(evs: seq<Event>, n: nat, out: Port)
    requires LegalEvents(evs) && n < |evs| && evs[n].Arrives?
    ensures Goes(Run(evs[..n]).flows, evs[n].pkt, Run(evs[..n]).committed, out)
        <==> Verdict(evs[..n], evs[n].pkt) == Some(out)
  {
    var before, pkt := evs[..n], evs[n].pkt;
    var g := Run(before);
    var ks := LiveKeys(g.live);
    LegalPrefix(evs, n);
    RunReady(before);
    if pkt.inPort == Host || pkt.payload == NotIp {
      OtherPacket(g.flows, ks, pkt, g.committed, out);
    } else if pkt.inPort == Patch {
      PodPacketGoes(g.flows, ks, pkt, g.committed, out);
    } else {
      OutsidePacket(g.flows, ks, pkt, g.committed, out);
      CommittedIs(before, pkt.conn);
      if pkt.relatedTo.Some? {
        CommittedIs(before, pkt.relatedTo.value);
      }
      if pkt.payload.Transport? {
        LivePortIs(before, pkt.payload.l4);
      }
    }
  }
}
