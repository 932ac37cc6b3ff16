/** The reference the compiled ACLs are compared with: which policies are live, which pods and
    peers they select, and what the NetworkPolicies then say about a packet. Nothing here knows
    about ACLs, hashed names, port groups or counters. */
module PolicyWorld {
  import opened Acl
  import opened Gress

  /** A peer of a rule. Its selectors decide which watch events reach the rule and appear here
      only as those events. */
  datatype Peer = Peer(ipBlock: Option<IPBlock>)

  datatype RuleSpec = RuleSpec(ports: seq<PortPolicy>, peers: seq<Peer>)

  datatype PolicySpec = PolicySpec(ns: string, name: string, types: seq<Direction>,
                                   ingress: seq<RuleSpec>, egress: seq<RuleSpec>)
  {
    function Key(): (string, string) { (ns, name) }

    function Rules(dir: Direction): seq<RuleSpec> { if dir == Ingress then ingress else egress }

    /** Whether selected pods get a default deny in this direction. */
    predicate Denies(dir: Direction) {
      var onlyEgress := |types| == 1 && types[0] == Egress;
      if dir == Ingress then !onlyEgress
      else onlyEgress || |egress| > 0 || |types| == 2
    }

    /** What the comments at localPodAddDefaultDeny ask for: ingress unless the types list egress
        only, egress when they list it or there is an egress section. */
    predicate Asks(dir: Direction) {
      if dir == Ingress then types == [] || Ingress in types else Egress in types || egress != []
    }

    predicate NoRepeats() { forall i, j | 0 <= i < j < |types| :: types[i] != types[j] }

    /** The directions in which selected pods are isolated: those asked for, and when the types
        repeat one another, ingress always and egress also when there are two of them. */
    predicate Isolates(dir: Direction) {
      if NoRepeats() then Asks(dir)
      else dir == Ingress || egress != [] || |types| == 2
    }
  }

  /** The tests of localPodAddDefaultDeny and localPodDelDefaultDeny isolate exactly these. */
  lemma DeniesExactly(spec: PolicySpec, dir: Direction)
    ensures spec.Denies(dir) <==> spec.Isolates(dir)
  {
    var types := spec.types;
    if |types| > 2 {
      assert types[0] == types[1] || types[0] == types[2] || types[1] == types[2];
      assert !spec.NoRepeats();
    } else if |types| == 2 {
      assert spec.NoRepeats() <==> types[0] != types[1];
      assert types[0] in types && types[1] in types;
    }
  }

  /** The code does what its comments ask for exactly when ingress is not missing from two or more
      types, and, without an egress section, egress is in two types and in no longer list. */
  lemma DeniesAsAsked(spec: PolicySpec)
    ensures (spec.Denies(Ingress) <==> spec.Asks(Ingress)) <==> (|spec.types| >= 2 ==> Ingress in spec.types)
    ensures (spec.Denies(Egress) <==> spec.Asks(Egress)) <==>
            spec.egress != []
            || ((|spec.types| == 2 ==> Egress in spec.types) && (|spec.types| > 2 ==> Egress !in spec.types))
  {
    var types := spec.types;
    if |types| >= 2 && Ingress !in types {
      assert types[0] in types && types[0] == Egress;
    }
  }

  /** A repeated type isolates the other direction too. */
  lemma RepeatedTypeIsolatesBoth(spec: PolicySpec, dir: Direction)
    requires spec.types == [dir, dir]
    ensures spec.Denies(Ingress) && spec.Denies(Egress)
    ensures spec.egress == [] ==> exists other :: other != dir && !spec.Asks(other)
  {
    var other := if dir == Ingress then Egress else Ingress;
    assert spec.egress == [] ==> !spec.Asks(other);
  }

  datatype RuleId = RuleId(dir: Direction, idx: nat)

  /** A rule with the namespaces its namespace selectors and the pod addresses its pod selectors
      have selected so far. */
  datatype WRule = WRule(spec: RuleSpec, namespaces: set<string>, podIps: set<Ip>)

  /** A policy object with the pods it selects and the node each of them runs on. */
  datatype Policy = Policy(spec: PolicySpec, rules: map<RuleId, WRule>, pods: map<string, string>)

  datatype Pod = Pod(ns: string, node: string)

  /** Policy objects carry numbers, so that a policy deleted and added again under its old name
      is a different object. */
  datatype World = World(policies: map<nat, Policy>, used: set<nat>,
                         alive: map<string, Pod>, nsPods: map<string, set<Ip>>)

  datatype Event =
    | PolicyAdd(id: nat, spec: PolicySpec)
    | RuleAdd(id: nat, rid: RuleId)
    | PolicyDelete(ns: string, name: string)
    | PeerNsAdd(id: nat, rid: RuleId, ns: string)
    | PeerNsDel(id: nat, rid: RuleId, ns: string)
    | PeerPodAdd(id: nat, rid: RuleId, ip: Ip)
    | PeerPodDel(id: nat, rid: RuleId, ip: Ip)
    | LocalPodAdd(id: nat, port: string)
    | LocalPodDel(id: nat, port: string)
    | PodUp(port: string, pod: Pod)
    | PodDown(port: string)
    | NamespaceAdd(ns: string, ips: set<Ip>)
    | NamespaceDel(ns: string)
    | NamespacePodAdd(ns: string, ip: Ip)
    | NamespacePodDel(ns: string, ip: Ip)

  predicate KeyLive(w: World, key: (string, string)) {
    exists id | id in w.policies :: (w.policies[id].spec.ns, w.policies[id].spec.name) == key
  }

  predicate HasRule(w: World, id: nat, rid: RuleId) { id in w.policies && rid in w.policies[id].rules }

  function PutRule(w: World, id: nat, rid: RuleId, r: WRule): World
    requires id in w.policies
  {
    var p := w.policies[id];
    w.(policies := w.policies[id := p.(rules := p.rules[rid := r])])
  }

  function PutPods(w: World, id: nat, pods: map<string, string>): World
    requires id in w.policies
  {
    w.(policies := w.policies[id := w.policies[id].(pods := pods)])
  }

  function WithoutKey(ps: map<nat, Policy>, key: (string, string)): map<nat, Policy> {
    map id | id in ps && (ps[id].spec.ns, ps[id].spec.name) != key :: ps[id]
  }

  function WorldStep(w: World, ev: Event): World {
    match ev
    case PolicyAdd(id, spec) =>
      if KeyLive(w, (spec.ns, spec.name)) || spec.ns !in w.nsPods then w.(used := w.used + {id})
      else w.(policies := w.policies[id := Policy(spec, map[], map[])], used := w.used + {id})
    case RuleAdd(id, rid) =>
      if id !in w.policies then w
      else
        var spec := w.policies[id].spec;
        var section := match rid.dir case Ingress => spec.ingress case Egress => spec.egress;
        if rid.idx < |section| then PutRule(w, id, rid, WRule(section[rid.idx], {}, {})) else w
    case PolicyDelete(ns, name) =>
      w.(policies := WithoutKey(w.policies, (ns, name)))
    case PeerNsAdd(id, rid, ns) =>
      if !HasRule(w, id, rid) then w
      else var r := w.policies[id].rules[rid]; PutRule(w, id, rid, r.(namespaces := r.namespaces + {ns}))
    case PeerNsDel(id, rid, ns) =>
      if !HasRule(w, id, rid) then w
      else var r := w.policies[id].rules[rid]; PutRule(w, id, rid, r.(namespaces := r.namespaces - {ns}))
    case PeerPodAdd(id, rid, ip) =>
      if !HasRule(w, id, rid) then w
      else var r := w.policies[id].rules[rid]; PutRule(w, id, rid, r.(podIps := r.podIps + {ip}))
    case PeerPodDel(id, rid, ip) =>
      if !HasRule(w, id, rid) then w
      else var r := w.policies[id].rules[rid]; PutRule(w, id, rid, r.(podIps := r.podIps - {ip}))
    case LocalPodAdd(id, port) =>
      if id in w.policies && port in w.alive && port !in w.policies[id].pods then
        PutPods(w, id, w.policies[id].pods[port := w.alive[port].node])
      else w
    case LocalPodDel(id, port) =>
      if id in w.policies && port in w.policies[id].pods then PutPods(w, id, w.policies[id].pods - {port}) else w
    case PodUp(port, pod) => w.(alive := w.alive[port := pod])
    case PodDown(port) => w.(alive := w.alive - {port})
    case NamespaceAdd(ns, ips) => w.(nsPods := w.nsPods[ns := ips])
    case NamespaceDel(ns) => w.(nsPods := w.nsPods - {ns})
    case NamespacePodAdd(ns, ip) => if ns in w.nsPods then w.(nsPods := w.nsPods[ns := w.nsPods[ns] + {ip}]) else w
    case NamespacePodDel(ns, ip) => if ns in w.nsPods then w.(nsPods := w.nsPods[ns := w.nsPods[ns] - {ip}]) else w
  }

  // ------------------------------------------------------- what the environment may do

  /** Namespace names are DNS labels. */
  predicate Label(s: string) { '.' !in s && '_' !in s }

  predicate SpecOk(spec: PolicySpec) {
    && Label(spec.ns)
    && (forall dir, i, j | 0 <= i < |spec.Rules(dir)| && 0 <= j < |spec.Rules(dir)[i].peers| ::
          spec.Rules(dir)[i].peers[j].ipBlock.Some? ==> PlainName(spec.Rules(dir)[i].peers[j].ipBlock.value.cidr))
  }

  /** The order in which the watch factory and the Kubernetes API can deliver events: policy
      objects are new, rules are set up before local pods are watched, peer handlers exist for
      rules with peers, a pod is dispatched as deleted to every handler before its name is used
      again, and a namespace goes away after its policies. */
  predicate Legal(w: World, ev: Event) {
    match ev
    case PolicyAdd(id, spec) => id !in w.used && SpecOk(spec)
    case RuleAdd(id, rid) =>
      id in w.policies ==> rid !in w.policies[id].rules && w.policies[id].pods == map[]
    case PeerNsAdd(id, rid, ns) => Label(ns) && HasPeers(w, id, rid)
    case PeerNsDel(id, rid, ns) => Label(ns) && HasPeers(w, id, rid)
    case PeerPodAdd(id, rid, _) => HasPeers(w, id, rid)
    case PeerPodDel(id, rid, _) => HasPeers(w, id, rid)
    case LocalPodAdd(id, port) => id in w.policies && port in w.alive ==> w.alive[port].ns == w.policies[id].spec.ns
    case PodUp(port, _) => port !in w.alive && forall id | id in w.policies :: port !in w.policies[id].pods
    case NamespaceAdd(ns, _) => Label(ns) && ns !in w.nsPods
    case NamespaceDel(ns) => forall id | id in w.policies :: w.policies[id].spec.ns != ns
    case _ => true
  }

  predicate HasPeers(w: World, id: nat, rid: RuleId) {
    id in w.policies && rid in w.policies[id].rules ==> w.policies[id].rules[rid].spec.peers != []
  }

  // ------------------------------------------------------- what the policies say

  /** The block a rule keeps: the last one listed. */
  function LastBlock(peers: seq<Peer>): IPBlock {
    if peers == [] then IPBlock("", [])
    else if peers[|peers| - 1].ipBlock.Some? then peers[|peers| - 1].ipBlock.value
    else LastBlock(peers[..|peers| - 1])
  }

  predicate PeersAllow(w: World, r: WRule, ip: Ip) {
    || r.spec.peers == []
    || ip in r.podIps
    || exists ns | ns in r.namespaces :: ns in w.nsPods && ip in w.nsPods[ns]
  }

  predicate BlockAllows(block: IPBlock, ip: Ip, inBlock: (string, Ip) -> bool) {
    block.cidr != "" && inBlock(block.cidr, ip)
  }

  predicate BlockExcepts(block: IPBlock, ip: Ip, inBlock: (string, Ip) -> bool) {
    block.cidr != "" && exists e | e in block.except :: inBlock(e, ip)
  }

  predicate RuleAllows(w: World, r: WRule, ip: Ip, l4: L4Match, inBlock: (string, Ip) -> bool) {
    PortsAllow(r.spec.ports, l4) && (PeersAllow(w, r, ip) || BlockAllows(LastBlock(r.spec.peers), ip, inBlock))
  }

  predicate Selects(w: World, id: nat, rid: RuleId, dir: Direction, pkt: Packet) {
    && id in w.policies && rid in w.policies[id].rules && rid.dir == dir
    && LocalPort(dir, pkt) in w.policies[id].pods
  }

  /** Some rule of a policy selecting the pod lists the peer in an except block. */
  ghost predicate Excepted(w: World, dir: Direction, pkt: Packet, inBlock: (string, Ip) -> bool) {
    exists id, rid | Selects(w, id, rid, dir, pkt) ::
      BlockExcepts(LastBlock(w.policies[id].rules[rid].spec.peers), PeerIp(dir, pkt), inBlock)
  }

  /** Some rule of a policy selecting the pod allows the packet. */
  ghost predicate Allowed(w: World, dir: Direction, pkt: Packet, inBlock: (string, Ip) -> bool) {
    exists id, rid | Selects(w, id, rid, dir, pkt) ::
      RuleAllows(w, w.policies[id].rules[rid], PeerIp(dir, pkt), pkt.l4, inBlock)
  }

  /** The policies that put a default deny on a pod. */
  function Holders(ps: map<nat, Policy>, dir: Direction, port: string): set<nat> {
    set id | id in ps && port in ps[id].pods && ps[id].spec.Isolates(dir)
  }

  ghost predicate Dropped(w: World, dir: Direction, pkt: Packet, inBlock: (string, Ip) -> bool) {
    || Excepted(w, dir, pkt, inBlock)
    || (!Allowed(w, dir, pkt, inBlock) && Holders(w.policies, dir, LocalPort(dir, pkt)) != {})
  }

  // ------------------------------------------------------- invariants of the reference

  ghost predicate WorldOk(w: World) {
    && (forall id | id in w.policies :: id in w.used && PolicyOk(w, w.policies[id]))
    && (forall i, j | i in w.policies && j in w.policies ::
          w.policies[i].spec.Key() == w.policies[j].spec.Key() ==> i == j)
    && (forall ns | ns in w.nsPods :: Label(ns))
  }

  ghost predicate RuleOk(spec: PolicySpec, rid: RuleId, r: WRule) {
    && rid.idx < |spec.Rules(rid.dir)| && r.spec == spec.Rules(rid.dir)[rid.idx]
    && (r.spec.peers == [] ==> r.namespaces == {} && r.podIps == {})
    && forall ns | ns in r.namespaces :: Label(ns)
  }

  ghost predicate PolicyOk(w: World, p: Policy) {
    && SpecOk(p.spec)
    && (forall rid | rid in p.rules :: RuleOk(p.spec, rid, p.rules[rid]))
    && (forall port | port in p.pods && port in w.alive :: w.alive[port] == Pod(p.spec.ns, p.pods[port]))
  }

  lemma WithPolicyOk(w: World, id: nat, p: Policy)
    requires WorldOk(w) && id in w.policies && p.spec == w.policies[id].spec && PolicyOk(w, p)
    ensures WorldOk(w.(policies := w.policies[id := p]))
  {
    var w' := w.(policies := w.policies[id := p]);
    forall i | i in w'.policies ensures i in w'.used && PolicyOk(w', w'.policies[i]) {
      assert PolicyOk(w, w'.policies[i]);
    }
  }

  lemma PutRuleOk(w: World, id: nat, rid: RuleId, r: WRule)
    requires WorldOk(w) && id in w.policies && RuleOk(w.policies[id].spec, rid, r)
    ensures WorldOk(PutRule(w, id, rid, r))
  {
    var p := w.policies[id];
    assert PolicyOk(w, p);
    assert PolicyOk(w, p.(rules := p.rules[rid := r]));
    WithPolicyOk(w, id, p.(rules := p.rules[rid := r]));
  }

  lemma PutPodsOk(w: World, id: nat, pods: map<string, string>)
    requires WorldOk(w) && id in w.policies
    requires forall port | port in pods && port in w.alive :: w.alive[port] == Pod(w.policies[id].spec.ns, pods[port])
    ensures WorldOk(PutPods(w, id, pods))
  {
    assert PolicyOk(w, w.policies[id]);
    WithPolicyOk(w, id, w.policies[id].(pods := pods));
  }

  lemma PolicyChangeOk(w: World, ev: Event)
    requires WorldOk(w) && Legal(w, ev)
    requires ev.RuleAdd? || ev.PeerNsAdd? || ev.PeerNsDel? || ev.PeerPodAdd? || ev.PeerPodDel?
    ensures WorldOk(WorldStep(w, ev))
  {
    var w' := WorldStep(w, ev);
    if w' != w {
      assert PolicyOk(w, w.policies[ev.id]);
      PutRuleOk(w, ev.id, ev.rid, w'.policies[ev.id].rules[ev.rid]);
    }
  }

  /** Dropping policies, pods or namespaces, and starting pods nobody selects, keeps the rest. */
  lemma SubWorldOk(w: World, w': World)
    requires WorldOk(w) && w.used <= w'.used
    requires forall id | id in w'.policies :: id in w.policies && w'.policies[id] == w.policies[id]
    requires forall id, port | id in w'.policies && port in w'.policies[id].pods && port in w'.alive ::
               port in w.alive && w'.alive[port] == w.alive[port]
    requires forall ns | ns in w'.nsPods :: Label(ns)
    ensures WorldOk(w')
  {
    forall i | i in w'.policies ensures PolicyOk(w', w'.policies[i]) {
      assert PolicyOk(w, w.policies[i]);
    }
  }

  lemma PolicyAddOk(w: World, id: nat, spec: PolicySpec)
    requires WorldOk(w) && Legal(w, PolicyAdd(id, spec))
    ensures WorldOk(WorldStep(w, PolicyAdd(id, spec)))
  {
    var w' := WorldStep(w, PolicyAdd(id, spec));
    forall i | i in w'.policies ensures PolicyOk(w', w'.policies[i]) {
      assert i in w.policies ==> PolicyOk(w, w.policies[i]);
    }
  }

  lemma WorldStepOk(w: World, ev: Event)
    requires WorldOk(w) && Legal(w, ev)
    ensures WorldOk(WorldStep(w, ev))
  {
    if ev.PolicyAdd? {
      PolicyAddOk(w, ev.id, ev.spec);
    } else if ev.PolicyDelete? || ev.PodUp? || ev.PodDown? || ev.NamespaceAdd? || ev.NamespaceDel?
           || ev.NamespacePodAdd? || ev.NamespacePodDel? {
      SubWorldOk(w, WorldStep(w, ev));
    } else if ev.LocalPodAdd? || ev.LocalPodDel? {
      if WorldStep(w, ev) != w {
        assert PolicyOk(w, w.policies[ev.id]);
        PutPodsOk(w, ev.id, WorldStep(w, ev).policies[ev.id].pods);
      }
    } else {
      PolicyChangeOk(w, ev);
    }
  }

  const Empty := World(map[], {}, map[], map[])

  function Run(evs: seq<Event>): World {
    if evs == [] then Empty else WorldStep(Run(evs[..|evs| - 1]), evs[|evs| - 1])
  }

  ghost predicate LegalRun(evs: seq<Event>) {
    evs == [] || (LegalRun(evs[..|evs| - 1]) && Legal(Run(evs[..|evs| - 1]), evs[|evs| - 1]))
  }

  lemma LegalSnoc(evs: seq<Event>, ev: Event)
    ensures Run(evs + [ev]) == WorldStep(Run(evs), ev)
    ensures LegalRun(evs) && Legal(Run(evs), ev) ==> LegalRun(evs + [ev])
  {
    assert (evs + [ev])[..|evs|] == evs;
  }

  lemma {:induction false} LegalPrefix(evs: seq<Event>, i: nat)
    requires LegalRun(evs) && i <= |evs|
    ensures LegalRun(evs[..i])
    decreases |evs|
  {
    if i == |evs| {
      assert evs[..i] == evs;
    } else {
      LegalPrefix(evs[..|evs| - 1], i);
      assert evs[..|evs| - 1][..i] == evs[..i];
    }
  }

  lemma LegalAt(evs: seq<Event>, i: nat)
    requires LegalRun(evs) && i < |evs|
    ensures Legal(Run(evs[..i]), evs[i])
  {
    LegalPrefix(evs, i + 1);
    assert evs[..i + 1][..i] == evs[..i];
  }

  ghost predicate SomeBlockAllows(peers: seq<Peer>, ip: Ip, inBlock: (string, Ip) -> bool) {
    exists i | 0 <= i < |peers| :: peers[i].ipBlock.Some? && BlockAllows(peers[i].ipBlock.value, ip, inBlock)
  }

  lemma {:induction false} LastBlockIsListed(peers: seq<Peer>)
    requires LastBlock(peers).cidr != ""
    ensures exists i | 0 <= i < |peers| :: peers[i].ipBlock == Some(LastBlock(peers))
  {
    if peers[|peers| - 1].ipBlock.None? {
      var rest := peers[..|peers| - 1];
      LastBlockIsListed(rest);
      var i :| 0 <= i < |rest| && rest[i].ipBlock == Some(LastBlock(rest));
      assert peers[i] == rest[i];
    } else {
      assert peers[|peers| - 1].ipBlock == Some(LastBlock(peers));
    }
  }

  ghost predicate LastMeansSome(peers: seq<Peer>, ip: Ip, inBlock: (string, Ip) -> bool) {
    BlockAllows(LastBlock(peers), ip, inBlock) <==> SomeBlockAllows(peers, ip, inBlock)
  }

  /** Keeping only the last block means "some block allows" for all addresses if and only if no
      other CIDR is listed; in particular for every rule with at most one block. */
  lemma LastBlockExactly(peers: seq<Peer>)
    ensures (forall ip: Ip, inBlock: (string, Ip) -> bool :: LastMeansSome(peers, ip, inBlock)) <==>
            (forall i | 0 <= i < |peers| && peers[i].ipBlock.Some? && peers[i].ipBlock.value.cidr != "" ::
               peers[i].ipBlock.value.cidr == LastBlock(peers).cidr)
  {
    if i :| 0 <= i < |peers| && peers[i].ipBlock.Some? && peers[i].ipBlock.value.cidr != ""
            && peers[i].ipBlock.value.cidr != LastBlock(peers).cidr {
      var inBlock := (text: string, ip: Ip) => text == peers[i].ipBlock.value.cidr;
      assert SomeBlockAllows(peers, 0, inBlock) && !BlockAllows(LastBlock(peers), 0, inBlock);
      assert !LastMeansSome(peers, 0, inBlock);
    } else {
      forall ip: Ip, inBlock: (string, Ip) -> bool ensures LastMeansSome(peers, ip, inBlock) {
        if LastBlock(peers).cidr != "" {
          LastBlockIsListed(peers);
        }
      }
    }
  }

  /** With a second block the first is forgotten. */
  lemma SecondBlockReplacesFirst(a: IPBlock, b: IPBlock)
    ensures LastBlock([Peer(Some(a)), Peer(Some(b))]) == b
    ensures LastBlock([Peer(Some(a)), Peer(None)]) == a
  {
    assert [Peer(Some(a)), Peer(None)][..1] == [Peer(Some(a))];
  }
}
