/** The controller's methods as they run, for the port-group back-end (policy.go, namespace.go,
    pods.go): fields updated in place, loops over ports, rules and local pods. Each handler is
    proved to take the step of the specification machine. */
module PolicyController {
  import opened Acl
  import opened Gress
  import opened PolicyWorld
  import opened PolicyMemory
  import opened AclRows
  import opened AclTable
  import opened AddressSets
  import opened PortGroupBackend

  /** Adding the rows of the remaining port clauses, one clause at a time. */
  lemma NextClause(t: Table, o: Owner, rid: RuleId, r: Rule, l4s: seq<L4Match>)
    requires l4s != []
    ensures AddRows(t, KindRows(o, rid, r, PortKinds(r, l4s)))
         == AddRows(AddRow(if r.cidr != "" then AddRow(t, RowOf(o, rid, r, CidrKind(l4s[0]))) else t,
                           RowOf(o, rid, r, PeersKind(l4s[0]))),
                    KindRows(o, rid, r, PortKinds(r, l4s[1..])))
  {
    var rest := PortKinds(r, l4s[1..]);
    NextRow(o, rid, r, PeersKind(l4s[0]), rest);
    if r.cidr != "" {
      NextRow(o, rid, r, CidrKind(l4s[0]), [PeersKind(l4s[0])] + rest);
      assert PortKinds(r, l4s) == [CidrKind(l4s[0])] + ([PeersKind(l4s[0])] + rest);
    } else {
      assert PortKinds(r, l4s) == [PeersKind(l4s[0])] + rest;
    }
  }

  lemma NextRow(o: Owner, rid: RuleId, r: Rule, k: Kind, kinds: seq<Kind>)
    ensures KindRows(o, rid, r, [k] + kinds)[0] == RowOf(o, rid, r, k)
    ensures KindRows(o, rid, r, [k] + kinds)[1..] == KindRows(o, rid, r, kinds)
  {
  }

  lemma NextPort(ports: seq<PortPolicy>, i: nat)
    requires i < |ports|
    ensures KnownL4(ports[i..]) == match GetL4Match(ports[i])
                                   case None => KnownL4(ports[i + 1..])
                                   case Some(l4) => [l4] + KnownL4(ports[i + 1..])
  {
  }

  lemma LocalPodAddStep(h: string -> string, m: Mem, db: Db, id: nat, port: string)
    requires PodIsNew(m, id, port)
    ensures var np := m.nps[id];
            MemStep(h, m, LocalPodAdd(id, port)) ==
            m.(nps := m.nps[id := np.(localPods := np.localPods[port := m.lsps[port].node])],
               inCount := Inc(m.inCount, port, np.spec.Denies(Ingress)),
               egCount := Inc(m.egCount, port, np.spec.Denies(Egress)))
    ensures DbStep(h, MatchText, m, db, LocalPodAdd(id, port)) ==
            Db(if db.ready then db.acls else AddRows(db.acls, [DenyRow(Ingress), DenyRow(Egress)]),
               Put(DenyAdds(m, db.groups, db.ready, m.nps[id], port), m.nps[id].group, port, true), db.sets, true)
  {
  }

  lemma LocalPodDelStep(h: string -> string, m: Mem, db: Db, id: nat, port: string)
    requires Live(m, id) && port in m.nps[id].localPods
    ensures var np := m.nps[id];
            MemStep(h, m, LocalPodDel(id, port)) == m.(nps := m.nps[id := np.(localPods := np.localPods - {port})],
              inCount := Dec(m.inCount, port, np.spec.Denies(Ingress)),
                         egCount := Dec(m.egCount, port, np.spec.Denies(Egress)))
    ensures DbStep(h, MatchText, m, db, LocalPodDel(id, port)) ==
            db.(groups := Take(DenyTakes(m, db.groups, m.nps[id], port), m.nps[id].group, port, port in m.lsps))
  {
  }

  /** The deny groups without the given ports. */
  function DenyTaken(groups: map<string, set<string>>, ingress: set<string>,
                     egress: set<string>): map<string, set<string>> {
    TakeAll(TakeAll(groups, DenyGroup(Ingress), ingress), DenyGroup(Egress), egress)
  }

  function Addresses(ips: seq<Ip>): set<Ip> { set ip | ip in ips }

  /** The address sets of the first `n` rules of a direction. */
  function FirstPeerSets(loc: SetNamer, np: Np, dir: Direction, n: nat): set<string> {
    set rid | rid in np.rules && rid.dir == dir && rid.idx < n :: loc(np.spec, rid)
  }

  lemma NextPeerSet(loc: SetNamer, np: Np, dir: Direction, n: nat)
    ensures FirstPeerSets(loc, np, dir, n + 1)
         == FirstPeerSets(loc, np, dir, n) + if RuleId(dir, n) in np.rules then {loc(np.spec, RuleId(dir, n))} else {}
  {
  }

  class Controller {
    const hash: string -> string
    var nps: map<nat, Np>
    var byKey: map<(string, string), nat>
    var nsAddresses: map<string, set<Ip>>
    var lsps: map<string, Pod>
    var inCount: map<string, nat>
    var egCount: map<string, nat>
    var acls: Table
    var groups: map<string, set<string>>
    var sets: map<string, set<Ip>>
    var ready: bool

    ghost function Memory(): Mem
      reads this
    {
      Mem(nps, byKey, nsAddresses, lsps, inCount, egCount)
    }

    ghost function Database(): Db
      reads this
    {
      Db(acls, groups, sets, ready)
    }

    constructor (hash: string -> string)
      ensures this.hash == hash && Memory() == EmptyMem && Database() == EmptyDb
    {
      this.hash := hash;
      nps, byKey, nsAddresses, lsps, inCount, egCount := map[], map[], map[], map[], map[], map[];
      acls, groups, sets, ready := Table(map[], 0), map[], map[], false;
    }

    // ------------------------------------------------------- ACLs of a rule

    /** localPodAddACL: the except row, then for every port clause the CIDR row and the peers row. */
    method LocalPodAddACL(o: Owner, rid: RuleId, r: Rule)
      modifies this`acls
      ensures acls == AddRows(old(acls), RowList(o, rid, r))
    {
      ghost var done := AddRows(acls, RowList(o, rid, r));
      AddExcept(o, rid, r);
      if r.ports == [] {
        NextClause(acls, o, rid, r, [NoneMatch]);
        AddPortClause(o, rid, r, NoneMatch);
        assert [NoneMatch][1..] == [];
      }
      assert r.ports[0..] == r.ports;
      var i := 0;
      while i < |r.ports|
        invariant 0 <= i <= |r.ports|
        invariant AddRows(acls, KindRows(o, rid, r, PortKinds(r, KnownL4(r.ports[i..])))) == done
      {
        NextPort(r.ports, i);
        match GetL4Match(r.ports[i]) {
          case None =>
          case Some(l4) =>
            NextClause(acls, o, rid, r, [l4] + KnownL4(r.ports[i + 1..]));
            AddPortClause(o, rid, r, l4);
            assert ([l4] + KnownL4(r.ports[i + 1..]))[1..] == KnownL4(r.ports[i + 1..]);
        }
        i := i + 1;
      }
    }

    method AddExcept(o: Owner, rid: RuleId, r: Rule)
      modifies this`acls
      ensures AddRows(acls, KindRows(o, rid, r, PortKinds(r, L4Matches(r.ports))))
           == AddRows(old(acls), RowList(o, rid, r))
    {
      if r.cidr != "" && r.except != [] {
        assert KindList(r) == [ExceptKind] + PortKinds(r, L4Matches(r.ports));
        NextRow(o, rid, r, ExceptKind, PortKinds(r, L4Matches(r.ports)));
        acls := AddRow(acls, RowOf(o, rid, r, ExceptKind));
      } else {
        assert KindList(r) == PortKinds(r, L4Matches(r.ports));
      }
    }

    method AddPortClause(o: Owner, rid: RuleId, r: Rule, l4: L4Match)
      modifies this`acls
      ensures acls == AddRow(if r.cidr != "" then AddRow(old(acls), RowOf(o, rid, r, CidrKind(l4))) else old(acls),
                             RowOf(o, rid, r, PeersKind(l4)))
    {
      if r.cidr != "" {
        acls := AddRow(acls, RowOf(o, rid, r, CidrKind(l4)));
      }
      acls := AddRow(acls, RowOf(o, rid, r, PeersKind(l4)));
    }

    /** handlePeerNamespaceSelectorModify: every port clause's row is found by its old match. */
    method HandlePeerNamespaceSelectorModify(o: Owner, rid: RuleId, ports: seq<PortPolicy>, oldPeers: seq<string>,
                                             newPeers: seq<string>)
      modifies this`acls
      ensures acls == ModifyRows(MatchText, old(acls), o, rid, oldPeers, newPeers, L4Matches(ports))
    {
      ghost var done := ModifyRows(MatchText, acls, o, rid, oldPeers, newPeers, L4Matches(ports));
      if ports == [] {
        assert [NoneMatch][1..] == [];
        acls := ModifyRow(MatchText, acls, PeersMatch(o, rid, oldPeers, NoneMatch),
                          PeersMatch(o, rid, newPeers, NoneMatch), o, rid);
      }
      assert ports[0..] == ports;
      var i := 0;
      while i < |ports|
        invariant 0 <= i <= |ports|
        invariant ModifyRows(MatchText, acls, o, rid, oldPeers, newPeers, KnownL4(ports[i..])) == done
      {
        NextPort(ports, i);
        match GetL4Match(ports[i]) {
          case None =>
          case Some(l4) =>
            acls := ModifyRow(MatchText, acls, PeersMatch(o, rid, oldPeers, l4), PeersMatch(o, rid, newPeers, l4), o,
                              rid);
            assert ([l4] + KnownL4(ports[i + 1..]))[1..] == KnownL4(ports[i + 1..]);
        }
        i := i + 1;
      }
    }

    // ------------------------------------------------------- rules and peers

    /** newGressPolicy, addPortPolicy, addAddressSet and addIPBlock for one rule of a policy. */
    method BuildGress(spec: PolicySpec, rid: RuleId) returns (r: Rule)
      requires rid.idx < |spec.Rules(rid.dir)|
      ensures r == NewRule(hash, spec, rid)
    {
      var rule := spec.Rules(rid.dir)[rid.idx];
      var gress := new GressPolicy(rid.dir, rid.idx);
      var i := 0;
      while i < |rule.ports|
        invariant 0 <= i <= |rule.ports| && fresh(gress) && gress.Valid()
        invariant gress.View() == Rule([], rule.ports[..i], "", [])
      {
        gress.AddPortPolicy(rule.ports[i]);
        i := i + 1;
      }
      if rule.peers != [] {
        var _, _, added := gress.AddAddressSet(hash(LocalPeerPods(spec, rid)));
      }
      var own := if rule.peers == [] then [] else [hash(LocalPeerPods(spec, rid))];
      i := 0;
      while i < |rule.peers|
        invariant 0 <= i <= |rule.peers| && fresh(gress) && gress.Valid()
        invariant gress.View()
               == Rule(own, rule.ports, LastBlock(rule.peers[..i]).cidr, LastBlock(rule.peers[..i]).except)
      {
        assert rule.peers[..i + 1][..i] == rule.peers[..i];
        if rule.peers[i].ipBlock.Some? {
          gress.AddIPBlock(rule.peers[i].ipBlock.value);
        }
        i := i + 1;
      }
      assert rule.peers[..i] == rule.peers;
      r := Rule(gress.sortedPeerAddressSets, gress.portPolicies, gress.ipBlockCidr, gress.ipBlockExcept);
    }

    /** One turn of the loops over rules in addNetworkPolicyPortGroup. */
    method AddRule(id: nat, rid: RuleId)
      modifies this
      ensures Memory() == MemStep(hash, old(Memory()), RuleAdd(id, rid))
      ensures Database() == DbStep(hash, MatchText, old(Memory()), old(Database()), RuleAdd(id, rid))
    {
      if id !in nps || nps[id].deleted || rid.idx >= |nps[id].spec.Rules(rid.dir)| {
        return;
      }
      var np := nps[id];
      var r := BuildGress(np.spec, rid);
      if np.spec.Rules(rid.dir)[rid.idx].peers != [] {
        sets := sets[hash(LocalPeerPods(np.spec, rid)) := {}];
      }
      LocalPodAddACL(OwnerOf(np), rid, r);
      nps := nps[id := np.(rules := np.rules[rid := r], addressMaps := np.addressMaps[rid := {}])];
    }

    /** The namespace handlers of a rule; `peers` is the edited list. */
    method PutPeers(id: nat, rid: RuleId, peers: seq<string>)
      requires id in nps && rid in nps[id].rules && rid in nps[id].addressMaps
      modifies this
      ensures Memory() == PutMemRule(old(Memory()), id, rid, old(nps)[id].rules[rid].(peers := peers),
                                     old(nps)[id].addressMaps[rid])
      ensures Database() == old(Database()).(acls := ModifyPeers(MatchText, old(acls), old(nps)[id], rid, peers))
    {
      var np := nps[id];
      var r := np.rules[rid];
      if peers != r.peers {
        HandlePeerNamespaceSelectorModify(OwnerOf(np), rid, r.ports, r.peers, peers);
      }
      nps := nps[id := np.(rules := np.rules[rid := r.(peers := peers)],
                           addressMaps := np.addressMaps[rid := np.addressMaps[rid]])];
    }

    method HandlePeerNamespaceAdd(id: nat, rid: RuleId, ns: string)
      modifies this
      ensures Memory() == MemStep(hash, old(Memory()), PeerNsAdd(id, rid, ns))
      ensures Database() == DbStep(hash, MatchText, old(Memory()), old(Database()), PeerNsAdd(id, rid, ns))
    {
      if id in nps && !nps[id].deleted && rid in nps[id].rules && rid in nps[id].addressMaps {
        PutPeers(id, rid, AddPeer(nps[id].rules[rid].peers, hash(ns)));
      }
    }

    method HandlePeerNamespaceDel(id: nat, rid: RuleId, ns: string)
      modifies this
      ensures Memory() == MemStep(hash, old(Memory()), PeerNsDel(id, rid, ns))
      ensures Database() == DbStep(hash, MatchText, old(Memory()), old(Database()), PeerNsDel(id, rid, ns))
    {
      if id in nps && !nps[id].deleted && rid in nps[id].rules && rid in nps[id].addressMaps {
        PutPeers(id, rid, Remove(nps[id].rules[rid].peers, hash(ns)));
      }
    }

    /** handlePeerPodSelectorAddUpdate. */
    method HandlePeerPodAdd(id: nat, rid: RuleId, ip: Ip)
      modifies this
      ensures Memory() == MemStep(hash, old(Memory()), PeerPodAdd(id, rid, ip))
      ensures Database() == DbStep(hash, MatchText, old(Memory()), old(Database()), PeerPodAdd(id, rid, ip))
    {
      if id !in nps || nps[id].deleted || rid !in nps[id].rules || rid !in nps[id].addressMaps {
        return;
      }
      var np := nps[id];
      var addresses := np.addressMaps[rid];
      if ip !in addresses {
        sets := sets[hash(LocalPeerPods(np.spec, rid)) := addresses + {ip}];
      }
      nps := nps[id := np.(rules := np.rules[rid := np.rules[rid]],
                           addressMaps := np.addressMaps[rid := addresses + {ip}])];
    }

    /** handlePeerPodSelectorDelete. */
    method HandlePeerPodDel(id: nat, rid: RuleId, ip: Ip)
      modifies this
      ensures Memory() == MemStep(hash, old(Memory()), PeerPodDel(id, rid, ip))
      ensures Database() == DbStep(hash, MatchText, old(Memory()), old(Database()), PeerPodDel(id, rid, ip))
    {
      if id !in nps || nps[id].deleted || rid !in nps[id].rules || rid !in nps[id].addressMaps {
        return;
      }
      var np := nps[id];
      var addresses := np.addressMaps[rid];
      if ip in addresses {
        sets := sets[hash(LocalPeerPods(np.spec, rid)) := addresses - {ip}];
      }
      nps := nps[id := np.(rules := np.rules[rid := np.rules[rid]],
                           addressMaps := np.addressMaps[rid := addresses - {ip}])];
    }

    // ------------------------------------------------------- default deny

    /** createDefaultDenyPortGroup for both directions; each creates the group and its ACL once. */
    method CreateDefaultDenyPortGroups()
      modifies this`acls, this`groups, this`ready
      ensures ready && groups == WithDenyGroups(old(groups), old(ready))
      ensures acls == if old(ready) then old(acls) else AddRows(old(acls), [DenyRow(Ingress), DenyRow(Egress)])
    {
      if !ready {
        groups := groups[DenyGroup(Ingress) := {}];
        assert [DenyRow(Ingress), DenyRow(Egress)][1..] == [DenyRow(Egress)];
        acls := AddRow(acls, DenyRow(Ingress));
        groups := groups[DenyGroup(Egress) := {}];
        acls := AddRow(acls, DenyRow(Egress));
        ready := true;
      }
    }

    /** addToACLDeny. */
    method AddToACLDeny(dir: Direction, port: string)
      requires port in lsps
      modifies this`groups
      ensures groups == Put(old(groups), DenyGroup(dir), port, true)
    {
      if DenyGroup(dir) in groups {
        groups := groups[DenyGroup(dir) := groups[DenyGroup(dir)] + {port}];
      }
    }

    /** deleteFromACLDeny: a port that is gone from the database is gone from every group. */
    method DeleteFromACLDeny(dir: Direction, port: string)
      modifies this`groups
      ensures groups == Take(old(groups), DenyGroup(dir), port, port in lsps)
    {
      if port in lsps && DenyGroup(dir) in groups {
        groups := groups[DenyGroup(dir) := groups[DenyGroup(dir)] - {port}];
      }
    }

    method AddIngressDeny(port: string, on: bool)
      requires port in lsps
      modifies this`groups, this`inCount
      ensures groups == Put(old(groups), DenyGroup(Ingress), port, on && Get(old(inCount), port) == 0)
      ensures inCount == Inc(old(inCount), port, on)
    {
      if on {
        if Get(inCount, port) == 0 {
          AddToACLDeny(Ingress, port);
        }
        inCount := inCount[port := Get(inCount, port) + 1];
      }
    }

    method AddEgressDeny(port: string, on: bool)
      requires port in lsps
      modifies this`groups, this`egCount
      ensures groups == Put(old(groups), DenyGroup(Egress), port, on && Get(old(egCount), port) == 0)
      ensures egCount == Inc(old(egCount), port, on)
    {
      if on {
        if Get(egCount, port) == 0 {
          AddToACLDeny(Egress, port);
        }
        egCount := egCount[port := Get(egCount, port) + 1];
      }
    }

    method LocalPodAddDefaultDeny(np: Np, port: string)
      requires port in lsps
      modifies this`acls, this`groups, this`ready, this`inCount, this`egCount
      ensures ready && groups == DenyAdds(old(Memory()), old(groups), old(ready), np, port)
      ensures acls == if old(ready) then old(acls) else AddRows(old(acls), [DenyRow(Ingress), DenyRow(Egress)])
      ensures inCount == Inc(old(inCount), port, np.spec.Denies(Ingress))
              && egCount == Inc(old(egCount), port, np.spec.Denies(Egress))
      ensures CountedIn(old(inCount), inCount, port, np.spec.Isolates(Ingress))
              && CountedIn(old(egCount), egCount, port, np.spec.Isolates(Egress))
    {
      CountersFollow(inCount, port, np.spec, Ingress);
      CountersFollow(egCount, port, np.spec, Egress);
      CreateDefaultDenyPortGroups();
      AddIngressDeny(port, np.spec.Denies(Ingress));
      AddEgressDeny(port, np.spec.Denies(Egress));
    }

    method DelIngressDeny(port: string, on: bool)
      modifies this`groups, this`inCount
      ensures groups == Take(old(groups), DenyGroup(Ingress), port, on && Get(old(inCount), port) == 1 && port in lsps)
      ensures inCount == Dec(old(inCount), port, on)
    {
      if on && Get(inCount, port) > 0 {
        inCount := inCount[port := inCount[port] - 1];
        if inCount[port] == 0 {
          DeleteFromACLDeny(Ingress, port);
        }
      }
    }

    method DelEgressDeny(port: string, on: bool)
      modifies this`groups, this`egCount
      ensures groups == Take(old(groups), DenyGroup(Egress), port, on && Get(old(egCount), port) == 1 && port in lsps)
      ensures egCount == Dec(old(egCount), port, on)
    {
      if on && Get(egCount, port) > 0 {
        egCount := egCount[port := egCount[port] - 1];
        if egCount[port] == 0 {
          DeleteFromACLDeny(Egress, port);
        }
      }
    }

    method LocalPodDelDefaultDeny(np: Np, port: string)
      requires port in np.localPods
      modifies this`groups, this`inCount, this`egCount
      ensures inCount == Dec(old(inCount), port, np.spec.Denies(Ingress))
              && egCount == Dec(old(egCount), port, np.spec.Denies(Egress))
      ensures CountedOut(old(inCount), inCount, port, np.spec.Isolates(Ingress))
              && CountedOut(old(egCount), egCount, port, np.spec.Isolates(Egress))
      ensures groups == DenyTakes(old(Memory()), old(groups), np, port)
    {
      CountersFollow(inCount, port, np.spec, Ingress);
      CountersFollow(egCount, port, np.spec, Egress);
      DelIngressDeny(port, np.spec.Denies(Ingress));
      DelEgressDeny(port, np.spec.Denies(Egress));
    }

    // ------------------------------------------------------- local pods

    method SelectPod(id: nat, port: string)
      requires port in lsps && id in nps
      modifies this`nps, this`acls, this`groups, this`ready, this`inCount, this`egCount
      ensures nps == old(nps)[id := old(nps)[id].(localPods := old(nps)[id].localPods[port := lsps[port].node])]
      ensures ready && groups
           == Put(DenyAdds(old(Memory()), old(groups), old(ready), old(nps)[id], port), old(nps)[id].group, port, true)
      ensures acls == if old(ready) then old(acls) else AddRows(old(acls), [DenyRow(Ingress), DenyRow(Egress)])
      ensures inCount == Inc(old(inCount), port, old(nps)[id].spec.Denies(Ingress))
      ensures egCount == Inc(old(egCount), port, old(nps)[id].spec.Denies(Egress))
    {
      var np := nps[id];
      LocalPodAddDefaultDeny(np, port);
      if np.group in groups {
        groups := groups[np.group := groups[np.group] + {port}];
      }
      nps := nps[id := np.(localPods := np.localPods[port := lsps[port].node])];
    }

    method HandleLocalPodSelectorAdd(id: nat, port: string)
      modifies this
      ensures Memory() == MemStep(hash, old(Memory()), LocalPodAdd(id, port))
      ensures Database() == DbStep(hash, MatchText, old(Memory()), old(Database()), LocalPodAdd(id, port))
    {
      if port !in lsps || id !in nps || nps[id].deleted || port in nps[id].localPods {
        return;
      }
      LocalPodAddStep(hash, Memory(), Database(), id, port);
      SelectPod(id, port);
    }

    method DeselectPod(id: nat, port: string)
      requires id in nps && port in nps[id].localPods
      modifies this`nps, this`groups, this`inCount, this`egCount
      ensures nps == old(nps)[id := old(nps)[id].(localPods := old(nps)[id].localPods - {port})]
      ensures groups == Take(DenyTakes(old(Memory()), old(groups), old(nps)[id], port), old(nps)[id].group, port,
                             port in lsps)
      ensures inCount == Dec(old(inCount), port, old(nps)[id].spec.Denies(Ingress))
      ensures egCount == Dec(old(egCount), port, old(nps)[id].spec.Denies(Egress))
    {
      var np := nps[id];
      LocalPodDelDefaultDeny(np, port);
      if port in lsps && np.group in groups {
        groups := groups[np.group := groups[np.group] - {port}];
      }
      nps := nps[id := np.(localPods := np.localPods - {port})];
    }

    method HandleLocalPodSelectorDel(id: nat, port: string)
      modifies this
      ensures Memory() == MemStep(hash, old(Memory()), LocalPodDel(id, port))
      ensures Database() == DbStep(hash, MatchText, old(Memory()), old(Database()), LocalPodDel(id, port))
    {
      if id !in nps || nps[id].deleted || port !in nps[id].localPods {
        return;
      }
      LocalPodDelStep(hash, Memory(), Database(), id, port);
      DeselectPod(id, port);
    }

    // ------------------------------------------------------- policies

    method AddNetworkPolicy(id: nat, spec: PolicySpec)
      modifies this
      ensures Memory() == MemStep(hash, old(Memory()), PolicyAdd(id, spec))
      ensures Database() == DbStep(hash, MatchText, old(Memory()), old(Database()), PolicyAdd(id, spec))
    {
      if spec.Key() in byKey || spec.ns !in nsAddresses || id in nps {
        return;
      }
      var group := hash(ReadableGroup(spec));
      if group !in groups {
        groups := groups[group := {}];
      }
      nps := nps[id := Np(spec, group, map[], map[], map[], false)];
      byKey := byKey[spec.Key() := id];
    }

    /** The two loops over a policy's rules that delete their address sets. */
    method DeletePeerSets(np: Np, dir: Direction)
      modifies this`sets
      ensures sets == old(sets) - FirstPeerSets(Namer(hash), np, dir, |np.spec.Rules(dir)|)
    {
      var i := 0;
      while i < |np.spec.Rules(dir)|
        invariant 0 <= i <= |np.spec.Rules(dir)|
        invariant sets == old(sets) - FirstPeerSets(Namer(hash), np, dir, i)
      {
        var rid := RuleId(dir, i);
        if rid in np.rules {
          sets := sets - {hash(LocalPeerPods(np.spec, rid))};
        }
        NextPeerSet(Namer(hash), np, dir, i);
        i := i + 1;
      }
    }

    /** The counters and deny groups once the ports in `done` have been visited. */
    ghost predicate DeniesDeleted(m: Mem, before: map<string, set<string>>, np: Np, done: set<string>)
      reads this
    {
      && inCount == DecAll(m.inCount, done, np.spec.Denies(Ingress))
      && egCount == DecAll(m.egCount, done, np.spec.Denies(Egress))
      && groups == DenyTaken(before, LastHeld(m, np, Ingress) * done, LastHeld(m, np, Egress) * done) && lsps == m.lsps
    }

    method DeleteDefaultDeny(np: Np, port: string, ghost m: Mem, ghost before: map<string, set<string>>,
                             ghost done: set<string>)
      requires port in np.localPods && port !in done && DeniesDeleted(m, before, np, done)
      modifies this`groups, this`inCount, this`egCount
      ensures DeniesDeleted(m, before, np, done + {port})
    {
      DeleteOne(m, before, np, done, port, Memory());
      LocalPodDelDefaultDeny(np, port);
    }

    /** The loop over the local pods of a deleted policy, in any order; `m` is the memory the
        deletion started from. */
    method DeleteDefaultDenies(np: Np, ghost m: Mem)
      requires m.inCount == inCount && m.egCount == egCount && m.lsps == lsps
      modifies this`groups, this`inCount, this`egCount
      ensures inCount == DecAll(m.inCount, np.localPods.Keys, np.spec.Denies(Ingress))
      ensures egCount == DecAll(m.egCount, np.localPods.Keys, np.spec.Denies(Egress))
      ensures groups == DenyTakesAll(m, old(groups), np)
    {
      var left := np.localPods.Keys;
      ghost var before, done: set<string> := groups, {};
      DeleteNone(m, np, LastHeld(m, np, Ingress), LastHeld(m, np, Egress), groups);
      while left != {}
        invariant done + left == np.localPods.Keys && done !! left && DeniesDeleted(m, before, np, done)
        decreases |left|
      {
        var port :| port in left;
        DeleteDefaultDeny(np, port, m, before, done);
        left := left - {port};
        done := done + {port};
      }
      assert done == np.localPods.Keys;
      HeldAll(m, np);
    }

    method DeleteAllPeerSets(np: Np)
      requires RulesInRange(np)
      modifies this`sets
      ensures sets == old(sets) - PeerSets(Namer(hash), np)
    {
      DeletePeerSets(np, Ingress);
      DeletePeerSets(np, Egress);
      AllPeerSets(Namer(hash), np, old(sets));
    }

    method StopPolicy(id: nat, np: Np, ghost m: Mem)
      requires RulesInRange(np) && m.inCount == inCount && m.egCount == egCount && m.lsps == lsps
      modifies this`nps, this`sets, this`groups, this`inCount, this`egCount
      ensures nps == old(nps)[id := np.(deleted := true)] && sets == old(sets) - PeerSets(Namer(hash), np)
      ensures inCount == DecAll(m.inCount, np.localPods.Keys, np.spec.Denies(Ingress))
      ensures egCount == DecAll(m.egCount, np.localPods.Keys, np.spec.Denies(Egress))
      ensures groups == DenyTakesAll(m, old(groups), np)
    {
      nps := nps[id := np.(deleted := true)];
      DeleteAllPeerSets(np);
      DeleteDefaultDenies(np, m);
    }

    method RemovePolicy(key: (string, string), id: nat, np: Np)
      requires RulesInRange(np)
      modifies this`nps, this`byKey, this`sets, this`groups, this`inCount, this`egCount, this`acls
      ensures nps == old(nps)[id := np.(deleted := true)] && byKey == old(byKey) - {key}
      ensures inCount == DecAll(old(inCount), np.localPods.Keys, np.spec.Denies(Ingress))
      ensures egCount == DecAll(old(egCount), np.localPods.Keys, np.spec.Denies(Egress))
      ensures acls == RemoveOwned(old(acls), np.group)
              && groups == DenyTakesAll(old(Memory()), old(groups), np) - {np.group}
      ensures sets == old(sets) - PeerSets(Namer(hash), np)
    {
      StopPolicy(id, np, Memory());
      groups := groups - {np.group};
      acls := RemoveOwned(acls, np.group);
      byKey := byKey - {key};
    }

    method DeleteNetworkPolicy(ns: string, name: string)
      requires (ns, name) in byKey && byKey[(ns, name)] in nps ==> RulesInRange(nps[byKey[(ns, name)]])
      modifies this
      ensures Memory() == MemStep(hash, old(Memory()), PolicyDelete(ns, name))
      ensures Database() == DbStep(hash, MatchText, old(Memory()), old(Database()), PolicyDelete(ns, name))
    {
      if (ns, name) !in byKey || byKey[(ns, name)] !in nps {
        return;
      }
      PolicyDeleteStep(hash, Memory(), Database(), ns, name);
      RemovePolicy((ns, name), byKey[(ns, name)], nps[byKey[(ns, name)]]);
    }

    // ------------------------------------------------------- pods and namespaces

    method AddLogicalPort(port: string, pod: Pod)
      modifies this`lsps
      ensures Memory() == MemStep(hash, old(Memory()), PodUp(port, pod))
      ensures Database() == DbStep(hash, MatchText, old(Memory()), old(Database()), PodUp(port, pod))
    {
      lsps := lsps[port := pod];
    }

    /** deleteLogicalPort: lsp-del takes the port out of every group, and its counters go. */
    method DeleteLogicalPort(port: string)
      modifies this
      ensures Memory() == MemStep(hash, old(Memory()), PodDown(port))
      ensures Database() == DbStep(hash, MatchText, old(Memory()), old(Database()), PodDown(port))
    {
      lsps := lsps - {port};
      groups := map g | g in groups :: groups[g] - {port};
      inCount := inCount - {port};
      egCount := egCount - {port};
    }

    /** AddNamespace; `podIps` are the addresses of the pods the API server lists. */
    method AddNamespace(ns: string, podIps: seq<Ip>)
      modifies this`nsAddresses, this`sets
      ensures Memory() == MemStep(hash, old(Memory()), NamespaceAdd(ns, Addresses(podIps)))
      ensures Database() == DbStep(hash, MatchText, old(Memory()), old(Database()), NamespaceAdd(ns, Addresses(podIps)))
    {
      var addresses: set<Ip> := {};
      var i := 0;
      while i < |podIps|
        invariant 0 <= i <= |podIps| && addresses == Addresses(podIps[..i])
      {
        assert podIps[..i + 1] == podIps[..i] + [podIps[i]];
        addresses := addresses + {podIps[i]};
        i := i + 1;
      }
      assert podIps[..i] == podIps;
      nsAddresses := nsAddresses[ns := addresses];
      sets := sets[hash(ns) := addresses];
    }

    method DeleteNamespace(ns: string)
      modifies this`nsAddresses, this`sets
      ensures Memory() == MemStep(hash, old(Memory()), NamespaceDel(ns))
      ensures Database() == DbStep(hash, MatchText, old(Memory()), old(Database()), NamespaceDel(ns))
    {
      if ns !in nsAddresses {
        assert nsAddresses - {ns} == nsAddresses;
        return;
      }
      sets := sets - {hash(ns)};
      nsAddresses := nsAddresses - {ns};
    }

    method AddPodToNamespaceAddressSet(ns: string, ip: Ip)
      modifies this`nsAddresses, this`sets
      ensures Memory() == MemStep(hash, old(Memory()), NamespacePodAdd(ns, ip))
      ensures Database() == DbStep(hash, MatchText, old(Memory()), old(Database()), NamespacePodAdd(ns, ip))
    {
      if ns !in nsAddresses {
        return;
      }
      if ip in nsAddresses[ns] {
        assert nsAddresses[ns] + {ip} == nsAddresses[ns];
        return;
      }
      nsAddresses := nsAddresses[ns := nsAddresses[ns] + {ip}];
      sets := sets[hash(ns) := nsAddresses[ns]];
    }

    method DeletePodFromNamespaceAddressSet(ns: string, ip: Ip)
      modifies this`nsAddresses, this`sets
      ensures Memory() == MemStep(hash, old(Memory()), NamespacePodDel(ns, ip))
      ensures Database() == DbStep(hash, MatchText, old(Memory()), old(Database()), NamespacePodDel(ns, ip))
    {
      if ns !in nsAddresses {
        return;
      }
      if ip !in nsAddresses[ns] {
        assert nsAddresses[ns] - {ip} == nsAddresses[ns];
        return;
      }
      nsAddresses := nsAddresses[ns := nsAddresses[ns] - {ip}];
      sets := sets[hash(ns) := nsAddresses[ns]];
    }
  }

  lemma PolicyDeleteStep(h: string -> string, m: Mem, db: Db, ns: string, name: string)
    requires (ns, name) in m.byKey && m.byKey[(ns, name)] in m.nps
    ensures var id := m.byKey[(ns, name)];
            MemStep(h, m, PolicyDelete(ns, name)) ==
            m.(nps := m.nps[id := m.nps[id].(deleted := true)], byKey := m.byKey - {(ns, name)},
               inCount := DecAll(m.inCount, m.nps[id].localPods.Keys, m.nps[id].spec.Denies(Ingress)),
               egCount := DecAll(m.egCount, m.nps[id].localPods.Keys, m.nps[id].spec.Denies(Egress)))
    ensures var np := m.nps[m.byKey[(ns, name)]];
            DbStep(h, MatchText, m, db, PolicyDelete(ns, name)) ==
            Db(RemoveOwned(db.acls, np.group), DenyTakesAll(m, db.groups, np) - {np.group},
               db.sets - PeerSets(Namer(h), np), db.ready)
  {
  }

  lemma AllPeerSets(loc: SetNamer, np: Np, sets: map<string, set<Ip>>)
    requires RulesInRange(np)
    ensures sets - FirstPeerSets(loc, np, Ingress,
                                 |np.spec.Rules(Ingress)|) - FirstPeerSets(loc, np, Egress, |np.spec.Rules(Egress)|)
         == sets - PeerSets(loc, np)
  {
  }

  lemma HeldAll(m: Mem, np: Np)
    ensures LastHeld(m, np, Ingress) * np.localPods.Keys == LastHeld(m, np, Ingress)
    ensures LastHeld(m, np, Egress) * np.localPods.Keys == LastHeld(m, np, Egress)
  {
  }

  lemma DeleteNone(m: Mem, np: Np, lastIn: set<string>, lastEg: set<string>, groups: map<string, set<string>>)
    ensures DecAll(m.inCount, {}, np.spec.Denies(Ingress)) == m.inCount
            && DecAll(m.egCount, {}, np.spec.Denies(Egress)) == m.egCount
    ensures DenyTaken(groups, lastIn * {}, lastEg * {}) == groups
  {
    assert lastIn * {} == {} && lastEg * {} == {};
    TakeNone(groups, DenyGroup(Ingress));
    TakeNone(groups, DenyGroup(Egress));
  }

  /** One turn of that loop: the counters and groups of the port alone change. */
  lemma DeleteOne(m: Mem, groups: map<string, set<string>>, np: Np, done: set<string>, port: string, now: Mem)
    requires port in np.localPods && port !in done && now.lsps == m.lsps
    requires now.inCount == DecAll(m.inCount, done, np.spec.Denies(Ingress))
             && now.egCount == DecAll(m.egCount, done, np.spec.Denies(Egress))
    ensures Dec(now.inCount, port, np.spec.Denies(Ingress)) == DecAll(m.inCount, done + {port}, np.spec.Denies(Ingress))
    ensures Dec(now.egCount, port, np.spec.Denies(Egress)) == DecAll(m.egCount, done + {port}, np.spec.Denies(Egress))
    ensures DenyTakes(now, DenyTaken(groups, LastHeld(m, np, Ingress) * done, LastHeld(m, np, Egress) * done), np, port)
         == DenyTaken(groups, LastHeld(m, np, Ingress) * (done + {port}), LastHeld(m, np, Egress) * (done + {port}))
  {
    DecOneMore(m.inCount, done, port, np.spec.Denies(Ingress));
    DecOneMore(m.egCount, done, port, np.spec.Denies(Egress));
    assert port in LastHeld(now, np, Ingress) <==> port in LastHeld(m, np, Ingress);
    assert port in LastHeld(now, np, Egress) <==> port in LastHeld(m, np, Egress);
    TakeBoth(groups, LastHeld(m, np, Ingress), LastHeld(m, np, Egress), done, port);
  }

  lemma DecOneMore(counts: map<string, nat>, done: set<string>, port: string, on: bool)
    requires port !in done
    ensures Get(DecAll(counts, done, on), port) == Get(counts, port)
    ensures Dec(DecAll(counts, done, on), port, on) == DecAll(counts, done + {port}, on)
  {
  }

  lemma TakeNone(groups: map<string, set<string>>, g: string)
    ensures TakeAll(groups, g, {}) == groups
  {
    if g in groups {
      assert groups[g] - {} == groups[g];
    }
  }

  lemma TakeAnother(groups: map<string, set<string>>, g: string, a: set<string>, done: set<string>, port: string)
    ensures Take(TakeAll(groups, g, a * done), g, port, port in a) == TakeAll(groups, g, a * (done + {port}))
  {
    assert a * (done + {port}) == if port in a then a * done + {port} else a * done;
    if g in groups && port in a {
      assert groups[g] - a * done - {port} == groups[g] - (a * done + {port});
    }
  }

  lemma TakeSwap(groups: map<string, set<string>>, g: string, ps: set<string>, g': string, port: string, on: bool)
    requires g != g'
    ensures Take(TakeAll(groups, g, ps), g', port, on) == TakeAll(Take(groups, g', port, on), g, ps)
  {
  }

  lemma TakeBoth(groups: map<string, set<string>>, a: set<string>, b: set<string>, done: set<string>, port: string)
    ensures Take(Take(TakeAll(TakeAll(groups, DenyGroup(Ingress), a * done), DenyGroup(Egress), b * done),
                      DenyGroup(Ingress), port, port in a), DenyGroup(Egress), port, port in b)
         == TakeAll(TakeAll(groups, DenyGroup(Ingress), a * (done + {port})), DenyGroup(Egress), b * (done + {port}))
  {
    assert DenyGroup(Ingress)[0] != DenyGroup(Egress)[0];
    TakeSwap(TakeAll(groups, DenyGroup(Ingress), a * done), DenyGroup(Egress), b * done, DenyGroup(Ingress), port,
             port in a);
    TakeAnother(groups, DenyGroup(Ingress), a, done, port);
    TakeAnother(TakeAll(groups, DenyGroup(Ingress), a * (done + {port})), DenyGroup(Egress), b, done, port);
  }
}
