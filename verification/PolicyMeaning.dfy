/** What both back-ends' ACLs mean: priority evaluation over three tiers, and the match of one
    rule's ACLs against the reference. */
module PolicyMeaning {
  import opened Strings
  import opened Acl
  import opened Gress
  import opened PolicyWorld
  import opened PolicyMemory
  import opened AclRows
  import opened AddressSets

  // ------------------------------------------------------- three tiers of priorities

  /** The three kinds of ACL the controller writes. */
  predicate Tiered(a: Acl) {
    || (a.priority == IP_BLOCK_DENY_PRIORITY && a.action == Drop)
    || (a.priority == DEFAULT_ALLOW_PRIORITY && a.action != Drop)
    || (a.priority == DEFAULT_DENY_PRIORITY && a.action == Drop)
  }

  ghost predicate Hit(acls: iset<Acl>, priority: nat, pkt: Packet, env: Env) {
    exists a | a in acls :: a.priority == priority && Matches(a.match_, pkt, env)
  }

  ghost predicate TierDrops(acls: iset<Acl>, pkt: Packet, env: Env) {
    || Hit(acls, IP_BLOCK_DENY_PRIORITY, pkt, env)
    || (!Hit(acls, DEFAULT_ALLOW_PRIORITY, pkt, env) && Hit(acls, DEFAULT_DENY_PRIORITY, pkt, env))
  }

  /** With these tiers, evaluation is unambiguous: a packet is dropped exactly when an except
      ACL matches, or no allow ACL does and a default deny does. */
  lemma TierVerdict(acls: iset<Acl>, pkt: Packet, env: Env)
    requires forall a | a in acls :: Tiered(a)
    ensures MayDrop(acls, pkt, env) <==> TierDrops(acls, pkt, env)
    ensures MayPass(acls, pkt, env) <==> !TierDrops(acls, pkt, env)
  {
    if Hit(acls, IP_BLOCK_DENY_PRIORITY, pkt, env) {
      TopDecides(acls, IP_BLOCK_DENY_PRIORITY, pkt, env);
    } else if Hit(acls, DEFAULT_ALLOW_PRIORITY, pkt, env) {
      TopDecides(acls, DEFAULT_ALLOW_PRIORITY, pkt, env);
    } else if Hit(acls, DEFAULT_DENY_PRIORITY, pkt, env) {
      TopDecides(acls, DEFAULT_DENY_PRIORITY, pkt, env);
    }
  }

  lemma TopDecides(acls: iset<Acl>, priority: nat, pkt: Packet, env: Env)
    requires Hit(acls, priority, pkt, env)
    requires forall a | a in acls && Matches(a.match_, pkt, env) :: a.priority <= priority
    ensures exists a :: Decides(acls, a, pkt, env) && a.priority == priority
    ensures forall a | Decides(acls, a, pkt, env) :: a.priority == priority
  {
  }

  // ------------------------------------------------------- one rule

  /** The sets named by a rule's peer list hold the pods it selects. */
  ghost predicate SetsHold(h: string -> string, loc: SetNamer, spec: PolicySpec, rid: RuleId, wr: WRule,
                           nsPods: map<string, set<Ip>>, sets: map<string, set<Ip>>) {
    && (wr.spec.peers != [] ==> loc(spec, rid) in sets && sets[loc(spec, rid)] == wr.podIps)
    && (forall ns | ns in wr.namespaces :: h(ns) in sets <==> ns in nsPods)
    && (forall ns | ns in wr.namespaces && ns in nsPods :: sets[h(ns)] == nsPods[ns])
  }

  lemma UnknownNamespace(h: string -> string, loc: SetNamer, nps: map<nat, Np>, nsPods: map<string, set<Ip>>,
                         sets: map<string, set<Ip>>, ns: string)
    requires GoodNamer(h, loc) && SetsOk(h, loc, nps, nsPods, sets) && Label(ns)
    ensures h(ns) in sets <==> ns in nsPods
    ensures ns in nsPods ==> sets[h(ns)] == nsPods[ns]
  {
    if h(ns) in sets {
      assert KnownSet(h, loc, nps, nsPods, h(ns));
    }
  }

  lemma SetsHoldOf(h: string -> string, loc: SetNamer, nps: map<nat, Np>, nsPods: map<string, set<Ip>>,
                   sets: map<string, set<Ip>>, id: nat, rid: RuleId, wr: WRule)
    requires GoodNamer(h, loc) && SetsOk(h, loc, nps, nsPods, sets) && id in nps && !nps[id].deleted
    requires RuleOk(nps[id].spec, rid, wr) && rid in nps[id].rules && rid in nps[id].addressMaps
             && nps[id].addressMaps[rid] == wr.podIps
    ensures SetsHold(h, loc, nps[id].spec, rid, wr, nsPods, sets)
  {
    if wr.spec.peers != [] {
      assert PeerSet(nps, id, rid);
    }
    forall ns | ns in wr.namespaces
      ensures h(ns) in sets <==> ns in nsPods
      ensures ns in nsPods ==> sets[h(ns)] == nsPods[ns]
    {
      UnknownNamespace(h, loc, nps, nsPods, sets, ns);
    }
  }

  lemma PeersMeaning(h: string -> string, w: World, spec: PolicySpec, rid: RuleId, wr: WRule, r: Rule, ip: Ip, env: Env)
    requires RuleSim(h, spec, rid, wr, r) && RuleOk(spec, rid, wr)
             && SetsHold(h, Namer(h), spec, rid, wr, w.nsPods, env.addressSets)
    ensures L3Holds(PeersL3(r.peers), ip, env) <==> PeersAllow(w, wr, ip)
  {
    assert r.peers == [] || r.peers[0] in Elements(r.peers);
    if wr.spec.peers != [] {
      var own := h(LocalPeerPods(spec, rid));
      assert own in Elements(r.peers);
      if ns :| ns in wr.namespaces && ns in w.nsPods && ip in w.nsPods[ns] {
        assert h(ns) in PeerNames(h, spec, rid, wr);
        assert h(ns) in r.peers;
      }
      if n :| n in r.peers && n in env.addressSets && ip in env.addressSets[n] {
        assert n in Elements(r.peers);
        assert n in PeerNames(h, spec, rid, wr);
      }
    }
  }

  predicate RuleMatches(rid: RuleId, r: Rule, k: Kind, lport: LPortMatch, pkt: Packet, env: Env) {
    HasKind(r, k) && Matches(AclOf(rid, r, k, lport).match_, pkt, env)
  }

  /** The except ACL of a rule matches exactly when the port matches and the rule's block
      excepts the peer. */
  lemma ExceptMeaning(rid: RuleId, r: Rule, lport: LPortMatch, pkt: Packet, env: Env)
    ensures RuleMatches(rid, r, ExceptKind, lport, pkt, env)
       <==> LPortHolds(lport, LocalPort(rid.dir, pkt), env)
            && BlockExcepts(IPBlock(r.cidr, r.except), PeerIp(rid.dir, pkt), env.inBlock)
  {
  }

  predicate IsAllow(k: Kind) { k.CidrKind? || k.PeersKind? }

  /** One of the allow ACLs of a rule matches exactly when the port matches, the port list
      allows the packet, and the peers or the block contain the peer. */
  lemma AllowMeaning(rid: RuleId, r: Rule, lport: LPortMatch, pkt: Packet, env: Env)
    ensures (exists k :: IsAllow(k) && RuleMatches(rid, r, k, lport, pkt, env))
       <==> LPortHolds(lport, LocalPort(rid.dir, pkt), env) && PortsAllow(r.ports, pkt.l4)
            && (L3Holds(PeersL3(r.peers), PeerIp(rid.dir, pkt), env)
                || BlockAllows(IPBlock(r.cidr, r.except), PeerIp(rid.dir, pkt), env.inBlock))
  {
    L4MatchesMeaning(r.ports, pkt.l4);
    var ip := PeerIp(rid.dir, pkt);
    if PortsAllow(r.ports, pkt.l4) {
      var l4 := if NoneMatch in L4Matches(r.ports) then NoneMatch else pkt.l4;
      assert RuleMatches(rid, r, PeersKind(l4), lport, pkt, env)
        <==> LPortHolds(lport, LocalPort(rid.dir, pkt), env) && L3Holds(PeersL3(r.peers), ip, env);
      assert r.cidr in [r.cidr];
      assert RuleMatches(rid, r, CidrKind(l4), lport, pkt, env)
        <==> LPortHolds(lport, LocalPort(rid.dir, pkt), env) && BlockAllows(IPBlock(r.cidr, r.except), ip, env.inBlock);
    }
  }

  // ------------------------------------------------------- all rules

  /** A rule of a live policy that selects the packet's port has an ACL of kind `k` that matches
      once the port does. */
  ghost predicate KindHit(nps: map<nat, Np>, id: nat, rid: RuleId, k: Kind, dir: Direction, pkt: Packet, env: Env) {
    && id in nps && !nps[id].deleted && rid in nps[id].rules && rid.dir == dir
    && LocalPort(dir, pkt) in nps[id].localPods
    && RuleMatches(rid, nps[id].rules[rid], k, LogicalPort(LocalPort(dir, pkt)), pkt, env)
  }

  /** Everything a rule's matches depend on agrees with the reference. */
  ghost predicate Agrees(h: string -> string, w: World, nps: map<nat, Np>, id: nat, rid: RuleId,
                         sets: map<string, set<Ip>>) {
    && id in w.policies && rid in w.policies[id].rules && id in nps && !nps[id].deleted && rid in nps[id].rules
    && nps[id].spec == w.policies[id].spec && nps[id].localPods == w.policies[id].pods
    && RuleOk(nps[id].spec, rid, w.policies[id].rules[rid])
    && RuleSim(h, nps[id].spec, rid, w.policies[id].rules[rid], nps[id].rules[rid])
    && SetsHold(h, Namer(h), nps[id].spec, rid, w.policies[id].rules[rid], w.nsPods, sets)
  }

  ghost predicate RulesAgree(h: string -> string, w: World, nps: map<nat, Np>, sets: map<string, set<Ip>>) {
    forall id: nat, rid: RuleId | HasRule(w, id, rid) || (id in nps && !nps[id].deleted && rid in nps[id].rules) ::
      Agrees(h, w, nps, id, rid, sets)
  }

  lemma OneAgrees(h: string -> string, w: World, m: Mem, sets: map<string, set<Ip>>, id: nat, rid: RuleId)
    requires GoodNamer(h, Namer(h)) && WorldOk(w) && Sim(h, w, m) && SetsOk(h, Namer(h), m.nps, m.nsAddresses, sets)
    requires HasRule(w, id, rid) || (id in m.nps && !m.nps[id].deleted && rid in m.nps[id].rules)
    ensures Agrees(h, w, m.nps, id, rid, sets)
  {
    assert id in w.policies && NpSim(h, w.policies[id], m.nps[id]) && PolicyOk(w, w.policies[id]);
    SetsHoldOf(h, Namer(h), m.nps, m.nsAddresses, sets, id, rid, w.policies[id].rules[rid]);
  }

  lemma RulesAgreeOf(h: string -> string, w: World, m: Mem, sets: map<string, set<Ip>>)
    requires GoodHash(h) && WorldOk(w) && Sim(h, w, m) && SetsOk(h, Namer(h), m.nps, m.nsAddresses, sets)
    ensures RulesAgree(h, w, m.nps, sets)
  {
    NamerIsGood(h);
    forall id: nat, rid: RuleId | HasRule(w, id, rid) || (id in m.nps && !m.nps[id].deleted && rid in m.nps[id].rules)
      ensures Agrees(h, w, m.nps, id, rid, sets)
    {
      OneAgrees(h, w, m, sets, id, rid);
    }
  }

  lemma RuleAgrees(h: string -> string, w: World, nps: map<nat, Np>, id: nat, rid: RuleId, dir: Direction, pkt: Packet,
                   env: Env)
    requires Agrees(h, w, nps, id, rid, env.addressSets) && rid.dir == dir
    ensures KindHit(nps, id, rid, ExceptKind, dir, pkt, env) <==>
            Selects(w, id, rid, dir, pkt)
            && BlockExcepts(LastBlock(w.policies[id].rules[rid].spec.peers), PeerIp(dir, pkt), env.inBlock)
    ensures (exists k :: IsAllow(k) && KindHit(nps, id, rid, k, dir, pkt, env)) <==>
            Selects(w, id, rid, dir, pkt)
            && RuleAllows(w, w.policies[id].rules[rid], PeerIp(dir, pkt), pkt.l4, env.inBlock)
  {
    var r, wr, lport := nps[id].rules[rid], w.policies[id].rules[rid], LogicalPort(LocalPort(dir, pkt));
    ExceptMeaning(rid, r, lport, pkt, env);
    AllowMeaning(rid, r, lport, pkt, env);
    PeersMeaning(h, w, nps[id].spec, rid, wr, r, PeerIp(dir, pkt), env);
    if k :| LocalPort(dir, pkt) in nps[id].localPods && IsAllow(k) && RuleMatches(rid, r, k, lport, pkt, env) {
      assert KindHit(nps, id, rid, k, dir, pkt, env);
    }
  }

  ghost predicate ExceptHit(nps: map<nat, Np>, dir: Direction, pkt: Packet, env: Env) {
    exists id: nat, rid :: KindHit(nps, id, rid, ExceptKind, dir, pkt, env)
  }

  ghost predicate AllowHit(nps: map<nat, Np>, dir: Direction, pkt: Packet, env: Env) {
    exists id: nat, rid, k :: IsAllow(k) && KindHit(nps, id, rid, k, dir, pkt, env)
  }

  lemma ExceptTier(h: string -> string, w: World, nps: map<nat, Np>, dir: Direction, pkt: Packet, env: Env)
    requires RulesAgree(h, w, nps, env.addressSets)
    ensures ExceptHit(nps, dir, pkt, env) <==> Excepted(w, dir, pkt, env.inBlock)
  {
    if id: nat, rid :| KindHit(nps, id, rid, ExceptKind, dir, pkt, env) {
      RuleAgrees(h, w, nps, id, rid, dir, pkt, env);
    }
    if id: nat, rid :| Selects(w, id, rid, dir, pkt)
                       && BlockExcepts(LastBlock(w.policies[id].rules[rid].spec.peers), PeerIp(dir, pkt), env.inBlock) {
      assert HasRule(w, id, rid);
      RuleAgrees(h, w, nps, id, rid, dir, pkt, env);
    }
  }

  lemma AllowTier(h: string -> string, w: World, nps: map<nat, Np>, dir: Direction, pkt: Packet, env: Env)
    requires RulesAgree(h, w, nps, env.addressSets)
    ensures AllowHit(nps, dir, pkt, env) <==> Allowed(w, dir, pkt, env.inBlock)
  {
    if id: nat, rid, k :| IsAllow(k) && KindHit(nps, id, rid, k, dir, pkt, env) {
      RuleAgrees(h, w, nps, id, rid, dir, pkt, env);
    }
    if id: nat, rid :| Selects(w, id, rid, dir, pkt)
                       && RuleAllows(w, w.policies[id].rules[rid], PeerIp(dir, pkt), pkt.l4, env.inBlock) {
      assert HasRule(w, id, rid);
      RuleAgrees(h, w, nps, id, rid, dir, pkt, env);
    }
  }

  /** The ACLs of one direction as one port sees them: which tiers have a match. */
  ghost predicate Represents(acls: iset<Acl>, nps: map<nat, Np>, dir: Direction, pkt: Packet, env: Env, denied: bool) {
    && (forall a | a in acls :: Tiered(a))
    && (Hit(acls, IP_BLOCK_DENY_PRIORITY, pkt, env) <==> ExceptHit(nps, dir, pkt, env))
    && (Hit(acls, DEFAULT_ALLOW_PRIORITY, pkt, env) <==> AllowHit(nps, dir, pkt, env))
    && (Hit(acls, DEFAULT_DENY_PRIORITY, pkt, env) <==> denied)
  }

  lemma Verdict(h: string -> string, w: World, nps: map<nat, Np>, acls: iset<Acl>, dir: Direction, pkt: Packet,
                env: Env)
    requires RulesAgree(h, w, nps, env.addressSets)
    requires Represents(acls, nps, dir, pkt, env, Holders(w.policies, dir, LocalPort(dir, pkt)) != {})
    ensures MayDrop(acls, pkt, env) <==> Dropped(w, dir, pkt, env.inBlock)
    ensures MayPass(acls, pkt, env) <==> !Dropped(w, dir, pkt, env.inBlock)
  {
    TierVerdict(acls, pkt, env);
    ExceptTier(h, w, nps, dir, pkt, env);
    AllowTier(h, w, nps, dir, pkt, env);
  }
}
