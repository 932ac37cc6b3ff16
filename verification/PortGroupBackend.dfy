/** The port-group back-end over whole runs: ACL rows, port groups and address sets, edited event
    by event (policy.go, namespace.go, pods.go, common.go), always hold exactly what the
    controller's memory calls for. */
module PortGroupBackend {
  import opened Acl
  import opened Gress
  import opened PolicyWorld
  import opened PolicyMemory
  import opened AclRows
  import opened AclTable
  import opened AddressSets

  /** `ready`: the two default-deny groups have been created. */
  datatype Db = Db(acls: Table, groups: map<string, set<string>>, sets: map<string, set<Ip>>, ready: bool)

  // ------------------------------------------------------- ACL rows

  predicate PodIsNew(m: Mem, id: nat, port: string) { Live(m, id) && port in m.lsps && port !in m.nps[id].localPods }

  function ModifyPeers(txt: Printer, t: Table, np: Np, rid: RuleId, peers: seq<string>): Table
    requires rid in np.rules
  {
    if peers == np.rules[rid].peers then t
    else ModifyRows(txt, t, OwnerOf(np), rid, np.rules[rid].peers, peers, L4Matches(np.rules[rid].ports))
  }

  function AclStep(h: string -> string, txt: Printer, m: Mem, t: Table, ready: bool, ev: Event): Table {
    match ev
    case RuleAdd(id, rid) =>
      if Live(m, id) && rid.idx < |m.nps[id].spec.Rules(rid.dir)|
      then AddRows(t, RowList(OwnerOf(m.nps[id]), rid, NewRule(h, m.nps[id].spec, rid))) else t
    case PeerNsAdd(id, rid, ns) =>
      if LiveRule(m, id, rid) then ModifyPeers(txt, t, m.nps[id], rid, AddPeer(m.nps[id].rules[rid].peers, h(ns)))
      else t
    case PeerNsDel(id, rid, ns) =>
      if LiveRule(m, id, rid) then ModifyPeers(txt, t, m.nps[id], rid, Remove(m.nps[id].rules[rid].peers, h(ns))) else t
    case LocalPodAdd(id, port) =>
      if PodIsNew(m, id, port) && !ready then AddRows(t, [DenyRow(Ingress), DenyRow(Egress)]) else t
    case PolicyDelete(ns, name) =>
      if (ns, name) in m.byKey && m.byKey[(ns, name)] in m.nps then RemoveOwned(t, m.nps[m.byKey[(ns, name)]].group)
      else t
    case _ => t
  }

  function ReadyStep(m: Mem, ready: bool, ev: Event): bool {
    ready || (ev.LocalPodAdd? && PodIsNew(m, ev.id, ev.port))
  }

  lemma RuleAddRows(t: Table, nps: map<nat, Np>, ready: bool, id: nat, rid: RuleId, np: Np)
    requires MemOk(nps[id := np]) && TableOk(t, Expected(nps, ready))
    requires id in nps && !nps[id].deleted && !np.deleted && OwnerOf(np) == OwnerOf(nps[id])
    requires rid !in nps[id].rules && rid in np.rules && np.rules == nps[id].rules[rid := np.rules[rid]]
    ensures TableOk(AddRows(t, RowList(OwnerOf(np), rid, np.rules[rid])), Expected(nps[id := np], ready))
  {
    ExpectedRuleAdd(nps, ready, id, rid, np);
    ExpectedIds(nps[id := np], ready);
    AddRowsOk(t, Expected(nps, ready), RowList(OwnerOf(np), rid, np.rules[rid]));
  }

  lemma DenyRows(t: Table, nps: map<nat, Np>)
    requires MemOk(nps) && TableOk(t, Expected(nps, false))
    ensures TableOk(AddRows(t, [DenyRow(Ingress), DenyRow(Egress)]), Expected(nps, true))
  {
    ExpectedIds(nps, true);
    var rows := [DenyRow(Ingress), DenyRow(Egress)];
    forall row ensures row in Expected(nps, true) <==> row in Expected(nps, false) + Rows(rows) {
      if dir :| row == DenyRow(dir) {
        assert row == rows[0] || row == rows[1];
      }
    }
    assert Expected(nps, true) == Expected(nps, false) + Rows(rows);
    AddRowsOk(t, Expected(nps, false), rows);
  }

  /** A peer change rewrites exactly the rule's rows: every lookup by the old text succeeds. */
  lemma ModifyPeersOk(txt: Printer, t: Table, nps: map<nat, Np>, ready: bool, id: nat, rid: RuleId, peers: seq<string>)
    requires GoodPrinter(txt) && MemOk(nps) && TableOk(t, Expected(nps, ready)) && id in nps && !nps[id].deleted
             && rid in nps[id].rules
    requires nps[id].rules[rid].peers != [] && peers != [] && PlainRule(nps[id].rules[rid].(peers := peers))
    ensures TableOk(ModifyPeers(txt, t, nps[id], rid, peers),
                    Expected(nps[id := WithPeers(nps[id], rid, peers)], ready))
  {
    var np := nps[id];
    var r := np.rules[rid];
    if peers == r.peers {
      assert np.rules[rid := r.(peers := peers)] == np.rules;
      assert nps[id := WithPeers(np, rid, peers)] == nps;
    } else {
      assert PlainRule(r);
      TableRuleRows(t, nps, ready, id, rid, peers);
      ModifyRowsOk(txt, t, OwnerOf(np), rid, r, [], peers, L4Matches(r.ports));
      RewriteOk(t, nps, ready, id, rid, peers);
    }
  }

  // ------------------------------------------------------- port groups

  function Put(groups: map<string, set<string>>, g: string, p: string, on: bool): map<string, set<string>> {
    if on && g in groups then groups[g := groups[g] + {p}] else groups
  }

  function Take(groups: map<string, set<string>>, g: string, p: string, on: bool): map<string, set<string>> {
    if on && g in groups then groups[g := groups[g] - {p}] else groups
  }

  function TakeAll(groups: map<string, set<string>>, g: string, ps: set<string>): map<string, set<string>> {
    if g in groups then groups[g := groups[g] - ps] else groups
  }

  /** createDefaultDenyPortGroup for both directions. */
  function WithDenyGroups(groups: map<string, set<string>>, ready: bool): map<string, set<string>> {
    if ready then groups else groups[DenyGroup(Ingress) := {}][DenyGroup(Egress) := {}]
  }

  /** The ports whose last default deny in the direction is the given policy's. */
  function LastHeld(m: Mem, np: Np, dir: Direction): set<string> {
    set p | p in np.localPods && np.spec.Denies(dir) && Count(m, dir, p) == 1 && p in m.lsps
  }

  function DenyAdds(m: Mem, groups: map<string, set<string>>, ready: bool, np: Np,
                    port: string): map<string, set<string>> {
    var g := Put(WithDenyGroups(groups, ready), DenyGroup(Ingress), port, np.spec.Denies(Ingress)
                 && Count(m, Ingress, port) == 0);
    Put(g, DenyGroup(Egress), port, np.spec.Denies(Egress) && Count(m, Egress, port) == 0)
  }

  function DenyTakes(m: Mem, groups: map<string, set<string>>, np: Np, port: string): map<string, set<string>> {
    var g := Take(groups, DenyGroup(Ingress), port, port in LastHeld(m, np, Ingress));
    Take(g, DenyGroup(Egress), port, port in LastHeld(m, np, Egress))
  }

  function DenyTakesAll(m: Mem, groups: map<string, set<string>>, np: Np): map<string, set<string>> {
    TakeAll(TakeAll(groups, DenyGroup(Ingress), LastHeld(m, np, Ingress)), DenyGroup(Egress), LastHeld(m, np, Egress))
  }

  function GroupStep(h: string -> string, m: Mem, groups: map<string, set<string>>, ready: bool,
                     ev: Event): map<string, set<string>> {
    match ev
    case PolicyAdd(id, spec) =>
      if spec.Key() in m.byKey || spec.ns !in m.nsAddresses || id in m.nps then groups
      else if h(ReadableGroup(spec)) in groups then groups else groups[h(ReadableGroup(spec)) := {}]
    case PolicyDelete(ns, name) =>
      if (ns, name) !in m.byKey || m.byKey[(ns, name)] !in m.nps then groups
      else
        var np := m.nps[m.byKey[(ns, name)]];
        DenyTakesAll(m, groups, np) - {np.group}
    case LocalPodAdd(id, port) =>
      if !PodIsNew(m, id, port) then groups
      else Put(DenyAdds(m, groups, ready, m.nps[id], port), m.nps[id].group, port, true)
    case LocalPodDel(id, port) =>
      if !(Live(m, id) && port in m.nps[id].localPods) then groups
      else Take(DenyTakes(m, groups, m.nps[id], port), m.nps[id].group, port, port in m.lsps)
    case PodDown(port) => map g | g in groups :: groups[g] - {port}
    case _ => groups
  }

  /** A group's members are the ports that exist and are selected. */
  ghost predicate PolicyGroupsOk(m: Mem, groups: map<string, set<string>>) {
    forall id | Live(m, id) :: m.nps[id].group in groups
      && groups[m.nps[id].group] == set p | p in m.nps[id].localPods && p in m.lsps
  }

  /** A port is in a deny group exactly when its counter is positive. */
  ghost predicate DenyGroupOk(lsps: set<string>, counts: map<string, nat>, groups: map<string, set<string>>,
                              ready: bool, g: string) {
    if ready then g in groups && groups[g] == set p | p in lsps && Get(counts, p) > 0
    else g !in groups && forall p | p in lsps :: Get(counts, p) == 0
  }

  ghost predicate OnlyGroups(m: Mem, groups: map<string, set<string>>) {
    forall g | g in groups && g != DenyGroup(Ingress) && g != DenyGroup(Egress) ::
      exists id :: Live(m, id) && m.nps[id].group == g
  }

  ghost predicate GroupsOk(m: Mem, groups: map<string, set<string>>, ready: bool) {
    && PolicyGroupsOk(m, groups) && OnlyGroups(m, groups)
    && DenyGroupOk(m.lsps.Keys, m.inCount, groups, ready, DenyGroup(Ingress))
    && DenyGroupOk(m.lsps.Keys, m.egCount, groups, ready, DenyGroup(Egress))
  }

  function DbStep(h: string -> string, txt: Printer, m: Mem, db: Db, ev: Event): Db {
    Db(AclStep(h, txt, m, db.acls, db.ready, ev), GroupStep(h, m, db.groups, db.ready, ev),
       SetStep(h, Namer(h), m, db.sets, ev), ReadyStep(m, db.ready, ev))
  }

  // ------------------------------------------------------- ACL steps

  lemma AclRuleAdd(h: string -> string, txt: Printer, m: Mem, t: Table, ready: bool, id: nat, rid: RuleId)
    requires MemOk(MemStep(h, m, RuleAdd(id, rid)).nps) && TableOk(t, Expected(m.nps, ready))
    requires Live(m, id) ==> rid !in m.nps[id].rules
    ensures TableOk(AclStep(h, txt, m, t, ready, RuleAdd(id, rid)),
                    Expected(MemStep(h, m, RuleAdd(id, rid)).nps, ready))
  {
    if Live(m, id) && rid.idx < |m.nps[id].spec.Rules(rid.dir)| {
      RuleAddRows(t, m.nps, ready, id, rid, MemStep(h, m, RuleAdd(id, rid)).nps[id]);
    }
  }

  lemma AclPeers(h: string -> string, txt: Printer, m: Mem, t: Table, ready: bool, id: nat, rid: RuleId,
                 peers: seq<string>)
    requires GoodPrinter(txt) && MemOk(m.nps) && TableOk(t, Expected(m.nps, ready)) && LiveRule(m, id, rid)
    requires m.nps[id].rules[rid].peers != [] && peers != [] && PlainRule(m.nps[id].rules[rid].(peers := peers))
    ensures TableOk(ModifyPeers(txt, t, m.nps[id], rid, peers),
                    Expected(PutMemRule(m, id, rid, m.nps[id].rules[rid].(peers := peers),
                                        m.nps[id].addressMaps[rid]).nps, ready))
  {
    ModifyPeersOk(txt, t, m.nps, ready, id, rid, peers);
    assert m.nps[id].addressMaps[rid := m.nps[id].addressMaps[rid]] == m.nps[id].addressMaps;
  }

  lemma AclLocalPodAdd(h: string -> string, txt: Printer, m: Mem, t: Table, ready: bool, id: nat, port: string)
    requires MemOk(m.nps) && TableOk(t, Expected(m.nps, ready))
    ensures var ev := LocalPodAdd(id, port);
            TableOk(AclStep(h, txt, m, t, ready, ev), Expected(MemStep(h, m, ev).nps, ReadyStep(m, ready, ev)))
  {
    if PodIsNew(m, id, port) {
      if !ready {
        DenyRows(t, m.nps);
      }
      var m' := MemStep(h, m, LocalPodAdd(id, port));
      KeptUpdate(m.nps, id, m'.nps[id]);
      ExpectedSame(m.nps, m'.nps, true);
    }
  }

  lemma AclPolicyDelete(h: string -> string, txt: Printer, m: Mem, t: Table, ready: bool, ns: string, name: string)
    requires MemOk(m.nps) && TableOk(t, Expected(m.nps, ready))
    requires (ns, name) in m.byKey ==> Live(m, m.byKey[(ns, name)])
    ensures TableOk(AclStep(h, txt, m, t, ready, PolicyDelete(ns, name)),
                    Expected(MemStep(h, m, PolicyDelete(ns, name)).nps, ready))
  {
    if (ns, name) in m.byKey {
      RemoveOwnedOk(t, m.nps, ready, m.byKey[(ns, name)]);
    }
  }

  predicate KeepsRules(ev: Event) {
    ev.PolicyAdd? || ev.PeerPodAdd? || ev.PeerPodDel? || ev.LocalPodDel? || ev.PodUp? || ev.PodDown?
    || ev.NamespaceAdd? || ev.NamespaceDel? || ev.NamespacePodAdd? || ev.NamespacePodDel?
  }

  lemma AclsKept(t: Table, nps: map<nat, Np>, nps': map<nat, Np>, ready: bool)
    requires TableOk(t, Expected(nps, ready)) && RulesKept(nps, nps')
    ensures TableOk(t, Expected(nps', ready))
  {
    ExpectedSame(nps, nps', ready);
  }

  lemma AclStepIdle(h: string -> string, txt: Printer, m: Mem, t: Table, ready: bool, ev: Event)
    requires KeepsRules(ev)
    ensures AclStep(h, txt, m, t, ready, ev) == t
  {
  }

  lemma AclRest(h: string -> string, txt: Printer, m: Mem, t: Table, ready: bool, ev: Event)
    requires TableOk(t, Expected(m.nps, ready)) && KeepsRules(ev)
    ensures TableOk(AclStep(h, txt, m, t, ready, ev), Expected(MemStep(h, m, ev).nps, ready))
  {
    SameRules(h, m, ev);
    AclsKept(t, m.nps, MemStep(h, m, ev).nps, ready);
    AclStepIdle(h, txt, m, t, ready, ev);
  }

  lemma KeptUpdate(nps: map<nat, Np>, id: nat, np: Np)
    requires if id in nps && !nps[id].deleted
             then !np.deleted && OwnerOf(np) == OwnerOf(nps[id]) && np.rules == nps[id].rules
             else np.deleted || np.rules == map[]
    ensures RulesKept(nps, nps[id := np])
  {
  }

  lemma SameRules(h: string -> string, m: Mem, ev: Event)
    requires KeepsRules(ev)
    ensures RulesKept(m.nps, MemStep(h, m, ev).nps)
  {
    var m' := MemStep(h, m, ev);
    if ev.PeerPodAdd? || ev.PeerPodDel? {
      if LiveRule(m, ev.id, ev.rid) {
        assert m.nps[ev.id].rules[ev.rid := m.nps[ev.id].rules[ev.rid]] == m.nps[ev.id].rules;
        KeptUpdate(m.nps, ev.id, m'.nps[ev.id]);
      }
    } else if (ev.PolicyAdd? || ev.LocalPodDel?) && m' != m {
      KeptUpdate(m.nps, ev.id, m'.nps[ev.id]);
    }
  }

  lemma PeersStay(h: string -> string, w: World, m: Mem, id: nat, rid: RuleId)
    requires GoodHash(h) && WorldOk(w) && Sim(h, w, m) && HasPeers(w, id, rid) && LiveRule(m, id, rid)
    ensures m.nps[id].rules[rid].peers != []
  {
    RuleParts(h, w, m, id, rid);
    PeerNamesPlain(h, w.policies[id].spec, rid, w.policies[id].rules[rid], m.nps[id].rules[rid]);
  }

  lemma AclPeerNs(h: string -> string, txt: Printer, w: World, m: Mem, t: Table, ready: bool, ev: Event)
    requires GoodHash(h) && GoodPrinter(txt) && WorldOk(w) && Sim(h, w, m) && Legal(w, ev)
             && TableOk(t, Expected(m.nps, ready))
    requires ev.PeerNsAdd? || ev.PeerNsDel?
    ensures TableOk(AclStep(h, txt, m, t, ready, ev), Expected(MemStep(h, m, ev).nps, ready))
  {
    var id, rid := ev.id, ev.rid;
    if LiveRule(m, id, rid) {
      PeersStay(h, w, m, id, rid);
      var peers := MemStep(h, m, ev).nps[id].rules[rid].peers;
      assert peers != [] && PlainRule(m.nps[id].rules[rid].(peers := peers)) by { NextPeers(h, w, m, ev); }
      MemOkOf(h, w, m);
      AclPeers(h, txt, m, t, ready, id, rid, peers);
    }
  }

  lemma NextPeers(h: string -> string, w: World, m: Mem, ev: Event)
    requires GoodHash(h) && WorldOk(w) && Sim(h, w, m) && Legal(w, ev)
    requires (ev.PeerNsAdd? || ev.PeerNsDel?) && LiveRule(m, ev.id, ev.rid)
    ensures var m' := MemStep(h, m, ev);
            m'.nps[ev.id].rules[ev.rid].peers != [] && PlainRule(m'.nps[ev.id].rules[ev.rid])
  {
    var w', m' := WorldStep(w, ev), MemStep(h, m, ev);
    RuleParts(h, w, m, ev.id, ev.rid);
    WorldStepOk(w, ev);
    SimStep(h, w, m, ev);
    PeersStay(h, w', m', ev.id, ev.rid);
    MemOkOf(h, w', m');
    assert NpOk(m'.nps[ev.id]);
  }

  lemma AclStepOk(h: string -> string, txt: Printer, w: World, m: Mem, t: Table, ready: bool, ev: Event)
    requires GoodHash(h) && GoodPrinter(txt) && WorldOk(w) && Sim(h, w, m) && Legal(w, ev)
             && TableOk(t, Expected(m.nps, ready))
    ensures TableOk(AclStep(h, txt, m, t, ready, ev), Expected(MemStep(h, m, ev).nps, ReadyStep(m, ready, ev)))
  {
    MemOkOf(h, w, m);
    if ev.RuleAdd? {
      NextMemOk(h, w, m, ev);
      RuleParts(h, w, m, ev.id, ev.rid);
      PodParts(h, w, m, ev.id);
      AclRuleAdd(h, txt, m, t, ready, ev.id, ev.rid);
    } else if ev.PeerNsAdd? || ev.PeerNsDel? {
      AclPeerNs(h, txt, w, m, t, ready, ev);
    } else if ev.LocalPodAdd? {
      AclLocalPodAdd(h, txt, m, t, ready, ev.id, ev.port);
    } else if ev.PolicyDelete? {
      AclPolicyDelete(h, txt, m, t, ready, ev.ns, ev.name);
    } else {
      AclRest(h, txt, m, t, ready, ev);
    }
  }

  lemma NextMemOk(h: string -> string, w: World, m: Mem, ev: Event)
    requires GoodHash(h) && WorldOk(w) && Sim(h, w, m) && Legal(w, ev)
    ensures MemOk(MemStep(h, m, ev).nps)
  {
    WorldStepOk(w, ev);
    SimStep(h, w, m, ev);
    MemOkOf(h, WorldStep(w, ev), MemStep(h, m, ev));
  }

  // ------------------------------------------------------- port group steps

  /** Adding ports to or taking them from a group other than g leaves g. */
  lemma DenyAdd(lsps: set<string>, counts: map<string, nat>, groups: map<string, set<string>>, ready: bool, g: string,
                port: string, on: bool)
    requires DenyGroupOk(lsps, counts, groups, ready, g) && ready && port in lsps
    ensures DenyGroupOk(lsps, Inc(counts, port, on), Put(groups, g, port, on && Get(counts, port) == 0), true, g)
  {
  }

  lemma DenyTake(lsps: set<string>, counts: map<string, nat>, groups: map<string, set<string>>, ready: bool, g: string,
                 port: string, on: bool)
    requires DenyGroupOk(lsps, counts, groups, ready, g)
    ensures DenyGroupOk(lsps, Dec(counts, port, on),
                        Take(groups, g, port, on && Get(counts, port) == 1 && port in lsps), ready, g)
  {
  }

  lemma DenyTakeAll(lsps: set<string>, counts: map<string, nat>, groups: map<string, set<string>>, ready: bool,
                    g: string, ports: set<string>, on: bool, last: set<string>)
    requires DenyGroupOk(lsps, counts, groups, ready, g)
    requires last == set p | p in ports && on && Get(counts, p) == 1 && p in lsps
    ensures DenyGroupOk(lsps, DecAll(counts, ports, on), TakeAll(groups, g, last), ready, g)
  {
  }

  lemma GroupsPolicyAdd(h: string -> string, m: Mem, groups: map<string, set<string>>, ready: bool, id: nat,
                        spec: PolicySpec)
    requires GroupsOk(m, groups, ready) && MemOk(MemStep(h, m, PolicyAdd(id, spec)).nps)
    ensures GroupsOk(MemStep(h, m, PolicyAdd(id, spec)), GroupStep(h, m, groups, ready, PolicyAdd(id, spec)), ready)
  {
    if !(spec.Key() in m.byKey || spec.ns !in m.nsAddresses || id in m.nps) {
      var m' := MemStep(h, m, PolicyAdd(id, spec));
      NewGroup(m, m', groups, id, h(ReadableGroup(spec)));
      DenyKept(m.lsps.Keys, m.inCount, m.egCount, groups, groups[h(ReadableGroup(spec)) := {}], ready);
    }
  }

  lemma NewGroup(m: Mem, m': Mem, groups: map<string, set<string>>, id: nat, g: string)
    requires PolicyGroupsOk(m, groups) && OnlyGroups(m, groups) && MemOk(m'.nps)
    requires id !in m.nps && m'.nps.Keys == m.nps.Keys + {id} && (forall j | j in m.nps :: m'.nps[j] == m.nps[j])
             && m'.lsps == m.lsps
    requires m'.nps[id].group == g && m'.nps[id].localPods == map[] && !m'.nps[id].deleted
    ensures g !in groups && g != DenyGroup(Ingress) && g != DenyGroup(Egress)
    ensures PolicyGroupsOk(m', groups[g := {}]) && OnlyGroups(m', groups[g := {}])
  {
    assert NpOk(m'.nps[id]) && Live(m', id);
    assert forall j | Live(m, j) :: Live(m', j) && m'.nps[j] == m.nps[j] && m.nps[j].group != g;
    OnlyKept(m, m', groups, groups);
  }

  lemma OnlyKept(m: Mem, m': Mem, groups: map<string, set<string>>, groups': map<string, set<string>>)
    requires OnlyGroups(m, groups)
    requires forall g | g in groups' && g != DenyGroup(Ingress) && g != DenyGroup(Egress) :: g in groups
    requires forall id | Live(m, id) :: Live(m', id) && m'.nps[id].group == m.nps[id].group
    ensures OnlyGroups(m', groups')
  {
  }

  ghost predicate BothDeny(lsps: set<string>, inCount: map<string, nat>, egCount: map<string, nat>,
                           groups: map<string, set<string>>, ready: bool) {
    && DenyGroupOk(lsps, inCount, groups, ready, DenyGroup(Ingress))
    && DenyGroupOk(lsps, egCount, groups, ready, DenyGroup(Egress))
  }

  predicate SameOthers(groups: map<string, set<string>>, groups': map<string, set<string>>) {
    && (forall g | g in groups' && g != DenyGroup(Ingress) && g != DenyGroup(Egress) :: g in groups)
    && (forall g | g in groups && g != DenyGroup(Ingress) && g != DenyGroup(Egress) ::
          g in groups' && groups'[g] == groups[g])
  }

  lemma DenyAddsOk(m: Mem, groups: map<string, set<string>>, ready: bool, np: Np, port: string)
    requires BothDeny(m.lsps.Keys, m.inCount, m.egCount, groups, ready) && port in m.lsps
    ensures BothDeny(m.lsps.Keys, Inc(m.inCount, port, np.spec.Denies(Ingress)),
                     Inc(m.egCount, port, np.spec.Denies(Egress)), DenyAdds(m, groups, ready, np, port), true)
    ensures SameOthers(groups, DenyAdds(m, groups, ready, np, port))
  {
    var di, de := np.spec.Denies(Ingress), np.spec.Denies(Egress);
    var g0 := WithDenyGroups(groups, ready);
    var g1 := Put(g0, DenyGroup(Ingress), port, di && Count(m, Ingress, port) == 0);
    DenyNames();
    assert BothDeny(m.lsps.Keys, m.inCount, m.egCount, g0, true);
    DenyAdd(m.lsps.Keys, m.inCount, g0, true, DenyGroup(Ingress), port, di);
    DenyAdd(m.lsps.Keys, m.egCount, g1, true, DenyGroup(Egress), port, de);
  }

  lemma DenyTakesOk(m: Mem, groups: map<string, set<string>>, ready: bool, np: Np, port: string)
    requires BothDeny(m.lsps.Keys, m.inCount, m.egCount, groups, ready) && port in np.localPods
    ensures BothDeny(m.lsps.Keys, Dec(m.inCount, port, np.spec.Denies(Ingress)),
                     Dec(m.egCount, port, np.spec.Denies(Egress)), DenyTakes(m, groups, np, port), ready)
    ensures SameOthers(groups, DenyTakes(m, groups, np, port))
  {
    DenyNames();
    DenyTake(m.lsps.Keys, m.inCount, groups, ready, DenyGroup(Ingress), port, np.spec.Denies(Ingress));
    DenyTake(m.lsps.Keys, m.egCount, Take(groups, DenyGroup(Ingress), port, port in LastHeld(m, np, Ingress)), ready,
             DenyGroup(Egress), port, np.spec.Denies(Egress));
  }

  lemma DenyTakesAllOk(m: Mem, groups: map<string, set<string>>, ready: bool, np: Np)
    requires BothDeny(m.lsps.Keys, m.inCount, m.egCount, groups, ready)
    ensures BothDeny(m.lsps.Keys, DecAll(m.inCount, np.localPods.Keys, np.spec.Denies(Ingress)),
                     DecAll(m.egCount, np.localPods.Keys, np.spec.Denies(Egress)), DenyTakesAll(m, groups, np), ready)
    ensures SameOthers(groups, DenyTakesAll(m, groups, np))
  {
    DenyNames();
    var li, le := LastHeld(m, np, Ingress), LastHeld(m, np, Egress);
    DenyTakeAll(m.lsps.Keys, m.inCount, groups, ready, DenyGroup(Ingress), np.localPods.Keys, np.spec.Denies(Ingress),
                li);
    DenyTakeAll(m.lsps.Keys, m.egCount, TakeAll(groups, DenyGroup(Ingress), li), ready, DenyGroup(Egress),
                np.localPods.Keys, np.spec.Denies(Egress), le);
  }

  /** Changing a policy's own group does not touch the deny groups. */
  lemma DenyKept(lsps: set<string>, inCount: map<string, nat>, egCount: map<string, nat>,
                 groups: map<string, set<string>>, groups': map<string, set<string>>, ready: bool)
    requires BothDeny(lsps, inCount, egCount, groups, ready)
    requires forall g | g == DenyGroup(Ingress) || g == DenyGroup(Egress) ::
               (g in groups' <==> g in groups) && (g in groups ==> groups'[g] == groups[g])
    ensures BothDeny(lsps, inCount, egCount, groups', ready)
  {
  }

  /** The new port's groups, given the memory after the step. */
  lemma PodAddedGroups(m: Mem, m': Mem, groups: map<string, set<string>>, ready: bool, id: nat, port: string)
    requires GroupsOk(m, groups, ready) && MemOk(m.nps) && PodIsNew(m, id, port)
    requires m'.nps == m.nps[id := m.nps[id].(localPods := m.nps[id].localPods[port := m.lsps[port].node])]
             && m'.lsps == m.lsps
    requires m'.inCount == Inc(m.inCount, port, m.nps[id].spec.Denies(Ingress))
             && m'.egCount == Inc(m.egCount, port, m.nps[id].spec.Denies(Egress))
    ensures GroupsOk(m', Put(DenyAdds(m, groups, ready, m.nps[id], port), m.nps[id].group, port, true), true)
  {
    var np := m.nps[id];
    assert NpOk(np);
    var g2 := DenyAdds(m, groups, ready, np, port);
    var groups' := Put(g2, np.group, port, true);
    DenyAddsOk(m, groups, ready, np, port);
    DenyKept(m.lsps.Keys, m'.inCount, m'.egCount, g2, groups', true);
    PodAddGroups(m, m', groups, g2, groups', id, port);
    OnlyKept(m, m', groups, groups');
  }

  lemma GroupsLocalPodAdd(h: string -> string, m: Mem, groups: map<string, set<string>>, ready: bool, id: nat,
                          port: string)
    requires GroupsOk(m, groups, ready) && MemOk(m.nps)
    ensures GroupsOk(MemStep(h, m, LocalPodAdd(id, port)), GroupStep(h, m, groups, ready, LocalPodAdd(id, port)),
                     ReadyStep(m, ready, LocalPodAdd(id, port)))
  {
    if PodIsNew(m, id, port) {
      PodAddedGroups(m, MemStep(h, m, LocalPodAdd(id, port)), groups, ready, id, port);
    }
  }

  lemma DenyNames()
    ensures DenyGroup(Ingress) != DenyGroup(Egress)
  {
  }

  lemma PodAddGroups(m: Mem, m': Mem, groups: map<string, set<string>>, g2: map<string, set<string>>,
                     groups': map<string, set<string>>, id: nat, port: string)
    requires PolicyGroupsOk(m, groups) && MemOk(m.nps) && PodIsNew(m, id, port) && SameOthers(groups, g2)
    requires m'.lsps == m.lsps
             && m'.nps == m.nps[id := m.nps[id].(localPods := m.nps[id].localPods[port := m.lsps[port].node])]
    requires groups' == Put(g2, m.nps[id].group, port, true)
    ensures PolicyGroupsOk(m', groups')
  {
    forall j | Live(m', j)
      ensures m'.nps[j].group in groups' && groups'[m'.nps[j].group] == set p | p in m'.nps[j].localPods && p in m'.lsps
    {
      assert Live(m, j) && NpOk(m.nps[j]);
    }
  }

  lemma GroupsLocalPodDel(h: string -> string, m: Mem, groups: map<string, set<string>>, ready: bool, id: nat,
                          port: string)
    requires GroupsOk(m, groups, ready) && MemOk(m.nps)
    ensures GroupsOk(MemStep(h, m, LocalPodDel(id, port)), GroupStep(h, m, groups, ready, LocalPodDel(id, port)), ready)
  {
    if Live(m, id) && port in m.nps[id].localPods {
      var m' := MemStep(h, m, LocalPodDel(id, port));
      var np := m.nps[id];
      assert NpOk(np);
      var g2 := DenyTakes(m, groups, np, port);
      var groups' := Take(g2, np.group, port, port in m.lsps);
      DenyTakesOk(m, groups, ready, np, port);
      DenyKept(m.lsps.Keys, m'.inCount, m'.egCount, g2, groups', ready);
      PodDelGroups(m, m', groups, g2, groups', id, port);
      OnlyKept(m, m', groups, groups');
    }
  }

  lemma PodDelGroups(m: Mem, m': Mem, groups: map<string, set<string>>, g2: map<string, set<string>>,
                     groups': map<string, set<string>>, id: nat, port: string)
    requires PolicyGroupsOk(m, groups) && MemOk(m.nps) && Live(m, id) && SameOthers(groups, g2)
    requires m'.lsps == m.lsps && m'.nps == m.nps[id := m.nps[id].(localPods := m.nps[id].localPods - {port})]
    requires groups' == Take(g2, m.nps[id].group, port, port in m.lsps)
    ensures PolicyGroupsOk(m', groups')
  {
    forall j | Live(m', j)
      ensures m'.nps[j].group in groups' && groups'[m'.nps[j].group] == set p | p in m'.nps[j].localPods && p in m'.lsps
    {
      assert Live(m, j) && NpOk(m.nps[j]);
    }
  }

  lemma GroupsPolicyDelete(h: string -> string, m: Mem, groups: map<string, set<string>>, ready: bool, ns: string,
                           name: string)
    requires GroupsOk(m, groups, ready) && MemOk(m.nps)
    requires (ns, name) in m.byKey ==> Live(m, m.byKey[(ns, name)])
    ensures GroupsOk(MemStep(h, m, PolicyDelete(ns, name)), GroupStep(h, m, groups, ready, PolicyDelete(ns, name)),
                     ready)
  {
    if (ns, name) in m.byKey {
      var m' := MemStep(h, m, PolicyDelete(ns, name));
      var id := m.byKey[(ns, name)];
      var np := m.nps[id];
      assert NpOk(np);
      var g2 := DenyTakesAll(m, groups, np);
      DenyTakesAllOk(m, groups, ready, np);
      DenyKept(m.lsps.Keys, m'.inCount, m'.egCount, g2, g2 - {np.group}, ready);
      DeleteGroups(m, m', groups, g2, g2 - {np.group}, id);
    }
  }

  lemma DeleteGroups(m: Mem, m': Mem, groups: map<string, set<string>>, g2: map<string, set<string>>,
                     groups': map<string, set<string>>, id: nat)
    requires PolicyGroupsOk(m, groups) && OnlyGroups(m, groups) && MemOk(m.nps) && Live(m, id) && SameOthers(groups, g2)
    requires m'.lsps == m.lsps && m'.nps == m.nps[id := m.nps[id].(deleted := true)]
             && groups' == g2 - {m.nps[id].group}
    ensures PolicyGroupsOk(m', groups') && OnlyGroups(m', groups')
  {
    forall j | Live(m', j)
      ensures m'.nps[j].group in groups' && groups'[m'.nps[j].group] == set p | p in m'.nps[j].localPods && p in m'.lsps
    {
      assert Live(m, j) && NpOk(m.nps[j]);
    }
    forall g | g in groups' && g != DenyGroup(Ingress) && g != DenyGroup(Egress)
      ensures exists j :: Live(m', j) && m'.nps[j].group == g
    {
      var j :| Live(m, j) && m.nps[j].group == g;
      assert Live(m', j) && m'.nps[j].group == g;
    }
  }

  lemma GroupsPod(h: string -> string, m: Mem, groups: map<string, set<string>>, ready: bool, ev: Event)
    requires GroupsOk(m, groups, ready) && (ev.PodUp? || ev.PodDown?)
    requires ev.PodUp? ==> ev.port !in m.lsps && Get(m.inCount, ev.port) == 0 && Get(m.egCount, ev.port) == 0
                           && forall id | Live(m, id) :: ev.port !in m.nps[id].localPods
    ensures GroupsOk(MemStep(h, m, ev), GroupStep(h, m, groups, ready, ev), ready)
  {
    var m', groups' := MemStep(h, m, ev), GroupStep(h, m, groups, ready, ev);
    forall id | Live(m', id)
      ensures m'.nps[id].group in groups'
              && groups'[m'.nps[id].group] == set p | p in m'.nps[id].localPods && p in m'.lsps
    {
      assert Live(m, id);
    }
    OnlyKept(m, m', groups, groups');
    PodDeny(m.lsps.Keys, m'.lsps.Keys, m.inCount, groups, ready, DenyGroup(Ingress), ev.port, ev.PodUp?, groups');
    PodDeny(m.lsps.Keys, m'.lsps.Keys, m.egCount, groups, ready, DenyGroup(Egress), ev.port, ev.PodUp?, groups');
  }

  lemma PodDeny(lsps: set<string>, lsps': set<string>, counts: map<string, nat>, groups: map<string, set<string>>,
                ready: bool, g: string, port: string, up: bool, groups': map<string, set<string>>)
    requires DenyGroupOk(lsps, counts, groups, ready, g)
    requires lsps' == if up then lsps + {port} else lsps - {port}
    requires up ==> port !in lsps && Get(counts, port) == 0
    requires groups' == if up then groups else map n | n in groups :: groups[n] - {port}
    ensures DenyGroupOk(lsps', if up then counts else counts - {port}, groups', ready, g)
  {
  }

  predicate KeepsGroups(ev: Event) {
    ev.RuleAdd? || ev.PeerNsAdd? || ev.PeerNsDel? || ev.PeerPodAdd? || ev.PeerPodDel?
    || ev.NamespaceAdd? || ev.NamespaceDel? || ev.NamespacePodAdd? || ev.NamespacePodDel?
  }

  ghost predicate PodsKept(nps: map<nat, Np>, nps': map<nat, Np>) {
    && (forall id | id in nps && !nps[id].deleted ::
          id in nps' && !nps'[id].deleted && nps'[id].group == nps[id].group && nps'[id].localPods == nps[id].localPods)
    && (forall id | id in nps' && !nps'[id].deleted :: id in nps && !nps[id].deleted)
  }

  lemma SamePods(h: string -> string, m: Mem, ev: Event)
    requires KeepsGroups(ev)
    ensures var m' := MemStep(h, m, ev);
            PodsKept(m.nps, m'.nps) && m'.lsps == m.lsps && m'.inCount == m.inCount && m'.egCount == m.egCount
  {
    var m' := MemStep(h, m, ev);
    if (ev.RuleAdd? || ev.PeerNsAdd? || ev.PeerNsDel? || ev.PeerPodAdd? || ev.PeerPodDel?) && m' != m {
      PodsKeptUpdate(m.nps, ev.id, m'.nps[ev.id]);
    }
  }

  lemma PodsKeptUpdate(nps: map<nat, Np>, id: nat, np: Np)
    requires id in nps && !nps[id].deleted && !np.deleted && np.group == nps[id].group
             && np.localPods == nps[id].localPods
    ensures PodsKept(nps, nps[id := np])
  {
  }

  lemma GroupsFrame(m: Mem, m': Mem, groups: map<string, set<string>>, ready: bool)
    requires GroupsOk(m, groups, ready) && PodsKept(m.nps, m'.nps) && m'.lsps == m.lsps && m'.inCount == m.inCount
             && m'.egCount == m.egCount
    ensures GroupsOk(m', groups, ready)
  {
    forall id | Live(m', id) ensures groups[m'.nps[id].group] == set p | p in m'.nps[id].localPods && p in m'.lsps {
      assert Live(m, id);
    }
    OnlyKept(m, m', groups, groups);
  }

  lemma GroupStepIdle(h: string -> string, m: Mem, groups: map<string, set<string>>, ready: bool, ev: Event)
    requires KeepsGroups(ev)
    ensures GroupStep(h, m, groups, ready, ev) == groups
  {
  }

  lemma GroupsRest(h: string -> string, m: Mem, groups: map<string, set<string>>, ready: bool, ev: Event)
    requires GroupsOk(m, groups, ready) && KeepsGroups(ev)
    ensures GroupsOk(MemStep(h, m, ev), GroupStep(h, m, groups, ready, ev), ready)
  {
    SamePods(h, m, ev);
    GroupsFrame(m, MemStep(h, m, ev), groups, ready);
    GroupStepIdle(h, m, groups, ready, ev);
  }

  lemma GroupStepOk(h: string -> string, w: World, m: Mem, groups: map<string, set<string>>, ready: bool, ev: Event)
    requires GoodHash(h) && WorldOk(w) && Sim(h, w, m) && Legal(w, ev) && GroupsOk(m, groups, ready)
    ensures GroupsOk(MemStep(h, m, ev), GroupStep(h, m, groups, ready, ev), ReadyStep(m, ready, ev))
  {
    MemOkOf(h, w, m);
    if ev.PolicyAdd? {
      NextMemOk(h, w, m, ev);
      GroupsPolicyAdd(h, m, groups, ready, ev.id, ev.spec);
    } else if ev.LocalPodAdd? {
      GroupsLocalPodAdd(h, m, groups, ready, ev.id, ev.port);
    } else if ev.LocalPodDel? {
      GroupsLocalPodDel(h, m, groups, ready, ev.id, ev.port);
    } else if ev.PolicyDelete? {
      GroupsPolicyDelete(h, m, groups, ready, ev.ns, ev.name);
    } else if ev.PodUp? || ev.PodDown? {
      NewPodUncounted(h, w, m, ev.port);
      GroupsPod(h, m, groups, ready, ev);
    } else {
      GroupsRest(h, m, groups, ready, ev);
    }
  }

  lemma NewPodUncounted(h: string -> string, w: World, m: Mem, port: string)
    requires Sim(h, w, m)
    ensures port !in w.alive ==> Get(m.inCount, port) == 0 && Get(m.egCount, port) == 0
    ensures (forall id | id in w.policies :: port !in w.policies[id].pods)
        ==> forall id | Live(m, id) :: port !in m.nps[id].localPods
  {
  }

  // ------------------------------------------------------- whole runs

  ghost predicate DbOk(h: string -> string, m: Mem, db: Db) {
    && TableOk(db.acls, Expected(m.nps, db.ready))
    && GroupsOk(m, db.groups, db.ready)
    && SetsOk(h, Namer(h), m.nps, m.nsAddresses, db.sets)
  }

  const EmptyDb := Db(Table(map[], 0), map[], map[], false)

  function DbRun(h: string -> string, txt: Printer, evs: seq<Event>): Db {
    if evs == [] then EmptyDb
    else DbStep(h, txt, MemRun(h, evs[..|evs| - 1]), DbRun(h, txt, evs[..|evs| - 1]), evs[|evs| - 1])
  }

  lemma EmptyDbOk(h: string -> string)
    ensures DbOk(h, EmptyMem, EmptyDb)
  {
    assert Expected(EmptyMem.nps, false) == iset{};
  }

  lemma DbStepOk(h: string -> string, txt: Printer, w: World, m: Mem, db: Db, ev: Event)
    requires GoodHash(h) && GoodPrinter(txt) && WorldOk(w) && Sim(h, w, m) && Legal(w, ev) && DbOk(h, m, db)
    ensures DbOk(h, MemStep(h, m, ev), DbStep(h, txt, m, db, ev))
  {
    NamerIsGood(h);
    AclStepOk(h, txt, w, m, db.acls, db.ready, ev);
    GroupStepOk(h, w, m, db.groups, db.ready, ev);
    SetStepOk(h, Namer(h), w, m, db.sets, ev);
  }

  /** Stored matches never go stale: after every run the ACL table holds exactly one row per
      rule, kind and port clause, printed from the current peer list; port groups, deny groups
      and address sets hold exactly the ports and addresses the controller counts. */
  lemma {:induction false} DatabaseMirrorsMemory(h: string -> string, evs: seq<Event>)
    requires GoodHash(h) && LegalRun(evs)
    ensures DbOk(h, MemRun(h, evs), DbRun(h, MatchText, evs))
  {
    MatchTextIsGood();
    if evs == [] {
      EmptyDbOk(h);
    } else {
      var n := |evs| - 1;
      MemoryMirrorsWorld(h, evs[..n]);
      DatabaseMirrorsMemory(h, evs[..n]);
      DbStepOk(h, MatchText, Run(evs[..n]), MemRun(h, evs[..n]), DbRun(h, MatchText, evs[..n]), evs[n]);
    }
  }
}
