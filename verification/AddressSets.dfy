/** OVN address sets over whole runs: the sets of namespaces (namespace.go) and of the pods rules
    select (policy.go), written through setAddressSet, createAddressSet and deleteAddressSet
    (common.go), always equal the address maps in memory. Both back-ends share them. */
module AddressSets {
  import opened Acl
  import opened PolicyWorld
  import opened PolicyMemory
  import opened AclTable

  /** The name under which a rule's own address set is stored. */
  type SetNamer = (PolicySpec, RuleId) -> string

  function Namer(h: string -> string): SetNamer { (spec, rid) => h(LocalPeerPods(spec, rid)) }

  ghost predicate GoodNamer(h: string -> string, loc: SetNamer) {
    && (forall a: PolicySpec, i: RuleId, b: PolicySpec, j: RuleId | Label(a.ns) && Label(b.ns) ::
          loc(a, i) == loc(b, j) ==> a.Key() == b.Key() && i == j)
    && (forall ns, b: PolicySpec, j: RuleId | Label(ns) :: h(ns) != loc(b, j))
    && (forall s, t :: h(s) == h(t) ==> s == t)
  }

  lemma NamerIsGood(h: string -> string)
    requires GoodHash(h)
    ensures GoodNamer(h, Namer(h))
  {
    forall a: PolicySpec, i: RuleId, b: PolicySpec, j: RuleId | Label(a.ns) && Label(b.ns)
    && Namer(h)(a, i) == Namer(h)(b, j)
      ensures a.Key() == b.Key() && i == j
    {
      LocalPeerPodsInjective(a, i, b, j);
    }
    forall ns, b: PolicySpec, j: RuleId | Label(ns) ensures h(ns) != Namer(h)(b, j) {
      NamespaceIsNotLocal(ns, b, j);
    }
  }

  function PeerSets(loc: SetNamer, np: Np): set<string> {
    set rid | rid in np.rules :: loc(np.spec, rid)
  }

  function SetStep(h: string -> string, loc: SetNamer, m: Mem, sets: map<string, set<Ip>>,
                   ev: Event): map<string, set<Ip>> {
    match ev
    case RuleAdd(id, rid) =>
      if Live(m, id) && NeedsSet(m.nps[id].spec, rid) then sets[loc(m.nps[id].spec, rid) := {}] else sets
    case PolicyDelete(ns, name) =>
      if (ns, name) in m.byKey && m.byKey[(ns, name)] in m.nps then sets - PeerSets(loc, m.nps[m.byKey[(ns, name)]])
      else sets
    case PeerPodAdd(id, rid, ip) =>
      if LiveRule(m, id, rid) && ip !in m.nps[id].addressMaps[rid]
      then sets[loc(m.nps[id].spec, rid) := m.nps[id].addressMaps[rid] + {ip}] else sets
    case PeerPodDel(id, rid, ip) =>
      if LiveRule(m, id, rid) && ip in m.nps[id].addressMaps[rid]
      then sets[loc(m.nps[id].spec, rid) := m.nps[id].addressMaps[rid] - {ip}] else sets
    case NamespaceAdd(ns, ips) => sets[h(ns) := ips]
    case NamespaceDel(ns) => if ns in m.nsAddresses then sets - {h(ns)} else sets
    case NamespacePodAdd(ns, ip) =>
      if ns in m.nsAddresses && ip !in m.nsAddresses[ns] then sets[h(ns) := m.nsAddresses[ns] + {ip}] else sets
    case NamespacePodDel(ns, ip) =>
      if ns in m.nsAddresses && ip in m.nsAddresses[ns] then sets[h(ns) := m.nsAddresses[ns] - {ip}] else sets
    case _ => sets
  }

  predicate NeedsSet(spec: PolicySpec, rid: RuleId) {
    rid.idx < |spec.Rules(rid.dir)| && spec.Rules(rid.dir)[rid.idx].peers != []
  }

  predicate PeerSet(nps: map<nat, Np>, id: nat, rid: RuleId) {
    id in nps && !nps[id].deleted && rid in nps[id].rules && rid in nps[id].addressMaps && NeedsSet(nps[id].spec, rid)
  }

  ghost predicate NsSetsOk(h: string -> string, nsAddresses: map<string, set<Ip>>, sets: map<string, set<Ip>>) {
    forall ns | ns in nsAddresses :: h(ns) in sets && sets[h(ns)] == nsAddresses[ns]
  }

  ghost predicate PeerSetsOk(loc: SetNamer, nps: map<nat, Np>, sets: map<string, set<Ip>>) {
    forall id, rid | PeerSet(nps, id, rid) ::
      loc(nps[id].spec, rid) in sets && sets[loc(nps[id].spec, rid)] == nps[id].addressMaps[rid]
  }

  ghost predicate OnlySets(h: string -> string, loc: SetNamer, nps: map<nat, Np>, nsAddresses: map<string, set<Ip>>,
                           sets: map<string, set<Ip>>) {
    forall n | n in sets :: KnownSet(h, loc, nps, nsAddresses, n)
  }

  /** Every OVN address set equals the map the controller keeps for it, and there are no others. */
  ghost predicate SetsOk(h: string -> string, loc: SetNamer, nps: map<nat, Np>, nsAddresses: map<string, set<Ip>>,
                         sets: map<string, set<Ip>>) {
    NsSetsOk(h, nsAddresses, sets) && PeerSetsOk(loc, nps, sets) && OnlySets(h, loc, nps, nsAddresses, sets)
  }

  ghost predicate KnownSet(h: string -> string, loc: SetNamer, nps: map<nat, Np>, nsAddresses: map<string, set<Ip>>,
                           n: string) {
    (exists ns | ns in nsAddresses :: n == h(ns))
    || (exists id, rid :: PeerSet(nps, id, rid) && n == loc(nps[id].spec, rid))
  }

  // ------------------------------------------------------- address set steps

  ghost predicate LabelsOk(nps: map<nat, Np>, nsAddresses: map<string, set<Ip>>) {
    && (forall id | id in nps && !nps[id].deleted :: Label(nps[id].spec.ns))
    && (forall ns | ns in nsAddresses :: Label(ns))
  }

  lemma LabelsOkOf(h: string -> string, w: World, m: Mem)
    requires WorldOk(w) && Sim(h, w, m)
    ensures LabelsOk(m.nps, m.nsAddresses)
  {
    forall id | id in m.nps && !m.nps[id].deleted ensures Label(m.nps[id].spec.ns) {
      assert NpSim(h, w.policies[id], m.nps[id]) && PolicyOk(w, w.policies[id]);
    }
  }

  lemma PeerSetPut(loc: SetNamer, nps: map<nat, Np>, sets: map<string, set<Ip>>, id: nat, rid: RuleId, np: Np,
                   ips: set<Ip>, n: string)
    requires PeerSetsOk(loc, nps, sets) && n == loc(np.spec, rid)
    requires forall j, b | PeerSet(nps, j, b) && loc(nps[j].spec, b) == n :: (j, b) == (id, rid)
    requires id in nps && !nps[id].deleted && np.spec == nps[id].spec
    requires np.rules.Keys == nps[id].rules.Keys + {rid} && np.addressMaps == nps[id].addressMaps[rid := ips]
    ensures PeerSetsOk(loc, nps[id := np], sets[n := ips])
  {
    var nps', sets' := nps[id := np], sets[n := ips];
    forall j, b | PeerSet(nps', j, b)
      ensures loc(nps'[j].spec, b) in sets' && sets'[loc(nps'[j].spec, b)] == nps'[j].addressMaps[b]
    {
      if (j, b) != (id, rid) {
        assert PeerSet(nps, j, b);
      }
    }
  }

  lemma OwnName(h: string -> string, loc: SetNamer, nps: map<nat, Np>, nsAddresses: map<string, set<Ip>>, id: nat,
                rid: RuleId)
    requires GoodNamer(h, loc) && MemOk(nps) && LabelsOk(nps, nsAddresses) && id in nps && !nps[id].deleted
    ensures forall j, b | PeerSet(nps, j, b) && loc(nps[j].spec, b) == loc(nps[id].spec, rid) :: (j, b) == (id, rid)
    ensures forall ns | ns in nsAddresses :: h(ns) != loc(nps[id].spec, rid)
  {
  }

  /** Storing the address map of one rule. */
  lemma SetPut(h: string -> string, loc: SetNamer, nps: map<nat, Np>, nsAddresses: map<string, set<Ip>>,
               sets: map<string, set<Ip>>,
               id: nat, rid: RuleId, np: Np, ips: set<Ip>)
    requires GoodNamer(h, loc) && MemOk(nps) && LabelsOk(nps, nsAddresses) && SetsOk(h, loc, nps, nsAddresses, sets)
    requires id in nps && !nps[id].deleted && !np.deleted && np.spec == nps[id].spec && NeedsSet(np.spec, rid)
    requires np.rules.Keys == nps[id].rules.Keys + {rid} && np.addressMaps == nps[id].addressMaps[rid := ips]
    ensures SetsOk(h, loc, nps[id := np], nsAddresses, sets[loc(np.spec, rid) := ips])
  {
    OwnName(h, loc, nps, nsAddresses, id, rid);
    PeerSetPut(loc, nps, sets, id, rid, np, ips, loc(np.spec, rid));
    var nps' := nps[id := np];
    assert PeerSet(nps', id, rid);
    OnlySetsKept(h, loc, nps, nps', nsAddresses, nsAddresses, sets, loc(np.spec, rid), ips);
  }

  lemma OnlySetsKept(h: string -> string, loc: SetNamer, nps: map<nat, Np>, nps': map<nat, Np>,
                     nsA: map<string, set<Ip>>, nsA': map<string, set<Ip>>,
                 sets: map<string, set<Ip>>, n: string, ips: set<Ip>)
    requires OnlySets(h, loc, nps, nsA, sets) && nsA.Keys <= nsA'.Keys && KnownSet(h, loc, nps', nsA', n)
    requires forall id, rid | PeerSet(nps, id, rid) :: PeerSet(nps', id, rid) && nps'[id].spec == nps[id].spec
    ensures OnlySets(h, loc, nps', nsA', sets[n := ips])
  {
  }

  ghost predicate AddressesKept(nps: map<nat, Np>, nps': map<nat, Np>) {
    && (forall id, rid | PeerSet(nps, id, rid) ::
          PeerSet(nps', id, rid) && nps'[id].spec == nps[id].spec
          && nps'[id].addressMaps[rid] == nps[id].addressMaps[rid])
    && (forall id, rid | PeerSet(nps', id, rid) :: PeerSet(nps, id, rid))
  }

  lemma SetsFrame(h: string -> string, loc: SetNamer, nps: map<nat, Np>, nps': map<nat, Np>, nsA: map<string, set<Ip>>,
                  sets: map<string, set<Ip>>)
    requires SetsOk(h, loc, nps, nsA, sets) && AddressesKept(nps, nps')
    ensures SetsOk(h, loc, nps', nsA, sets)
  {
    forall k | k in sets ensures KnownSet(h, loc, nps', nsA, k) {
      if id, rid :| PeerSet(nps, id, rid) && k == loc(nps[id].spec, rid) {
        assert PeerSet(nps', id, rid);
      }
    }
    forall id, rid | PeerSet(nps', id, rid)
      ensures loc(nps'[id].spec, rid) in sets && sets[loc(nps'[id].spec, rid)] == nps'[id].addressMaps[rid]
    {
      assert PeerSet(nps, id, rid);
    }
  }

  lemma AddressesUpdate(nps: map<nat, Np>, id: nat, np: Np)
    requires if id in nps && !nps[id].deleted then !np.deleted && np.spec == nps[id].spec
                  && (forall rid | NeedsSet(np.spec, rid) ::
                        (rid in np.rules <==> rid in nps[id].rules)
                        && (rid in np.addressMaps <==> rid in nps[id].addressMaps))
                  && (forall rid | NeedsSet(np.spec, rid) && rid in np.addressMaps ::
                        np.addressMaps[rid] == nps[id].addressMaps[rid])
             else np.rules == map[]
    ensures AddressesKept(nps, nps[id := np])
  {
  }

  lemma SetsDelete(h: string -> string, loc: SetNamer, nps: map<nat, Np>, nsA: map<string, set<Ip>>,
                   sets: map<string, set<Ip>>, id: nat)
    requires GoodNamer(h, loc) && MemOk(nps) && LabelsOk(nps, nsA) && SetsOk(h, loc, nps, nsA, sets) && id in nps
             && !nps[id].deleted
    ensures SetsOk(h, loc, nps[id := nps[id].(deleted := true)], nsA, sets - PeerSets(loc, nps[id]))
  {
    var nps', sets' := nps[id := nps[id].(deleted := true)], sets - PeerSets(loc, nps[id]);
    forall ns | ns in nsA ensures h(ns) in sets' && sets'[h(ns)] == nsA[ns] {
      assert h(ns) !in PeerSets(loc, nps[id]);
    }
    forall j, b | PeerSet(nps', j, b)
      ensures loc(nps'[j].spec, b) in sets' && sets'[loc(nps'[j].spec, b)] == nps'[j].addressMaps[b]
    {
      assert PeerSet(nps, j, b);
      assert loc(nps[j].spec, b) !in PeerSets(loc, nps[id]);
    }
    forall n | n in sets' ensures KnownSet(h, loc, nps', nsA, n) {
      assert KnownSet(h, loc, nps, nsA, n);
      if j, b :| PeerSet(nps, j, b) && n == loc(nps[j].spec, b) {
        assert PeerSet(nps', j, b);
      }
    }
  }

  lemma NsName(h: string -> string, loc: SetNamer, nps: map<nat, Np>, nsA: map<string, set<Ip>>, ns: string)
    requires GoodNamer(h, loc) && Label(ns)
    ensures forall k | k in nsA && k != ns :: h(k) != h(ns)
    ensures forall j, b | PeerSet(nps, j, b) :: loc(nps[j].spec, b) != h(ns)
  {
  }

  lemma SetsNsPut(h: string -> string, loc: SetNamer, nps: map<nat, Np>, nsA: map<string, set<Ip>>,
                  sets: map<string, set<Ip>>, ns: string, ips: set<Ip>)
    requires SetsOk(h, loc, nps, nsA, sets)
    requires forall k | k in nsA && k != ns :: h(k) != h(ns)
    requires forall j, b | PeerSet(nps, j, b) :: loc(nps[j].spec, b) != h(ns)
    ensures SetsOk(h, loc, nps, nsA[ns := ips], sets[h(ns) := ips])
  {
    var nsA' := nsA[ns := ips];
    assert ns in nsA';
    OnlySetsKept(h, loc, nps, nps, nsA, nsA', sets, h(ns), ips);
  }

  lemma SetsNsDel(h: string -> string, loc: SetNamer, nps: map<nat, Np>, nsA: map<string, set<Ip>>,
                  sets: map<string, set<Ip>>, ns: string)
    requires SetsOk(h, loc, nps, nsA, sets)
    requires forall k | k in nsA && k != ns :: h(k) != h(ns)
    requires forall j, b | PeerSet(nps, j, b) :: loc(nps[j].spec, b) != h(ns)
    ensures SetsOk(h, loc, nps, nsA - {ns}, sets - {h(ns)})
  {
    var nsA' := nsA - {ns};
    forall n | n in sets && n != h(ns) ensures KnownSet(h, loc, nps, nsA', n) {
      if k :| k in nsA && n == h(k) {
        assert k in nsA';
      }
    }
  }

  lemma SetsRuleAdd(h: string -> string, loc: SetNamer, m: Mem, sets: map<string, set<Ip>>, id: nat, rid: RuleId)
    requires GoodNamer(h, loc) && MemOk(m.nps) && LabelsOk(m.nps, m.nsAddresses)
             && SetsOk(h, loc, m.nps, m.nsAddresses, sets)
    ensures SetsOk(h, loc, MemStep(h, m, RuleAdd(id, rid)).nps, m.nsAddresses,
                   SetStep(h, loc, m, sets, RuleAdd(id, rid)))
  {
    if Live(m, id) && rid.idx < |m.nps[id].spec.Rules(rid.dir)| {
      var np := MemStep(h, m, RuleAdd(id, rid)).nps[id];
      if NeedsSet(np.spec, rid) {
        SetPut(h, loc, m.nps, m.nsAddresses, sets, id, rid, np, {});
      } else {
        AddressesUpdate(m.nps, id, np);
        SetsFrame(h, loc, m.nps, m.nps[id := np], m.nsAddresses, sets);
      }
    }
  }

  lemma SetsPeerPod(h: string -> string, loc: SetNamer, m: Mem, sets: map<string, set<Ip>>, id: nat, rid: RuleId,
                    ips: set<Ip>)
    requires GoodNamer(h, loc) && MemOk(m.nps) && LabelsOk(m.nps, m.nsAddresses)
             && SetsOk(h, loc, m.nps, m.nsAddresses, sets)
    requires LiveRule(m, id, rid) && NeedsSet(m.nps[id].spec, rid)
    ensures SetsOk(h, loc, PutMemRule(m, id, rid, m.nps[id].rules[rid], ips).nps, m.nsAddresses,
                   sets[loc(m.nps[id].spec, rid) := ips])
    ensures ips == m.nps[id].addressMaps[rid] ==> sets[loc(m.nps[id].spec, rid) := ips] == sets
  {
    SetPut(h, loc, m.nps, m.nsAddresses, sets, id, rid, PutMemRule(m, id, rid, m.nps[id].rules[rid], ips).nps[id], ips);
    assert PeerSet(m.nps, id, rid);
  }

  predicate KeepsSets(ev: Event) {
    ev.PolicyAdd? || ev.PeerNsAdd? || ev.PeerNsDel? || ev.LocalPodAdd? || ev.LocalPodDel? || ev.PodUp? || ev.PodDown?
  }

  lemma SetStepIdle(h: string -> string, loc: SetNamer, m: Mem, sets: map<string, set<Ip>>, ev: Event)
    requires KeepsSets(ev)
    ensures SetStep(h, loc, m, sets, ev) == sets
  {
  }

  lemma SetsRest(h: string -> string, loc: SetNamer, m: Mem, sets: map<string, set<Ip>>, ev: Event)
    requires SetsOk(h, loc, m.nps, m.nsAddresses, sets) && KeepsSets(ev)
    ensures SetsOk(h, loc, MemStep(h, m, ev).nps, MemStep(h, m, ev).nsAddresses, SetStep(h, loc, m, sets, ev))
  {
    SameAddresses(h, m, ev);
    SetStepIdle(h, loc, m, sets, ev);
    SetsFrame(h, loc, m.nps, MemStep(h, m, ev).nps, m.nsAddresses, sets);
  }

  lemma SameAddresses(h: string -> string, m: Mem, ev: Event)
    requires KeepsSets(ev)
    ensures AddressesKept(m.nps, MemStep(h, m, ev).nps) && MemStep(h, m, ev).nsAddresses == m.nsAddresses
  {
    var m' := MemStep(h, m, ev);
    if !ev.PodUp? && !ev.PodDown? && m' != m {
      AddressesUpdate(m.nps, ev.id, m'.nps[ev.id]);
    }
  }

  lemma RuleNeedsSet(h: string -> string, w: World, m: Mem, id: nat, rid: RuleId)
    requires WorldOk(w) && Sim(h, w, m) && HasPeers(w, id, rid) && LiveRule(m, id, rid)
    ensures NeedsSet(m.nps[id].spec, rid)
  {
    RuleParts(h, w, m, id, rid);
    assert PolicyOk(w, w.policies[id]) && RuleOk(w.policies[id].spec, rid, w.policies[id].rules[rid]);
  }

  lemma SetsPeerPodAdd(h: string -> string, loc: SetNamer, m: Mem, sets: map<string, set<Ip>>, id: nat, rid: RuleId,
                       ip: Ip)
    requires GoodNamer(h, loc) && MemOk(m.nps) && LabelsOk(m.nps, m.nsAddresses)
             && SetsOk(h, loc, m.nps, m.nsAddresses, sets)
    requires LiveRule(m, id, rid) && NeedsSet(m.nps[id].spec, rid)
    ensures var ips := m.nps[id].addressMaps[rid];
            SetsOk(h, loc, PutMemRule(m, id, rid, m.nps[id].rules[rid], ips + {ip}).nps, m.nsAddresses,
                   if ip in ips then sets else sets[loc(m.nps[id].spec, rid) := ips + {ip}])
  {
    var ips := m.nps[id].addressMaps[rid];
    SetsPeerPod(h, loc, m, sets, id, rid, ips + {ip});
    assert ip in ips ==> ips + {ip} == ips;
  }

  lemma SetsPeerPodDel(h: string -> string, loc: SetNamer, m: Mem, sets: map<string, set<Ip>>, id: nat, rid: RuleId,
                       ip: Ip)
    requires GoodNamer(h, loc) && MemOk(m.nps) && LabelsOk(m.nps, m.nsAddresses)
             && SetsOk(h, loc, m.nps, m.nsAddresses, sets)
    requires LiveRule(m, id, rid) && NeedsSet(m.nps[id].spec, rid)
    ensures var ips := m.nps[id].addressMaps[rid];
            SetsOk(h, loc, PutMemRule(m, id, rid, m.nps[id].rules[rid], ips - {ip}).nps, m.nsAddresses,
                   if ip in ips then sets[loc(m.nps[id].spec, rid) := ips - {ip}] else sets)
  {
    var ips := m.nps[id].addressMaps[rid];
    SetsPeerPod(h, loc, m, sets, id, rid, ips - {ip});
    assert ip !in ips ==> ips - {ip} == ips;
  }

  lemma SetsNsDeleted(h: string -> string, loc: SetNamer, nps: map<nat, Np>, nsA: map<string, set<Ip>>,
                      sets: map<string, set<Ip>>, ns: string)
    requires GoodNamer(h, loc) && LabelsOk(nps, nsA) && SetsOk(h, loc, nps, nsA, sets)
    ensures SetsOk(h, loc, nps, nsA - {ns}, if ns in nsA then sets - {h(ns)} else sets)
  {
    if ns in nsA {
      NsName(h, loc, nps, nsA, ns);
      SetsNsDel(h, loc, nps, nsA, sets, ns);
    } else {
      assert nsA - {ns} == nsA;
    }
  }

  /** An address that is already there needs no update. */
  lemma SetsNsPodAdd(h: string -> string, loc: SetNamer, nps: map<nat, Np>, nsA: map<string, set<Ip>>,
                     sets: map<string, set<Ip>>, ns: string, ip: Ip)
    requires GoodNamer(h, loc) && LabelsOk(nps, nsA) && SetsOk(h, loc, nps, nsA, sets) && ns in nsA
    ensures SetsOk(h, loc, nps, nsA[ns := nsA[ns] + {ip}],
                   if ip in nsA[ns] then sets else sets[h(ns) := nsA[ns] + {ip}])
  {
    if ip in nsA[ns] {
      assert nsA[ns] + {ip} == nsA[ns] && nsA[ns := nsA[ns]] == nsA;
    } else {
      NsName(h, loc, nps, nsA, ns);
      SetsNsPut(h, loc, nps, nsA, sets, ns, nsA[ns] + {ip});
    }
  }

  /** Nor does one that is already gone. */
  lemma SetsNsPodDel(h: string -> string, loc: SetNamer, nps: map<nat, Np>, nsA: map<string, set<Ip>>,
                     sets: map<string, set<Ip>>, ns: string, ip: Ip)
    requires GoodNamer(h, loc) && LabelsOk(nps, nsA) && SetsOk(h, loc, nps, nsA, sets) && ns in nsA
    ensures SetsOk(h, loc, nps, nsA[ns := nsA[ns] - {ip}],
                   if ip in nsA[ns] then sets[h(ns) := nsA[ns] - {ip}] else sets)
  {
    if ip in nsA[ns] {
      NsName(h, loc, nps, nsA, ns);
      SetsNsPut(h, loc, nps, nsA, sets, ns, nsA[ns] - {ip});
    } else {
      assert nsA[ns] - {ip} == nsA[ns] && nsA[ns := nsA[ns]] == nsA;
    }
  }

  lemma SetsNamespaceAdd(h: string -> string, loc: SetNamer, m: Mem, sets: map<string, set<Ip>>, ns: string,
                         ips: set<Ip>)
    requires GoodNamer(h, loc) && Label(ns) && SetsOk(h, loc, m.nps, m.nsAddresses, sets)
    ensures SetsOk(h, loc, m.nps, MemStep(h, m, NamespaceAdd(ns, ips)).nsAddresses,
                   SetStep(h, loc, m, sets, NamespaceAdd(ns, ips)))
  {
    NsName(h, loc, m.nps, m.nsAddresses, ns);
    SetsNsPut(h, loc, m.nps, m.nsAddresses, sets, ns, ips);
  }

  lemma SetsNamespaceDel(h: string -> string, loc: SetNamer, m: Mem, sets: map<string, set<Ip>>, ns: string)
    requires GoodNamer(h, loc) && LabelsOk(m.nps, m.nsAddresses) && SetsOk(h, loc, m.nps, m.nsAddresses, sets)
    ensures SetsOk(h, loc, m.nps, MemStep(h, m, NamespaceDel(ns)).nsAddresses,
                   SetStep(h, loc, m, sets, NamespaceDel(ns)))
  {
    SetsNsDeleted(h, loc, m.nps, m.nsAddresses, sets, ns);
  }

  lemma PodAddStep(h: string -> string, loc: SetNamer, m: Mem, sets: map<string, set<Ip>>, ns: string, ip: Ip)
    ensures var nsA, ev := m.nsAddresses, NamespacePodAdd(ns, ip);
            && MemStep(h, m, ev).nsAddresses == (if ns in nsA then nsA[ns := nsA[ns] + {ip}] else nsA)
            && SetStep(h, loc, m, sets, ev)
               == (if ns in nsA && ip !in nsA[ns] then sets[h(ns) := nsA[ns] + {ip}] else sets)
  {
  }

  lemma PodDelStep(h: string -> string, loc: SetNamer, m: Mem, sets: map<string, set<Ip>>, ns: string, ip: Ip)
    ensures var nsA, ev := m.nsAddresses, NamespacePodDel(ns, ip);
            && MemStep(h, m, ev).nsAddresses == (if ns in nsA then nsA[ns := nsA[ns] - {ip}] else nsA)
            && SetStep(h, loc, m, sets, ev)
               == (if ns in nsA && ip in nsA[ns] then sets[h(ns) := nsA[ns] - {ip}] else sets)
  {
  }

  lemma SetsNamespacePodAdd(h: string -> string, loc: SetNamer, m: Mem, sets: map<string, set<Ip>>, ns: string, ip: Ip)
    requires GoodNamer(h, loc) && LabelsOk(m.nps, m.nsAddresses) && SetsOk(h, loc, m.nps, m.nsAddresses, sets)
    ensures SetsOk(h, loc, m.nps, MemStep(h, m, NamespacePodAdd(ns, ip)).nsAddresses,
                   SetStep(h, loc, m, sets, NamespacePodAdd(ns, ip)))
  {
    PodAddStep(h, loc, m, sets, ns, ip);
    if ns in m.nsAddresses {
      SetsNsPodAdd(h, loc, m.nps, m.nsAddresses, sets, ns, ip);
    }
  }

  lemma SetsNamespacePodDel(h: string -> string, loc: SetNamer, m: Mem, sets: map<string, set<Ip>>, ns: string, ip: Ip)
    requires GoodNamer(h, loc) && LabelsOk(m.nps, m.nsAddresses) && SetsOk(h, loc, m.nps, m.nsAddresses, sets)
    ensures SetsOk(h, loc, m.nps, MemStep(h, m, NamespacePodDel(ns, ip)).nsAddresses,
                   SetStep(h, loc, m, sets, NamespacePodDel(ns, ip)))
  {
    PodDelStep(h, loc, m, sets, ns, ip);
    if ns in m.nsAddresses {
      SetsNsPodDel(h, loc, m.nps, m.nsAddresses, sets, ns, ip);
    }
  }

  lemma NamespaceKeepsNps(h: string -> string, m: Mem, ev: Event)
    requires ev.NamespaceAdd? || ev.NamespaceDel? || ev.NamespacePodAdd? || ev.NamespacePodDel?
    ensures MemStep(h, m, ev).nps == m.nps
  {
  }

  lemma SetsKeep(h: string -> string, m: Mem, ev: Event)
    requires ev.PeerPodAdd? || ev.PeerPodDel? || ev.RuleAdd?
    ensures MemStep(h, m, ev).nsAddresses == m.nsAddresses
  {
  }

  lemma SetsPolicyDelete(h: string -> string, loc: SetNamer, m: Mem, sets: map<string, set<Ip>>, ns: string,
                         name: string)
    requires GoodNamer(h, loc) && MemOk(m.nps) && LabelsOk(m.nps, m.nsAddresses)
             && SetsOk(h, loc, m.nps, m.nsAddresses, sets)
    requires (ns, name) in m.byKey ==> Live(m, m.byKey[(ns, name)])
    ensures SetsOk(h, loc, MemStep(h, m, PolicyDelete(ns, name)).nps, MemStep(h, m, PolicyDelete(ns, name)).nsAddresses,
                   SetStep(h, loc, m, sets, PolicyDelete(ns, name)))
  {
    if (ns, name) in m.byKey {
      SetsDelete(h, loc, m.nps, m.nsAddresses, sets, m.byKey[(ns, name)]);
    }
  }

  lemma SetDispatch(h: string -> string, loc: SetNamer, m: Mem, sets: map<string, set<Ip>>, ev: Event)
    requires GoodNamer(h, loc) && MemOk(m.nps) && LabelsOk(m.nps, m.nsAddresses)
             && SetsOk(h, loc, m.nps, m.nsAddresses, sets)
    requires ev.PeerPodAdd? || ev.PeerPodDel? ==> LiveRule(m, ev.id, ev.rid) ==> NeedsSet(m.nps[ev.id].spec, ev.rid)
    requires ev.PolicyDelete? && (ev.ns, ev.name) in m.byKey ==> Live(m, m.byKey[(ev.ns, ev.name)])
    requires ev.NamespaceAdd? ==> Label(ev.ns)
    ensures SetsOk(h, loc, MemStep(h, m, ev).nps, MemStep(h, m, ev).nsAddresses, SetStep(h, loc, m, sets, ev))
  {
    if ev.RuleAdd? {
      SetsKeep(h, m, ev);
      SetsRuleAdd(h, loc, m, sets, ev.id, ev.rid);
    } else if ev.PeerPodAdd? {
      SetsKeep(h, m, ev);
      if LiveRule(m, ev.id, ev.rid) {
        SetsPeerPodAdd(h, loc, m, sets, ev.id, ev.rid, ev.ip);
      }
    } else if ev.PeerPodDel? {
      SetsKeep(h, m, ev);
      if LiveRule(m, ev.id, ev.rid) {
        SetsPeerPodDel(h, loc, m, sets, ev.id, ev.rid, ev.ip);
      }
    } else if ev.PolicyDelete? {
      SetsPolicyDelete(h, loc, m, sets, ev.ns, ev.name);
    } else if KeepsSets(ev) {
      SetsRest(h, loc, m, sets, ev);
    } else {
      NamespaceKeepsNps(h, m, ev);
      if ev.NamespaceAdd? {
        SetsNamespaceAdd(h, loc, m, sets, ev.ns, ev.ips);
      } else if ev.NamespaceDel? {
        SetsNamespaceDel(h, loc, m, sets, ev.ns);
      } else if ev.NamespacePodAdd? {
        SetsNamespacePodAdd(h, loc, m, sets, ev.ns, ev.ip);
      } else {
        SetsNamespacePodDel(h, loc, m, sets, ev.ns, ev.ip);
      }
    }
  }

  lemma SetStepOk(h: string -> string, loc: SetNamer, w: World, m: Mem, sets: map<string, set<Ip>>, ev: Event)
    requires GoodHash(h) && GoodNamer(h, loc) && WorldOk(w) && Sim(h, w, m) && Legal(w, ev)
             && SetsOk(h, loc, m.nps, m.nsAddresses, sets)
    ensures SetsOk(h, loc, MemStep(h, m, ev).nps, MemStep(h, m, ev).nsAddresses, SetStep(h, loc, m, sets, ev))
  {
    MemOkOf(h, w, m);
    LabelsOkOf(h, w, m);
    if (ev.PeerPodAdd? || ev.PeerPodDel?) && LiveRule(m, ev.id, ev.rid) {
      RuleNeedsSet(h, w, m, ev.id, ev.rid);
    }
    SetDispatch(h, loc, m, sets, ev);
  }
}
