/** Laws of whole runs of the port-group back-end: lookups by old match succeed, the state does
    not depend on how it was reached, and a deleted policy never acts again. */
module PolicyRuns {
  import opened Strings
  import opened Acl
  import opened Gress
  import opened PolicyWorld
  import opened PolicyMemory
  import opened AclRows
  import opened AclTable
  import opened AddressSets
  import opened PortGroupBackend

  // ------------------------------------------------------- stored matches are current

  lemma FindsOnly(txt: Printer, t: Table, o: Owner, rid: RuleId, r: Rule, l4: L4Match, n: nat)
    requires GoodPrinter(txt) && RuleRowsAre(t, o, rid, r, [], r.peers + r.peers) && PlainRule(r) && r.peers != []
    requires n in t.rows && t.rows[n].ids == AllowIds(l4, false, o.key, rid, o.at)
    ensures FindByMatch(txt, t, txt(PeersMatch(o, rid, r.peers, l4)), o, rid) == {n}
  {
    var found := FindByMatch(txt, t, txt(PeersMatch(o, rid, r.peers, l4)), o, rid);
    forall i | i in t.rows ensures i in found <==> i == n {
      FindExactly(txt, t, o, rid, r, [], r.peers + r.peers, l4, i);
    }
  }

  lemma LookupFindsOne(txt: Printer, t: Table, nps: map<nat, Np>, ready: bool, id: nat, rid: RuleId, l4: L4Match)
    requires GoodPrinter(txt) && MemOk(nps) && TableOk(t, Expected(nps, ready)) && id in nps && !nps[id].deleted
             && rid in nps[id].rules
    requires nps[id].rules[rid].peers != [] && l4 in L4Matches(nps[id].rules[rid].ports)
    ensures exists i ::
              FindByMatch(txt, t, txt(PeersMatch(OwnerOf(nps[id]), rid, nps[id].rules[rid].peers, l4)),
                          OwnerOf(nps[id]), rid) == {i}
                        && i in t.rows && t.rows[i].ids == AllowIds(l4, false, nps[id].spec.Key(), rid, Everywhere)
  {
    var o, r := OwnerOf(nps[id]), nps[id].rules[rid];
    assert PlainRule(r);
    TableRuleRows(t, nps, ready, id, rid, r.peers + r.peers);
    var n :| n in t.rows && t.rows[n].ids == AllowIds(l4, false, o.key, rid, o.at);
    FindsOnly(txt, t, o, rid, r, l4, n);
  }

  /** In every reachable state a rule declared with peers prints a match on its address sets,
      never "ip4", and looking any of its allow ACLs up by the printed match finds exactly the
      row carrying that rule's ids. */
  lemma LookupsSucceed(h: string -> string, evs: seq<Event>, id: nat, rid: RuleId, l4: L4Match)
    requires GoodHash(h) && LegalRun(evs) && HasRule(Run(evs), id, rid)
    requires Run(evs).policies[id].rules[rid].spec.peers != []
             && l4 in L4Matches(Run(evs).policies[id].rules[rid].spec.ports)
    ensures LiveRule(MemRun(h, evs), id, rid)
    ensures var np := MemRun(h, evs).nps[id];
            var m := PeersMatch(OwnerOf(np), rid, np.rules[rid].peers, l4);
            && m.l3 == AddressSets(np.rules[rid].peers) && StrictlySorted(np.rules[rid].peers)
            && Elements(np.rules[rid].peers) == PeerNames(h, np.spec, rid, Run(evs).policies[id].rules[rid])
            && exists i :: FindByMatch(MatchText, DbRun(h, MatchText, evs).acls, MatchText(m), OwnerOf(np), rid) == {i}
                           && i in DbRun(h, MatchText, evs).acls.rows
                           && DbRun(h, MatchText, evs).acls.rows[i].ids
                           == AllowIds(l4, false, np.spec.Key(), rid, Everywhere)
  {
    var w, m, db := Run(evs), MemRun(h, evs), DbRun(h, MatchText, evs);
    MemoryMirrorsWorld(h, evs);
    DatabaseMirrorsMemory(h, evs);
    MatchTextIsGood();
    MemOkOf(h, w, m);
    RuleParts(h, w, m, id, rid);
    PeerNamesPlain(h, m.nps[id].spec, rid, w.policies[id].rules[rid], m.nps[id].rules[rid]);
    LookupFindsOne(MatchText, db.acls, m.nps, db.ready, id, rid, l4);
  }

  /** Default-deny reference counting over every run: the counter of a port whose pod exists is
      the number of live policies that hold it and deny the direction, and the port is in the
      deny group exactly when there is one. */
  lemma DenyCountersExact(h: string -> string, evs: seq<Event>, dir: Direction, port: string)
    requires GoodHash(h) && LegalRun(evs) && port in Run(evs).alive
    ensures Count(MemRun(h, evs), dir, port) == |Holders(Run(evs).policies, dir, port)|
    ensures var groups := DbRun(h, MatchText, evs).groups;
            (DenyGroup(dir) in groups && port in groups[DenyGroup(dir)])
              <==> Holders(Run(evs).policies, dir, port) != {}
  {
    MemoryMirrorsWorld(h, evs);
    DatabaseMirrorsMemory(h, evs);
  }

  /** Address sets over every run: a rule's set holds exactly the pod addresses its selectors
      have selected, and a namespace's set exactly its pods' addresses. */
  lemma AddressSetsExact(h: string -> string, evs: seq<Event>, id: nat, rid: RuleId, ns: string)
    requires GoodHash(h) && LegalRun(evs)
    ensures var w, sets := Run(evs), DbRun(h, MatchText, evs).sets;
            && (HasRule(w, id, rid) && w.policies[id].rules[rid].spec.peers != [] ==>
                  var n := h(LocalPeerPods(w.policies[id].spec, rid));
                  n in sets && sets[n] == w.policies[id].rules[rid].podIps)
            && (ns in w.nsPods ==> h(ns) in sets && sets[h(ns)] == w.nsPods[ns])
  {
    MemoryMirrorsWorld(h, evs);
    DatabaseMirrorsMemory(h, evs);
    var w, m := Run(evs), MemRun(h, evs);
    if HasRule(w, id, rid) && w.policies[id].rules[rid].spec.peers != [] {
      RuleParts(h, w, m, id, rid);
      RuleNeedsSet(h, w, m, id, rid);
      assert PeerSet(m.nps, id, rid);
    }
  }

  // ------------------------------------------------------- history independence

  ghost predicate HasPolicy(ps: map<nat, Policy>, p: Policy) { exists i | i in ps :: ps[i] == p }

  /** The same live policies with the same pods and peers, up to object numbers. */
  ghost predicate SamePolicies(ps: map<nat, Policy>, qs: map<nat, Policy>) {
    forall p :: HasPolicy(ps, p) <==> HasPolicy(qs, p)
  }

  ghost predicate SameWorld(w: World, v: World) {
    SamePolicies(w.policies, v.policies) && w.alive == v.alive && w.nsPods == v.nsPods
  }

  lemma NpUnique(h: string -> string, p: Policy, a: Np, b: Np)
    requires NpSim(h, p, a) && NpSim(h, p, b)
    ensures a == b
  {
    forall rid | rid in p.rules ensures a.rules[rid] == b.rules[rid] && a.addressMaps[rid] == b.addressMaps[rid] {
      StrictlySortedUnique(a.rules[rid].peers, b.rules[rid].peers);
    }
    assert a.rules == b.rules && a.addressMaps == b.addressMaps;
  }

  ghost predicate HasLive(nps: map<nat, Np>, np: Np) { !np.deleted && exists i | i in nps :: nps[i] == np }

  /** The same live policy objects, up to their numbers. */
  ghost predicate SameNps(nps: map<nat, Np>, nqs: map<nat, Np>) {
    forall np :: HasLive(nps, np) <==> HasLive(nqs, np)
  }

  lemma NpFound(h: string -> string, ps: map<nat, Policy>, nps: map<nat, Np>, qs: map<nat, Policy>, nqs: map<nat, Np>,
                np: Np)
    requires PoliciesSim(h, ps, nps) && PoliciesSim(h, qs, nqs) && SamePolicies(ps, qs) && HasLive(nps, np)
    ensures HasLive(nqs, np)
  {
    var i :| i in nps && nps[i] == np;
    assert HasPolicy(ps, ps[i]);
    var j :| j in qs && qs[j] == ps[i];
    NpUnique(h, ps[i], np, nqs[j]);
  }

  lemma SameObjects(h: string -> string, ps: map<nat, Policy>, nps: map<nat, Np>, qs: map<nat, Policy>,
                    nqs: map<nat, Np>)
    requires PoliciesSim(h, ps, nps) && PoliciesSim(h, qs, nqs) && SamePolicies(ps, qs)
    ensures SameNps(nps, nqs)
  {
    forall np ensures HasLive(nps, np) <==> HasLive(nqs, np) {
      if HasLive(nps, np) {
        NpFound(h, ps, nps, qs, nqs, np);
      }
      if HasLive(nqs, np) {
        NpFound(h, qs, nqs, ps, nps, np);
      }
    }
  }

  lemma RowCarriesOver(nps: map<nat, Np>, ready: bool, nqs: map<nat, Np>, ready': bool, row: Row)
    requires SameNps(nps, nqs) && IsExpected(nps, ready, row) && (row.ids.DenyIds? && ready ==> ready')
    ensures IsExpected(nqs, ready', row)
  {
    if i: nat, rid, k :| IsRuleRow(nps, i, rid, k, row) {
      assert HasLive(nps, nps[i]);
      var j :| j in nqs && nqs[j] == nps[i];
      assert IsRuleRow(nqs, j, rid, k, row);
    }
  }

  predicate Stored(t: Table, row: Row) { exists i | i in t.rows :: t.rows[i] == row }

  lemma StoredIsExpected(t: Table, e: iset<Row>, row: Row)
    requires TableOk(t, e)
    ensures Stored(t, row) <==> row in e
  {
  }

  lemma SameRow(t: Table, nps: map<nat, Np>, ready: bool, t': Table, nqs: map<nat, Np>, ready': bool, row: Row)
    requires SameNps(nps, nqs) && TableOk(t, Expected(nps, ready)) && TableOk(t', Expected(nqs, ready'))
    ensures !row.ids.DenyIds? || ready == ready' ==> (Stored(t, row) <==> Stored(t', row))
  {
    StoredIsExpected(t, Expected(nps, ready), row);
    StoredIsExpected(t', Expected(nqs, ready'), row);
    if (!row.ids.DenyIds? || ready == ready') && IsExpected(nps, ready, row) {
      RowCarriesOver(nps, ready, nqs, ready', row);
    }
    if (!row.ids.DenyIds? || ready == ready') && IsExpected(nqs, ready', row) {
      RowCarriesOver(nqs, ready', nps, ready, row);
    }
  }

  /** The default-deny ACLs are stored exactly when the default-deny groups were ever needed. */
  lemma DenyRowStored(t: Table, nps: map<nat, Np>, ready: bool)
    requires TableOk(t, Expected(nps, ready))
    ensures Stored(t, DenyRow(Ingress)) <==> ready
  {
    StoredIsExpected(t, Expected(nps, ready), DenyRow(Ingress));
    assert ready ==> IsExpected(nps, ready, DenyRow(Ingress));
  }

  function HolderKeys(ps: map<nat, Policy>, ids: set<nat>): set<(string, string)>
    requires forall id | id in ids :: id in ps
  {
    set id | id in ids :: ps[id].spec.Key()
  }

  lemma {:induction false} HolderKeysCount(ps: map<nat, Policy>, ids: set<nat>)
    requires forall id | id in ids :: id in ps
    requires forall i, j | i in ids && j in ids :: ps[i].spec.Key() == ps[j].spec.Key() ==> i == j
    ensures |HolderKeys(ps, ids)| == |ids|
  {
    if ids == {} {
      assert HolderKeys(ps, ids) == {};
    } else {
      var id :| id in ids;
      HolderKeysCount(ps, ids - {id});
      assert HolderKeys(ps, ids) == HolderKeys(ps, ids - {id}) + {ps[id].spec.Key()};
    }
  }

  lemma SameHolderCount(w: World, v: World, dir: Direction, port: string)
    requires WorldOk(w) && WorldOk(v) && SamePolicies(w.policies, v.policies)
    ensures |Holders(w.policies, dir, port)| == |Holders(v.policies, dir, port)|
  {
    var a, b := Holders(w.policies, dir, port), Holders(v.policies, dir, port);
    HolderKeysCount(w.policies, a);
    HolderKeysCount(v.policies, b);
    KeysCarryOver(w.policies, v.policies, dir, port);
    KeysCarryOver(v.policies, w.policies, dir, port);
    assert HolderKeys(w.policies, a) == HolderKeys(v.policies, b);
  }

  lemma KeysCarryOver(ps: map<nat, Policy>, qs: map<nat, Policy>, dir: Direction, port: string)
    requires SamePolicies(ps, qs)
    ensures HolderKeys(ps, Holders(ps, dir, port)) <= HolderKeys(qs, Holders(qs, dir, port))
  {
    forall k | k in HolderKeys(ps, Holders(ps, dir, port)) ensures k in HolderKeys(qs, Holders(qs, dir, port)) {
      var i :| i in Holders(ps, dir, port) && k == ps[i].spec.Key();
      assert HasPolicy(ps, ps[i]);
      var j :| j in qs && qs[j] == ps[i];
      assert j in Holders(qs, dir, port);
    }
  }

  function Members(groups: map<string, set<string>>, g: string): set<string> { if g in groups then groups[g] else {} }

  lemma DenyMembers(m: Mem, groups: map<string, set<string>>, ready: bool, dir: Direction)
    requires GroupsOk(m, groups, ready)
    ensures Members(groups, DenyGroup(dir)) == set p | p in m.lsps && Count(m, dir, p) > 0
  {
  }

  lemma SameDenyMembers(m: Mem, groups: map<string, set<string>>, ready: bool, m': Mem,
                        groups': map<string, set<string>>, ready': bool, dir: Direction)
    requires GroupsOk(m, groups, ready) && GroupsOk(m', groups', ready') && m.lsps == m'.lsps
    requires forall p :: Count(m, dir, p) == Count(m', dir, p)
    ensures Members(groups, DenyGroup(dir)) == Members(groups', DenyGroup(dir))
  {
    DenyMembers(m, groups, ready, dir);
    DenyMembers(m', groups', ready', dir);
  }

  lemma SamePolicyMembers(m: Mem, groups: map<string, set<string>>, m': Mem, groups': map<string, set<string>>,
                          g: string)
    requires SameNps(m.nps, m'.nps) && m.lsps == m'.lsps && PolicyGroupsOk(m, groups) && PolicyGroupsOk(m', groups')
             && OnlyGroups(m, groups)
    requires g in groups && g != DenyGroup(Ingress) && g != DenyGroup(Egress)
    ensures g in groups' && groups'[g] == groups[g]
  {
    var i :| Live(m, i) && m.nps[i].group == g;
    assert HasLive(m.nps, m.nps[i]);
    var j :| j in m'.nps && m'.nps[j] == m.nps[i];
    assert Live(m', j);
  }

  lemma SameMembers(m: Mem, groups: map<string, set<string>>, ready: bool, m': Mem, groups': map<string, set<string>>,
                    ready': bool, g: string)
    requires GroupsOk(m, groups, ready) && GroupsOk(m', groups', ready') && m.lsps == m'.lsps && SameNps(m.nps, m'.nps)
    requires forall dir, p :: Count(m, dir, p) == Count(m', dir, p)
    ensures Members(groups, g) == Members(groups', g)
  {
    if g == DenyGroup(Ingress) {
      SameDenyMembers(m, groups, ready, m', groups', ready', Ingress);
    } else if g == DenyGroup(Egress) {
      SameDenyMembers(m, groups, ready, m', groups', ready', Egress);
    } else if g in groups {
      SamePolicyMembers(m, groups, m', groups', g);
    } else if g in groups' {
      SamePolicyMembers(m', groups', m, groups, g);
    }
  }

  lemma SetCarriesOver(h: string -> string, loc: SetNamer, nps: map<nat, Np>, nqs: map<nat, Np>,
                       nsA: map<string, set<Ip>>,
                       sets: map<string, set<Ip>>, sets': map<string, set<Ip>>, n: string)
    requires SetsOk(h, loc, nps, nsA, sets) && SetsOk(h, loc, nqs, nsA, sets') && SameNps(nps, nqs) && n in sets
    ensures n in sets' && sets'[n] == sets[n]
  {
    assert KnownSet(h, loc, nps, nsA, n);
    if i, rid :| PeerSet(nps, i, rid) && n == loc(nps[i].spec, rid) {
      assert HasLive(nps, nps[i]);
      var j :| j in nqs && nqs[j] == nps[i];
      assert PeerSet(nqs, j, rid);
    }
  }

  lemma SameSets(h: string -> string, loc: SetNamer, nps: map<nat, Np>, nqs: map<nat, Np>, nsA: map<string, set<Ip>>,
                 sets: map<string, set<Ip>>, sets': map<string, set<Ip>>)
    requires SetsOk(h, loc, nps, nsA, sets) && SetsOk(h, loc, nqs, nsA, sets') && SameNps(nps, nqs)
    ensures sets == sets'
  {
    forall n | n in sets ensures n in sets' && sets'[n] == sets[n] {
      SetCarriesOver(h, loc, nps, nqs, nsA, sets, sets', n);
    }
    forall n | n in sets' ensures n in sets {
      SetCarriesOver(h, loc, nqs, nps, nsA, sets', sets, n);
    }
  }

  lemma CountIs(h: string -> string, w: World, m: Mem, dir: Direction, p: string)
    requires Sim(h, w, m)
    ensures Count(m, dir, p) == if p in w.alive then |Holders(w.policies, dir, p)| else 0
  {
    assert p in w.alive <==> p in w.alive.Keys;
  }

  lemma SameCounts(h: string -> string, w: World, m: Mem, v: World, m': Mem)
    requires WorldOk(w) && WorldOk(v) && Sim(h, w, m) && Sim(h, v, m') && SameWorld(w, v)
    ensures forall dir, p :: Count(m, dir, p) == Count(m', dir, p)
  {
    forall dir, p ensures Count(m, dir, p) == Count(m', dir, p) {
      SameHolderCount(w, v, dir, p);
      CountIs(h, w, m, dir, p);
      CountIs(h, v, m', dir, p);
    }
  }

  /** Everything of the database and the memory that a run determines. */
  ghost predicate SameState(m: Mem, db: Db, m': Mem, db': Db) {
    && SameNps(m.nps, m'.nps)
    && (forall dir, p :: Count(m, dir, p) == Count(m', dir, p))
    && (forall g :: Members(db.groups, g) == Members(db'.groups, g))
    && db.sets == db'.sets
    && (forall row: Row | !row.ids.DenyIds? :: Stored(db.acls, row) <==> Stored(db'.acls, row))
  }

  lemma StatesAgree(h: string -> string, w: World, m: Mem, db: Db, v: World, m': Mem, db': Db)
    requires WorldOk(w) && WorldOk(v) && Sim(h, w, m) && Sim(h, v, m') && SameWorld(w, v) && DbOk(h, m, db)
             && DbOk(h, m', db')
    ensures SameState(m, db, m', db')
    ensures (forall row :: Stored(db.acls, row) <==> Stored(db'.acls, row)) <==> db.ready == db'.ready
  {
    SameObjects(h, w.policies, m.nps, v.policies, m'.nps);
    SameCounts(h, w, m, v, m');
    SameSets(h, Namer(h), m.nps, m'.nps, m.nsAddresses, db.sets, db'.sets);
    forall g ensures Members(db.groups, g) == Members(db'.groups, g) {
      SameMembers(m, db.groups, db.ready, m', db'.groups, db'.ready, g);
    }
    forall row: Row
      ensures !row.ids.DenyIds? || db.ready == db'.ready ==> (Stored(db.acls, row) <==> Stored(db'.acls, row))
    {
      SameRow(db.acls, m.nps, db.ready, db'.acls, m'.nps, db'.ready, row);
    }
    DenyRowStored(db.acls, m.nps, db.ready);
    DenyRowStored(db'.acls, m'.nps, db'.ready);
  }

  /** The event makes a live policy select an existing pod it did not hold. */
  predicate SelectsPod(w: World, ev: Event) {
    ev.LocalPodAdd? && ev.id in w.policies && ev.port in w.alive && ev.port !in w.policies[ev.id].pods
  }

  /** Some policy selected some pod during the run. */
  ghost predicate EverSelected(evs: seq<Event>) {
    exists n | 0 <= n < |evs| :: SelectsPod(Run(evs[..n]), evs[n])
  }

  lemma SelectedSnoc(evs: seq<Event>)
    requires evs != []
    ensures var n := |evs| - 1; EverSelected(evs) <==> EverSelected(evs[..n]) || SelectsPod(Run(evs[..n]), evs[n])
  {
    var n := |evs| - 1;
    var init := evs[..n];
    if i :| 0 <= i < |evs| && SelectsPod(Run(evs[..i]), evs[i]) {
      if i < n {
        assert init[..i] == evs[..i] && init[i] == evs[i];
        assert SelectsPod(Run(init[..i]), init[i]);
      }
    }
    if i :| 0 <= i < |init| && SelectsPod(Run(init[..i]), init[i]) {
      assert init[..i] == evs[..i] && init[i] == evs[i];
      assert SelectsPod(Run(evs[..i]), evs[i]);
    }
  }

  lemma SelectsIsNew(h: string -> string, w: World, m: Mem, ev: Event)
    requires Sim(h, w, m)
    ensures SelectsPod(w, ev) <==> ev.LocalPodAdd? && PodIsNew(m, ev.id, ev.port)
  {
    if ev.LocalPodAdd? {
      PodParts(h, w, m, ev.id);
    }
  }

  /** The default-deny groups and their ACLs are there exactly when some policy ever selected a
      pod. */
  lemma {:induction false} ReadyMeans(h: string -> string, evs: seq<Event>)
    requires GoodHash(h) && LegalRun(evs)
    ensures DbRun(h, MatchText, evs).ready <==> EverSelected(evs)
  {
    if evs != [] {
      var n := |evs| - 1;
      ReadyMeans(h, evs[..n]);
      MemoryMirrorsWorld(h, evs[..n]);
      SelectedSnoc(evs);
      SelectsIsNew(h, Run(evs[..n]), MemRun(h, evs[..n]), evs[n]);
    }
  }

  /** History independence: two runs that end with the same live policies, local pods and peer
      sets end with the same policy objects, counters, group members, address sets and rule
      ACLs. The whole ACL tables agree exactly when both runs, or neither, ever selected a pod. */
  lemma HistoryIndependence(h: string -> string, evs: seq<Event>, evs': seq<Event>)
    requires GoodHash(h) && LegalRun(evs) && LegalRun(evs') && SameWorld(Run(evs), Run(evs'))
    ensures SameState(MemRun(h, evs), DbRun(h, MatchText, evs), MemRun(h, evs'), DbRun(h, MatchText, evs'))
    ensures (forall row :: Stored(DbRun(h, MatchText, evs).acls, row) <==> Stored(DbRun(h, MatchText, evs').acls, row))
       <==> (EverSelected(evs) <==> EverSelected(evs'))
  {
    MemoryMirrorsWorld(h, evs);
    MemoryMirrorsWorld(h, evs');
    DatabaseMirrorsMemory(h, evs);
    DatabaseMirrorsMemory(h, evs');
    ReadyMeans(h, evs);
    ReadyMeans(h, evs');
    StatesAgree(h, Run(evs), MemRun(h, evs), DbRun(h, MatchText, evs), Run(evs'), MemRun(h, evs'),
                DbRun(h, MatchText, evs'));
  }

  const SomePolicy := PolicySpec("n", "p", [], [], [])

  /** A namespace, a policy in it and a pod. */
  function Unselected(): seq<Event> {
    [] + [NamespaceAdd("n", {})] + [PolicyAdd(0, SomePolicy)] + [PodUp("n_x", Pod("n", "a"))]
  }

  /** The same, and then the pod was selected for a while. */
  function SelectedOnce(): seq<Event> { Unselected() + [LocalPodAdd(0, "n_x")] + [LocalPodDel(0, "n_x")] }

  lemma UnselectedRun()
    ensures LegalRun(Unselected()) && !EverSelected(Unselected())
    ensures Run(Unselected())
         == World(map[0 := Policy(SomePolicy, map[], map[])], {0}, map["n_x" := Pod("n", "a")], map["n" := {}])
  {
    var e1 := [] + [NamespaceAdd("n", {})];
    var e2 := e1 + [PolicyAdd(0, SomePolicy)];
    LegalSnoc([], NamespaceAdd("n", {}));
    LegalSnoc(e1, PolicyAdd(0, SomePolicy));
    LegalSnoc(e2, PodUp("n_x", Pod("n", "a")));
    assert Run([]) == Empty;
    assert Run(e1) == World(map[], {}, map[], map["n" := {}]);
    assert forall i | 0 <= i < |Unselected()| :: !Unselected()[i].LocalPodAdd?;
  }

  lemma SelectedOnceRun(e: seq<Event>)
    requires LegalRun(e)
    requires Run(e) == World(map[0 := Policy(SomePolicy, map[], map[])], {0}, map["n_x" := Pod("n", "a")],
                             map["n" := {}])
    ensures var e'' := e + [LocalPodAdd(0, "n_x")] + [LocalPodDel(0, "n_x")];
            LegalRun(e'') && EverSelected(e'') && SameWorld(Run(e), Run(e''))
  {
    var w, e' := Run(e), e + [LocalPodAdd(0, "n_x")];
    var e'' := e' + [LocalPodDel(0, "n_x")];
    LegalSnoc(e, LocalPodAdd(0, "n_x"));
    LegalSnoc(e', LocalPodDel(0, "n_x"));
    var held := WorldStep(w, LocalPodAdd(0, "n_x"));
    assert held.policies == map[0 := Policy(SomePolicy, map[], map["n_x" := "a"])];
    assert WorldStep(held, LocalPodDel(0, "n_x")).policies == w.policies;
    assert e''[..|e|] == e && e''[|e|] == LocalPodAdd(0, "n_x");
    assert SelectsPod(Run(e''[..|e|]), e''[|e|]);
  }

  /** Two legal runs with the same outcome whose ACL tables differ: in one the pod was selected
      for a while, which left the default-deny ACLs behind. */
  lemma DenyRowsRemember(h: string -> string)
    requires GoodHash(h)
    ensures LegalRun(Unselected()) && LegalRun(SelectedOnce()) && SameWorld(Run(Unselected()), Run(SelectedOnce()))
    ensures !EverSelected(Unselected()) && EverSelected(SelectedOnce())
    ensures Stored(DbRun(h, MatchText, SelectedOnce()).acls, DenyRow(Ingress))
    ensures !Stored(DbRun(h, MatchText, Unselected()).acls, DenyRow(Ingress))
  {
    UnselectedRun();
    SelectedOnceRun(Unselected());
    DenyStoredMeans(h, Unselected());
    DenyStoredMeans(h, SelectedOnce());
  }

  lemma DenyStoredMeans(h: string -> string, evs: seq<Event>)
    requires GoodHash(h) && LegalRun(evs)
    ensures Stored(DbRun(h, MatchText, evs).acls, DenyRow(Ingress)) <==> EverSelected(evs)
  {
    DatabaseMirrorsMemory(h, evs);
    DenyRowStored(DbRun(h, MatchText, evs).acls, MemRun(h, evs).nps, DbRun(h, MatchText, evs).ready);
    ReadyMeans(h, evs);
  }

  // ------------------------------------------------------- deletion is final

  /** No handler of a deleted policy object changes anything. */
  lemma DeletedHandlerIsInert(h: string -> string, txt: Printer, m: Mem, db: Db, ev: Event, id: nat)
    requires Deleted(m, id) && HandlerOf(ev, id)
    ensures MemStep(h, m, ev) == m && DbStep(h, txt, m, db, ev) == db
  {
  }

  function WithoutHandlers(evs: seq<Event>, id: nat): seq<Event> {
    if evs == [] then []
    else if HandlerOf(evs[|evs| - 1], id) then WithoutHandlers(evs[..|evs| - 1], id)
    else WithoutHandlers(evs[..|evs| - 1], id) + [evs[|evs| - 1]]
  }

  lemma RunSnoc(h: string -> string, txt: Printer, evs: seq<Event>, ev: Event)
    ensures MemRun(h, evs + [ev]) == MemStep(h, MemRun(h, evs), ev)
    ensures DbRun(h, txt, evs + [ev]) == DbStep(h, txt, MemRun(h, evs), DbRun(h, txt, evs), ev)
  {
    assert (evs + [ev])[..|evs|] == evs;
  }

  /** Runs that end in the same state go on alike. */
  lemma SameNext(h: string -> string, txt: Printer, a: seq<Event>, b: seq<Event>, ev: Event)
    requires MemRun(h, a) == MemRun(h, b) && DbRun(h, txt, a) == DbRun(h, txt, b)
    ensures MemRun(h, a + [ev]) == MemRun(h, b + [ev]) && DbRun(h, txt, a + [ev]) == DbRun(h, txt, b + [ev])
  {
    RunSnoc(h, txt, a, ev);
    RunSnoc(h, txt, b, ev);
  }

  lemma SkipHandler(h: string -> string, txt: Printer, a: seq<Event>, ev: Event, id: nat)
    requires Deleted(MemRun(h, a), id) && HandlerOf(ev, id)
    ensures MemRun(h, a + [ev]) == MemRun(h, a) && DbRun(h, txt, a + [ev]) == DbRun(h, txt, a)
  {
    RunSnoc(h, txt, a, ev);
    DeletedHandlerIsInert(h, txt, MemRun(h, a), DbRun(h, txt, a), ev, id);
  }

  lemma WithoutSnoc(before: seq<Event>, after: seq<Event>, id: nat)
    requires after != []
    ensures var n := |after| - 1;
            var b := before + WithoutHandlers(after[..n], id);
            && before + after == before + after[..n] + [after[n]]
            && before + WithoutHandlers(after, id) == if HandlerOf(after[n], id) then b else b + [after[n]]
  {
  }

  /** One more event, left out when it is a call of the deleted policy's handlers. */
  lemma FinalStep(h: string -> string, a: seq<Event>, b: seq<Event>, ev: Event, id: nat, a': seq<Event>,
                  b': seq<Event>)
    requires Deleted(MemRun(h, a), id)
    requires MemRun(h, a) == MemRun(h, b) && DbRun(h, MatchText, a) == DbRun(h, MatchText, b)
    requires a' == a + [ev] && b' == if HandlerOf(ev, id) then b else b + [ev]
    ensures MemRun(h, a') == MemRun(h, b') && DbRun(h, MatchText, a') == DbRun(h, MatchText, b')
  {
    if HandlerOf(ev, id) {
      SkipHandler(h, MatchText, a, ev, id);
    } else {
      SameNext(h, MatchText, a, b, ev);
    }
  }

  lemma {:induction false} StaysDeleted(h: string -> string, before: seq<Event>, after: seq<Event>, id: nat)
    requires Deleted(MemRun(h, before), id)
    ensures Deleted(MemRun(h, before + after), id)
    decreases |after|
  {
    if after == [] {
      assert before + after == before;
    } else {
      var n := |after| - 1;
      StaysDeleted(h, before, after[..n], id);
      assert before + after == before + after[..n] + [after[n]];
      RunSnoc(h, MatchText, before + after[..n], after[n]);
      DeletedStays(h, MemRun(h, before + after[..n]), after[n], id);
    }
  }

  /** Deletion is final: once a policy object is deleted, leaving out every later call of its
      handlers, however many were registered late or were awaiting removal, gives the same
      counters, address maps, ACLs, port groups and address sets. */
  lemma {:induction false} DeletionIsFinal(h: string -> string, before: seq<Event>, after: seq<Event>, id: nat)
    requires Deleted(MemRun(h, before), id)
    ensures MemRun(h, before + after) == MemRun(h, before + WithoutHandlers(after, id))
    ensures DbRun(h, MatchText, before + after) == DbRun(h, MatchText, before + WithoutHandlers(after, id))
    decreases |after|
  {
    if after != [] {
      var n := |after| - 1;
      DeletionIsFinal(h, before, after[..n], id);
      StaysDeleted(h, before, after[..n], id);
      WithoutSnoc(before, after, id);
      FinalStep(h, before + after[..n], before + WithoutHandlers(after[..n], id), after[n], id, before + after,
                before + WithoutHandlers(after, id));
    }
  }
}
