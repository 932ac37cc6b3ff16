/** The controller's in-memory policy state, which both back-ends share: policy objects, peer
    lists, local pods, address maps and the default-deny reference counters. */
module PolicyMemory {
  import opened Strings
  import opened Acl
  import opened Gress
  import opened PolicyWorld

  // ------------------------------------------------------- names

  function DirText(dir: Direction): string { if dir == Ingress then "ingress" else "egress" }

  /** "%s.%s.%s.%d": the address set of the pods a rule selects. */
  function LocalPeerPods(spec: PolicySpec, rid: RuleId): string {
    spec.ns + "." + ((spec.name + "." + DirText(rid.dir)) + "." + Decimal(rid.idx))
  }

  /** "%s_%s": the readable name of a policy's port group. */
  function ReadableGroup(spec: PolicySpec): string { spec.ns + "_" + spec.name }

  /** What forEachAddressSetUnhashedName reads back from the name: the namespace, and the policy exactly
      when its name has no dot. */
  lemma LocalPeerPodsReadBack(spec: PolicySpec, rid: RuleId)
    requires '.' !in spec.ns
    ensures var names := Split(LocalPeerPods(spec, rid), '.');
            && names == [spec.ns] + (Split(spec.name, '.') +
                                     [if rid.dir == Ingress then "ingress" else "egress"] + [Decimal(rid.idx)])
            && names[0] == spec.ns && (names[1] == spec.name <==> '.' !in spec.name)
  {
    var head := spec.name + "." + DirText(rid.dir);
    SplitFirst(spec.ns, head + "." + Decimal(rid.idx), '.');
    SplitLast(head, Decimal(rid.idx), '.');
    SplitLast(spec.name, DirText(rid.dir), '.');
    FirstPiece(spec.name);
  }

  lemma FirstPiece(s: string)
    ensures Split(s, '.') != [] && (Split(s, '.')[0] == s <==> '.' !in s)
  {
    var i := FirstAt(s, '.');
    assert i == |s| ==> s[..i] == s;
  }

  /** What is assumed of hashForOVN: no collisions, and texts of the form "a<digits>". */
  ghost predicate GoodHash(h: string -> string) {
    && (forall s, t :: h(s) == h(t) ==> s == t)
    && (forall s :: PlainName(h(s)) && h(s) != [] && h(s)[0] == 'a')
  }

  /** A text spelled out in digits: every character as that many ones and a zero. */
  function Unary(s: string): string {
    if s == [] then [] else seq(s[0] as int, _ => '1') + ['0'] + Unary(s[1..])
  }

  lemma {:induction false} UnaryInjective(s: string, t: string)
    requires Unary(s) == Unary(t)
    ensures s == t
  {
    if s == [] || t == [] {
      assert s != [] ==> |Unary(s)| > 0;
      assert t != [] ==> |Unary(t)| > 0;
    } else {
      var a, b := seq(s[0] as int, _ => '1'), seq(t[0] as int, _ => '1');
      SplitAtFirst(a, Unary(s[1..]), b, Unary(t[1..]), '0');
      assert |a| == s[0] as int && |b| == t[0] as int;
      UnaryInjective(s[1..], t[1..]);
    }
  }

  lemma {:induction false} UnaryDigits(s: string, c: char)
    requires c in Unary(s)
    ensures c == '0' || c == '1'
  {
    if s != [] {
      if c in Unary(s[1..]) {
        UnaryDigits(s[1..], c);
      }
    }
  }

  /** There are such hashes. */
  lemma GoodHashExists() returns (h: string -> string)
    ensures GoodHash(h)
  {
    h := s => ['a'] + Unary(s);
    forall s, t | h(s) == h(t) ensures s == t {
      assert h(s)[1..] == Unary(s) && h(t)[1..] == Unary(t);
      UnaryInjective(s, t);
    }
    forall s ensures PlainName(h(s)) {
      forall c | c in h(s) ensures c == 'a' || c == '0' || c == '1' {
        if c != 'a' {
          UnaryDigits(s, c);
        }
      }
    }
  }

  /** A policy name may contain dots; the set name still determines policy and rule. */
  lemma LocalPeerPodsInjective(a: PolicySpec, i: RuleId, b: PolicySpec, j: RuleId)
    requires Label(a.ns) && Label(b.ns)
    requires LocalPeerPods(a, i) == LocalPeerPods(b, j)
    ensures a.Key() == b.Key() && i == j
  {
    var ra, rb := a.name + "." + DirText(i.dir), b.name + "." + DirText(j.dir);
    SplitAtFirst(a.ns, ra + "." + Decimal(i.idx), b.ns, rb + "." + Decimal(j.idx), '.');
    SplitAtLast(ra, Decimal(i.idx), rb, Decimal(j.idx), '.');
    SplitAtLast(a.name, DirText(i.dir), b.name, DirText(j.dir), '.');
    DecimalInjective(i.idx, j.idx);
    assert DirText(Ingress)[0] != DirText(Egress)[0];
  }

  /** A namespace's own set is never a rule's set. */
  lemma NamespaceIsNotLocal(ns: string, spec: PolicySpec, rid: RuleId)
    requires Label(ns)
    ensures ns != LocalPeerPods(spec, rid)
  {
  }

  lemma ReadableGroupInjective(a: PolicySpec, b: PolicySpec)
    requires Label(a.ns) && Label(b.ns) && ReadableGroup(a) == ReadableGroup(b)
    ensures a.Key() == b.Key()
  {
    SplitAtFirst(a.ns, a.name, b.ns, b.name, '_');
  }

  // ------------------------------------------------------- state

  datatype Np = Np(spec: PolicySpec, group: string, rules: map<RuleId, Rule>, addressMaps: map<RuleId, set<Ip>>,
                   localPods: map<string, string>, deleted: bool)

  /** `lsps` are the logical switch ports in the database, which getLogicalPortUUID looks up. */
  datatype Mem = Mem(nps: map<nat, Np>, byKey: map<(string, string), nat>,
                     nsAddresses: map<string, set<Ip>>, lsps: map<string, Pod>,
                     inCount: map<string, nat>, egCount: map<string, nat>)

  ghost predicate RulesInRange(np: Np) { forall rid | rid in np.rules :: rid.idx < |np.spec.Rules(rid.dir)| }

  predicate Live(m: Mem, id: nat) { id in m.nps && !m.nps[id].deleted }

  function Get(c: map<string, nat>, p: string): nat { if p in c then c[p] else 0 }

  function Count(m: Mem, dir: Direction, p: string): nat { Get(if dir == Ingress then m.inCount else m.egCount, p) }

  function Inc(c: map<string, nat>, p: string, on: bool): map<string, nat> {
    if on then c[p := Get(c, p) + 1] else c
  }

  function Dec(c: map<string, nat>, p: string, on: bool): map<string, nat> {
    if on && Get(c, p) > 0 then c[p := c[p] - 1] else c
  }

  /** One more, or one fewer, holder of a port when `on`; no other port's counter changes. */
  ghost predicate CountedIn(before: map<string, nat>, after: map<string, nat>, p: string, on: bool) {
    forall q :: Get(after, q) == if q == p && on then Get(before, q) + 1 else Get(before, q)
  }

  ghost predicate CountedOut(before: map<string, nat>, after: map<string, nat>, p: string, on: bool) {
    forall q :: Get(after, q) == if q == p && on && Get(before, q) > 0 then Get(before, q) - 1 else Get(before, q)
  }

  /** The counters follow the directions in which the policy isolates pods. */
  lemma CountersFollow(c: map<string, nat>, p: string, spec: PolicySpec, dir: Direction)
    ensures CountedIn(c, Inc(c, p, spec.Denies(dir)), p, spec.Isolates(dir))
    ensures CountedOut(c, Dec(c, p, spec.Denies(dir)), p, spec.Isolates(dir))
  {
    DeniesExactly(spec, dir);
  }

  /** Dec for every port of a set. */
  function DecAll(c: map<string, nat>, ports: set<string>, on: bool): map<string, nat> {
    map p | p in c :: if on && p in ports && c[p] > 0 then c[p] - 1 else c[p]
  }

  function NewRule(h: string -> string, spec: PolicySpec, rid: RuleId): Rule
    requires rid.idx < |spec.Rules(rid.dir)|
  {
    var r := spec.Rules(rid.dir)[rid.idx];
    var block := LastBlock(r.peers);
    Rule(if r.peers == [] then [] else [h(LocalPeerPods(spec, rid))], r.ports, block.cidr, block.except)
  }

  function WithNp(m: Mem, id: nat, np: Np): Mem { m.(nps := m.nps[id := np]) }

  function PutMemRule(m: Mem, id: nat, rid: RuleId, r: Rule, ips: set<Ip>): Mem
    requires id in m.nps
  {
    var np := m.nps[id];
    WithNp(m, id, np.(rules := np.rules[rid := r], addressMaps := np.addressMaps[rid := ips]))
  }

  predicate LiveRule(m: Mem, id: nat, rid: RuleId) {
    Live(m, id) && rid in m.nps[id].rules && rid in m.nps[id].addressMaps
  }

  /** addAddressSet on the rule's list; a list that is not sorted is left alone here, and
      never occurs. */
  function AddPeer(peers: seq<string>, name: string): seq<string> {
    if StrictlySorted(peers) && name !in peers then Insert(peers, name) else peers
  }

  function MemStep(h: string -> string, m: Mem, ev: Event): Mem {
    match ev
    case PolicyAdd(id, spec) =>
      if spec.Key() in m.byKey || spec.ns !in m.nsAddresses || id in m.nps then m
      else WithNp(m, id,
                  Np(spec, h(ReadableGroup(spec)), map[], map[], map[], false)).(byKey := m.byKey[spec.Key() := id])
    case RuleAdd(id, rid) =>
      if Live(m, id) && rid.idx < |m.nps[id].spec.Rules(rid.dir)| then
        PutMemRule(m, id, rid, NewRule(h, m.nps[id].spec, rid), {})
      else m
    case PolicyDelete(ns, name) =>
      if (ns, name) !in m.byKey || m.byKey[(ns, name)] !in m.nps then m
      else
        var id := m.byKey[(ns, name)];
        var np := m.nps[id];
        WithNp(m, id, np.(deleted := true)).(byKey := m.byKey - {(ns, name)},
          inCount := DecAll(m.inCount, np.localPods.Keys, np.spec.Denies(Ingress)),
          egCount := DecAll(m.egCount, np.localPods.Keys, np.spec.Denies(Egress)))
    case PeerNsAdd(id, rid, ns) =>
      if !LiveRule(m, id, rid) then m
      else var r := m.nps[id].rules[rid];
           PutMemRule(m, id, rid, r.(peers := AddPeer(r.peers, h(ns))), m.nps[id].addressMaps[rid])
    case PeerNsDel(id, rid, ns) =>
      if !LiveRule(m, id, rid) then m
      else var r := m.nps[id].rules[rid];
           PutMemRule(m, id, rid, r.(peers := Remove(r.peers, h(ns))), m.nps[id].addressMaps[rid])
    case PeerPodAdd(id, rid, ip) =>
      if !LiveRule(m, id, rid) then m
      else PutMemRule(m, id, rid, m.nps[id].rules[rid], m.nps[id].addressMaps[rid] + {ip})
    case PeerPodDel(id, rid, ip) =>
      if !LiveRule(m, id, rid) then m
      else PutMemRule(m, id, rid, m.nps[id].rules[rid], m.nps[id].addressMaps[rid] - {ip})
    case LocalPodAdd(id, port) =>
      if Live(m, id) && port in m.lsps && port !in m.nps[id].localPods then
        var np := m.nps[id];
        WithNp(m, id, np.(localPods := np.localPods[port := m.lsps[port].node])).(
          inCount := Inc(m.inCount, port, np.spec.Denies(Ingress)),
          egCount := Inc(m.egCount, port, np.spec.Denies(Egress)))
      else m
    case LocalPodDel(id, port) =>
      if Live(m, id) && port in m.nps[id].localPods then
        var np := m.nps[id];
        WithNp(m, id, np.(localPods := np.localPods - {port})).(
          inCount := Dec(m.inCount, port, np.spec.Denies(Ingress)),
          egCount := Dec(m.egCount, port, np.spec.Denies(Egress)))
      else m
    case PodUp(port, pod) => m.(lsps := m.lsps[port := pod])
    case PodDown(port) => m.(lsps := m.lsps - {port}, inCount := m.inCount - {port}, egCount := m.egCount - {port})
    case NamespaceAdd(ns, ips) => m.(nsAddresses := m.nsAddresses[ns := ips])
    case NamespaceDel(ns) => m.(nsAddresses := m.nsAddresses - {ns})
    case NamespacePodAdd(ns, ip) =>
      if ns in m.nsAddresses then m.(nsAddresses := m.nsAddresses[ns := m.nsAddresses[ns] + {ip}]) else m
    case NamespacePodDel(ns, ip) =>
      if ns in m.nsAddresses then m.(nsAddresses := m.nsAddresses[ns := m.nsAddresses[ns] - {ip}]) else m
  }

  const EmptyMem := Mem(map[], map[], map[], map[], map[], map[])

  function MemRun(h: string -> string, evs: seq<Event>): Mem {
    if evs == [] then EmptyMem else MemStep(h, MemRun(h, evs[..|evs| - 1]), evs[|evs| - 1])
  }

  // ------------------------------------------------------- the memory mirrors the reference

  function PeerNames(h: string -> string, spec: PolicySpec, rid: RuleId, r: WRule): set<string> {
    if r.spec.peers == [] then {} else {h(LocalPeerPods(spec, rid))} + set ns | ns in r.namespaces :: h(ns)
  }

  /** The peer list is strictly sorted and names exactly the rule's own set and its namespaces. */
  ghost predicate RuleSim(h: string -> string, spec: PolicySpec, rid: RuleId, w: WRule, r: Rule) {
    && r.ports == w.spec.ports
    && IPBlock(r.cidr, r.except) == LastBlock(w.spec.peers)
    && StrictlySorted(r.peers) && Elements(r.peers) == PeerNames(h, spec, rid, w)
  }

  ghost predicate NpSim(h: string -> string, p: Policy, np: Np) {
    && !np.deleted && np.spec == p.spec && np.localPods == p.pods && np.group == h(ReadableGroup(p.spec))
    && np.rules.Keys == p.rules.Keys == np.addressMaps.Keys
    && (forall rid | rid in p.rules ::
          RuleSim(h, p.spec, rid, p.rules[rid], np.rules[rid]) && np.addressMaps[rid] == p.rules[rid].podIps)
  }

  ghost predicate PoliciesSim(h: string -> string, ps: map<nat, Policy>, nps: map<nat, Np>) {
    && (forall id | id in ps :: id in nps && NpSim(h, ps[id], nps[id]))
    && (forall id | id in nps && !nps[id].deleted :: id in ps)
  }

  ghost predicate KeysSim(ps: map<nat, Policy>, byKey: map<(string, string), nat>) {
    && (forall k | k in byKey :: byKey[k] in ps && ps[byKey[k]].spec.Key() == k)
    && (forall id | id in ps :: ps[id].spec.Key() in byKey && byKey[ps[id].spec.Key()] == id)
  }

  /** A counter is the number of live policies holding the port and denying the direction; it is
      zero once the pod is gone. */
  ghost predicate CountsSim(ps: map<nat, Policy>, alive: set<string>, counts: map<string, nat>, dir: Direction) {
    forall p :: Get(counts, p) == if p in alive then |Holders(ps, dir, p)| else 0
  }

  ghost predicate Sim(h: string -> string, w: World, m: Mem) {
    && m.lsps == w.alive && m.nsAddresses == w.nsPods && m.nps.Keys <= w.used
    && PoliciesSim(h, w.policies, m.nps) && KeysSim(w.policies, m.byKey)
    && CountsSim(w.policies, w.alive.Keys, m.inCount, Ingress) && CountsSim(w.policies, w.alive.Keys, m.egCount, Egress)
  }

  lemma UpdatePolicies(h: string -> string, ps: map<nat, Policy>, nps: map<nat, Np>, id: nat, p: Policy, np: Np)
    requires PoliciesSim(h, ps, nps) && NpSim(h, p, np)
    ensures PoliciesSim(h, ps[id := p], nps[id := np])
  {
  }

  lemma UpdateKeys(ps: map<nat, Policy>, byKey: map<(string, string), nat>, id: nat, p: Policy)
    requires KeysSim(ps, byKey) && id in ps && p.spec == ps[id].spec
    ensures KeysSim(ps[id := p], byKey)
  {
  }

  lemma UpdateHolders(ps: map<nat, Policy>, id: nat, p: Policy, dir: Direction, port: string)
    ensures Holders(ps[id := p], dir, port) ==
            if port in p.pods && p.spec.Denies(dir) then Holders(ps, dir, port) + {id}
            else Holders(ps, dir, port) - {id}
  {
    DeniesExactly(p.spec, dir);
  }

  lemma IsHolder(ps: map<nat, Policy>, id: nat, dir: Direction, port: string)
    ensures id in Holders(ps, dir, port) <==> id in ps && port in ps[id].pods && ps[id].spec.Denies(dir)
  {
    if id in ps {
      DeniesExactly(ps[id].spec, dir);
    }
  }

  /** Changes that keep a policy's pods keep every counter right. */
  lemma UpdateCounts(ps: map<nat, Policy>, id: nat, p: Policy, alive: set<string>, counts: map<string, nat>,
                     dir: Direction)
    requires CountsSim(ps, alive, counts, dir)
    requires if id in ps then p.spec == ps[id].spec && p.pods == ps[id].pods else p.pods == map[]
    ensures CountsSim(ps[id := p], alive, counts, dir)
  {
    forall port ensures Get(counts, port) == if port in alive then |Holders(ps[id := p], dir, port)| else 0 {
      UpdateHolders(ps, id, p, dir, port);
      assert Holders(ps[id := p], dir, port) == Holders(ps, dir, port);
    }
  }

  lemma UpdateBothCounts(ps: map<nat, Policy>, id: nat, p: Policy, alive: set<string>, m: Mem)
    requires CountsSim(ps, alive, m.inCount, Ingress) && CountsSim(ps, alive, m.egCount, Egress)
    requires if id in ps then p.spec == ps[id].spec && p.pods == ps[id].pods else p.pods == map[]
    ensures CountsSim(ps[id := p], alive, m.inCount, Ingress) && CountsSim(ps[id := p], alive, m.egCount, Egress)
  {
    UpdateCounts(ps, id, p, alive, m.inCount, Ingress);
    UpdateCounts(ps, id, p, alive, m.egCount, Egress);
  }

  lemma AddKey(ps: map<nat, Policy>, byKey: map<(string, string), nat>, id: nat, p: Policy)
    requires KeysSim(ps, byKey) && id !in ps && p.spec.Key() !in byKey
    ensures KeysSim(ps[id := p], byKey[p.spec.Key() := id])
  {
  }

  lemma SimPolicyAdd(h: string -> string, w: World, m: Mem, id: nat, spec: PolicySpec)
    requires Sim(h, w, m) && id !in w.used && id !in w.policies
    ensures Sim(h, WorldStep(w, PolicyAdd(id, spec)), MemStep(h, m, PolicyAdd(id, spec)))
  {
    assert KeyLive(w, spec.Key()) <==> spec.Key() in m.byKey;
    if spec.Key() !in m.byKey && spec.ns in m.nsAddresses {
      var p, np := Policy(spec, map[], map[]), Np(spec, h(ReadableGroup(spec)), map[], map[], map[], false);
      UpdatePolicies(h, w.policies, m.nps, id, p, np);
      UpdateBothCounts(w.policies, id, p, w.alive.Keys, m);
      AddKey(w.policies, m.byKey, id, p);
    }
  }

  /** Replacing one policy on both sides by a matching pair with the same spec and pods. */
  lemma SimUpdate(h: string -> string, w: World, m: Mem, id: nat, p: Policy, np: Np)
    requires Sim(h, w, m) && NpSim(h, p, np)
    requires id in w.policies && p.spec == w.policies[id].spec && p.pods == w.policies[id].pods
    ensures Sim(h, w.(policies := w.policies[id := p]), WithNp(m, id, np))
  {
    assert id in m.nps;
    UpdatePolicies(h, w.policies, m.nps, id, p, np);
    UpdateKeys(w.policies, m.byKey, id, p);
    UpdateBothCounts(w.policies, id, p, w.alive.Keys, m);
  }

  /** Replacing one rule on both sides. */
  lemma UpdateRuleSim(h: string -> string, p: Policy, np: Np, rid: RuleId, r: WRule, r': Rule)
    requires NpSim(h, p, np) && RuleSim(h, p.spec, rid, r, r')
    ensures NpSim(h, p.(rules := p.rules[rid := r]),
                  np.(rules := np.rules[rid := r'], addressMaps := np.addressMaps[rid := r.podIps]))
  {
  }

  lemma SimPutRule(h: string -> string, w: World, m: Mem, id: nat, rid: RuleId, r: WRule, r': Rule)
    requires Sim(h, w, m) && id in w.policies && RuleSim(h, w.policies[id].spec, rid, r, r')
    ensures id in m.nps && Sim(h, PutRule(w, id, rid, r), PutMemRule(m, id, rid, r', r.podIps))
  {
    var p, np := w.policies[id], m.nps[id];
    UpdateRuleSim(h, p, np, rid, r, r');
    SimUpdate(h, w, m, id, p.(rules := p.rules[rid := r]),
              np.(rules := np.rules[rid := r'], addressMaps := np.addressMaps[rid := r.podIps]));
  }

  lemma SimRuleAdd(h: string -> string, w: World, m: Mem, id: nat, rid: RuleId)
    requires Sim(h, w, m)
    ensures Sim(h, WorldStep(w, RuleAdd(id, rid)), MemStep(h, m, RuleAdd(id, rid)))
  {
    if id in w.policies && rid.idx < |w.policies[id].spec.Rules(rid.dir)| {
      NewRuleSim(h, w.policies[id].spec, rid);
      SimPutRule(h, w, m, id, rid, WRule(w.policies[id].spec.Rules(rid.dir)[rid.idx], {}, {}),
                 NewRule(h, w.policies[id].spec, rid));
    }
  }

  lemma NewRuleSim(h: string -> string, spec: PolicySpec, rid: RuleId)
    requires rid.idx < |spec.Rules(rid.dir)|
    ensures RuleSim(h, spec, rid, WRule(spec.Rules(rid.dir)[rid.idx], {}, {}), NewRule(h, spec, rid))
  {
    var name := h(LocalPeerPods(spec, rid));
    assert Elements([name]) == {name} && Elements([]) == {};
  }

  lemma DeleteCounts(ps: map<nat, Policy>, ps': map<nat, Policy>, id: nat, alive: set<string>, counts: map<string, nat>,
                     dir: Direction)
    requires CountsSim(ps, alive, counts, dir) && id in ps && ps' == ps - {id}
    ensures CountsSim(ps', alive, DecAll(counts, ps[id].pods.Keys, ps[id].spec.Denies(dir)), dir)
  {
    var counts' := DecAll(counts, ps[id].pods.Keys, ps[id].spec.Denies(dir));
    forall port ensures Get(counts', port) == if port in alive then |Holders(ps', dir, port)| else 0 {
      assert Get(counts, port) == if port in alive then |Holders(ps, dir, port)| else 0;
      IsHolder(ps, id, dir, port);
      assert Holders(ps', dir, port) == Holders(ps, dir, port) - {id};
    }
  }

  lemma DeletePolicy(h: string -> string, ps: map<nat, Policy>, nps: map<nat, Np>, byKey: map<(string, string), nat>,
                     id: nat)
    requires PoliciesSim(h, ps, nps) && KeysSim(ps, byKey) && id in ps
    ensures PoliciesSim(h, ps - {id}, nps[id := nps[id].(deleted := true)])
    ensures KeysSim(ps - {id}, byKey - {ps[id].spec.Key()})
  {
  }

  lemma SimDelete(h: string -> string, w: World, m: Mem, id: nat)
    requires Sim(h, w, m) && id in w.policies
    ensures id in m.nps
    ensures var np := m.nps[id];
            Sim(h, w.(policies := w.policies - {id}), WithNp(m, id, np.(deleted := true)).(
              byKey := m.byKey - {np.spec.Key()},
              inCount := DecAll(m.inCount, np.localPods.Keys, np.spec.Denies(Ingress)),
              egCount := DecAll(m.egCount, np.localPods.Keys, np.spec.Denies(Egress))))
  {
    PodParts(h, w, m, id);
    DeletePolicy(h, w.policies, m.nps, m.byKey, id);
    DeleteCounts(w.policies, w.policies - {id}, id, w.alive.Keys, m.inCount, Ingress);
    DeleteCounts(w.policies, w.policies - {id}, id, w.alive.Keys, m.egCount, Egress);
  }

  lemma KeyRemoval(ps: map<nat, Policy>, byKey: map<(string, string), nat>, key: (string, string))
    requires KeysSim(ps, byKey)
    ensures WithoutKey(ps, key) == if key in byKey then ps - {byKey[key]} else ps
  {
  }

  lemma SimPolicyDelete(h: string -> string, w: World, m: Mem, ns: string, name: string)
    requires Sim(h, w, m)
    ensures Sim(h, WorldStep(w, PolicyDelete(ns, name)), MemStep(h, m, PolicyDelete(ns, name)))
  {
    KeyRemoval(w.policies, m.byKey, (ns, name));
    if (ns, name) in m.byKey {
      PodParts(h, w, m, m.byKey[(ns, name)]);
      SimDelete(h, w, m, m.byKey[(ns, name)]);
    }
  }

  lemma NewPeers(h: string -> string, w: WRule, w': WRule, spec: PolicySpec, rid: RuleId, r: Rule, ns: string,
                 add: bool)
    requires GoodHash(h) && RuleSim(h, spec, rid, w, r) && Label(ns) && w.spec.peers != []
    requires w' == w.(namespaces := if add then w.namespaces + {ns} else w.namespaces - {ns})
    ensures RuleSim(h, spec, rid, w', r.(peers := if add then AddPeer(r.peers, h(ns)) else Remove(r.peers, h(ns))))
  {
    NamespaceIsNotLocal(ns, spec, rid);
    RemoveSorted(r.peers, h(ns));
    assert h(ns) in r.peers <==> h(ns) in Elements(r.peers);
    if add {
      assert PeerNames(h, spec, rid, w') == PeerNames(h, spec, rid, w) + {h(ns)};
    } else {
      assert PeerNames(h, spec, rid, w') == PeerNames(h, spec, rid, w) - {h(ns)};
    }
  }

  lemma LocalPodCounts(ps: map<nat, Policy>, id: nat, p: Policy, port: string, add: bool,
                       alive: set<string>, counts: map<string, nat>, dir: Direction)
    requires CountsSim(ps, alive, counts, dir) && id in ps && p.spec == ps[id].spec
    requires if add then port in alive && port !in ps[id].pods && port in p.pods
             && p.pods.Keys == ps[id].pods.Keys + {port}
             else port in ps[id].pods && p.pods.Keys == ps[id].pods.Keys - {port}
    ensures CountsSim(ps[id := p], alive,
                      if add then Inc(counts, port, p.spec.Denies(dir)) else Dec(counts, port, p.spec.Denies(dir)), dir)
  {
    var counts' := if add then Inc(counts, port, p.spec.Denies(dir)) else Dec(counts, port, p.spec.Denies(dir));
    forall q ensures Get(counts', q) == if q in alive then |Holders(ps[id := p], dir, q)| else 0 {
      assert Get(counts, q) == if q in alive then |Holders(ps, dir, q)| else 0;
      UpdateHolders(ps, id, p, dir, q);
      IsHolder(ps, id, dir, q);
      if q != port {
        assert Holders(ps[id := p], dir, q) == Holders(ps, dir, q);
      } else if !p.spec.Denies(dir) {
        assert Holders(ps[id := p], dir, q) == Holders(ps, dir, q);
      } else {
        assert id in Holders(ps, dir, q) <==> !add;
      }
    }
  }

  lemma RuleParts(h: string -> string, w: World, m: Mem, id: nat, rid: RuleId)
    requires Sim(h, w, m)
    ensures HasRule(w, id, rid) <==> LiveRule(m, id, rid)
    ensures HasRule(w, id, rid)
        ==> m.nps[id].spec == w.policies[id].spec && m.nps[id].addressMaps[rid] == w.policies[id].rules[rid].podIps
    ensures HasRule(w, id, rid)
        ==> RuleSim(h, w.policies[id].spec, rid, w.policies[id].rules[rid], m.nps[id].rules[rid])
  {
    if id in w.policies {
      assert NpSim(h, w.policies[id], m.nps[id]);
    }
  }

  lemma SimPeerNsAdd(h: string -> string, w: World, m: Mem, id: nat, rid: RuleId, ns: string)
    requires GoodHash(h) && Sim(h, w, m) && Label(ns) && HasPeers(w, id, rid)
    ensures Sim(h, WorldStep(w, PeerNsAdd(id, rid, ns)), MemStep(h, m, PeerNsAdd(id, rid, ns)))
  {
    RuleParts(h, w, m, id, rid);
    if HasRule(w, id, rid) {
      var r, r' := w.policies[id].rules[rid], m.nps[id].rules[rid];
      NewPeers(h, r, r.(namespaces := r.namespaces + {ns}), w.policies[id].spec, rid, r', ns, true);
      SimPutRule(h, w, m, id, rid, r.(namespaces := r.namespaces + {ns}), r'.(peers := AddPeer(r'.peers, h(ns))));
    }
  }

  lemma SimPeerNsDel(h: string -> string, w: World, m: Mem, id: nat, rid: RuleId, ns: string)
    requires GoodHash(h) && Sim(h, w, m) && Label(ns) && HasPeers(w, id, rid)
    ensures Sim(h, WorldStep(w, PeerNsDel(id, rid, ns)), MemStep(h, m, PeerNsDel(id, rid, ns)))
  {
    RuleParts(h, w, m, id, rid);
    if HasRule(w, id, rid) {
      var r, r' := w.policies[id].rules[rid], m.nps[id].rules[rid];
      NewPeers(h, r, r.(namespaces := r.namespaces - {ns}), w.policies[id].spec, rid, r', ns, false);
      SimPutRule(h, w, m, id, rid, r.(namespaces := r.namespaces - {ns}), r'.(peers := Remove(r'.peers, h(ns))));
    }
  }

  lemma SimPeerPod(h: string -> string, w: World, m: Mem, id: nat, rid: RuleId, ip: Ip)
    requires Sim(h, w, m)
    ensures Sim(h, WorldStep(w, PeerPodAdd(id, rid, ip)), MemStep(h, m, PeerPodAdd(id, rid, ip)))
    ensures Sim(h, WorldStep(w, PeerPodDel(id, rid, ip)), MemStep(h, m, PeerPodDel(id, rid, ip)))
  {
    RuleParts(h, w, m, id, rid);
    if HasRule(w, id, rid) {
      var r, r' := w.policies[id].rules[rid], m.nps[id].rules[rid];
      SimPutRule(h, w, m, id, rid, r.(podIps := r.podIps + {ip}), r');
      SimPutRule(h, w, m, id, rid, r.(podIps := r.podIps - {ip}), r');
    }
  }

  lemma SimPutPods(h: string -> string, w: World, m: Mem, id: nat, port: string, add: bool, pods: map<string, string>)
    requires Sim(h, w, m) && id in w.policies
    requires if add then port in w.alive && port !in w.policies[id].pods
             && pods == w.policies[id].pods[port := w.alive[port].node]
             else port in w.policies[id].pods && pods == w.policies[id].pods - {port}
    ensures id in m.nps
    ensures var np := m.nps[id];
            Sim(h, PutPods(w, id, pods), WithNp(m, id, np.(localPods := pods)).(
              inCount := if add then Inc(m.inCount, port, np.spec.Denies(Ingress))
                         else Dec(m.inCount, port, np.spec.Denies(Ingress)),
              egCount := if add then Inc(m.egCount, port, np.spec.Denies(Egress))
                         else Dec(m.egCount, port, np.spec.Denies(Egress))))
  {
    var p, np := w.policies[id], m.nps[id];
    PodsSim(h, p, np, pods);
    UpdatePolicies(h, w.policies, m.nps, id, p.(pods := pods), np.(localPods := pods));
    UpdateKeys(w.policies, m.byKey, id, p.(pods := pods));
    LocalPodCounts(w.policies, id, p.(pods := pods), port, add, w.alive.Keys, m.inCount, Ingress);
    LocalPodCounts(w.policies, id, p.(pods := pods), port, add, w.alive.Keys, m.egCount, Egress);
  }

  lemma RulesInRangeOf(h: string -> string, w: World, m: Mem, id: nat)
    requires WorldOk(w) && Sim(h, w, m) && Live(m, id)
    ensures RulesInRange(m.nps[id])
  {
    assert NpSim(h, w.policies[id], m.nps[id]) && PolicyOk(w, w.policies[id]);
    forall rid | rid in m.nps[id].rules ensures rid.idx < |m.nps[id].spec.Rules(rid.dir)| {
      assert RuleOk(w.policies[id].spec, rid, w.policies[id].rules[rid]);
    }
  }

  lemma PodParts(h: string -> string, w: World, m: Mem, id: nat)
    requires Sim(h, w, m)
    ensures id in w.policies <==> Live(m, id)
    ensures id in w.policies ==> m.nps[id].localPods == w.policies[id].pods && m.nps[id].spec == w.policies[id].spec
  {
  }

  lemma SimLocalPodAdd(h: string -> string, w: World, m: Mem, id: nat, port: string)
    requires Sim(h, w, m)
    ensures Sim(h, WorldStep(w, LocalPodAdd(id, port)), MemStep(h, m, LocalPodAdd(id, port)))
  {
    PodParts(h, w, m, id);
    if id in w.policies && port in w.alive && port !in w.policies[id].pods {
      SimPutPods(h, w, m, id, port, true, w.policies[id].pods[port := w.alive[port].node]);
    }
  }

  lemma SimLocalPodDel(h: string -> string, w: World, m: Mem, id: nat, port: string)
    requires Sim(h, w, m)
    ensures Sim(h, WorldStep(w, LocalPodDel(id, port)), MemStep(h, m, LocalPodDel(id, port)))
  {
    PodParts(h, w, m, id);
    if id in w.policies && port in w.policies[id].pods {
      SimPutPods(h, w, m, id, port, false, w.policies[id].pods - {port});
    }
  }

  lemma PodsSim(h: string -> string, p: Policy, np: Np, pods: map<string, string>)
    requires NpSim(h, p, np)
    ensures NpSim(h, p.(pods := pods), np.(localPods := pods))
  {
  }

  lemma PodCounts(ps: map<nat, Policy>, port: string, up: bool, alive: set<string>, counts: map<string, nat>,
                  dir: Direction)
    requires CountsSim(ps, alive, counts, dir)
    requires up ==> port !in alive && forall id | id in ps :: port !in ps[id].pods
    ensures CountsSim(ps, if up then alive + {port} else alive - {port}, if up then counts else counts - {port}, dir)
  {
  }

  lemma SimPod(h: string -> string, w: World, m: Mem, ev: Event)
    requires Sim(h, w, m) && Legal(w, ev)
    requires ev.PodUp? || ev.PodDown?
    ensures Sim(h, WorldStep(w, ev), MemStep(h, m, ev))
  {
    PodCounts(w.policies, ev.port, ev.PodUp?, w.alive.Keys, m.inCount, Ingress);
    PodCounts(w.policies, ev.port, ev.PodUp?, w.alive.Keys, m.egCount, Egress);
    var alive' := WorldStep(w, ev).alive;
    assert alive'.Keys == if ev.PodUp? then w.alive.Keys + {ev.port} else w.alive.Keys - {ev.port};
  }

  lemma SimStep(h: string -> string, w: World, m: Mem, ev: Event)
    requires GoodHash(h) && WorldOk(w) && Sim(h, w, m) && Legal(w, ev)
    ensures Sim(h, WorldStep(w, ev), MemStep(h, m, ev))
  {
    match ev {
      case PolicyAdd(id, spec) =>
        assert id !in w.policies;
        SimPolicyAdd(h, w, m, id, spec);
      case RuleAdd(id, rid) => SimRuleAdd(h, w, m, id, rid);
      case PolicyDelete(ns, name) => SimPolicyDelete(h, w, m, ns, name);
      case PeerNsAdd(id, rid, ns) => SimPeerNsAdd(h, w, m, id, rid, ns);
      case PeerNsDel(id, rid, ns) => SimPeerNsDel(h, w, m, id, rid, ns);
      case PeerPodAdd(id, rid, ip) => SimPeerPod(h, w, m, id, rid, ip);
      case PeerPodDel(id, rid, ip) => SimPeerPod(h, w, m, id, rid, ip);
      case LocalPodAdd(id, port) => SimLocalPodAdd(h, w, m, id, port);
      case LocalPodDel(id, port) => SimLocalPodDel(h, w, m, id, port);
      case PodUp(_, _) => SimPod(h, w, m, ev);
      case PodDown(_) => SimPod(h, w, m, ev);
      case _ =>
    }
  }

  /** Over every run the in-memory peer lists, local pods, address maps and deny counters are the
      ones the live policies call for. */
  lemma {:induction false} MemoryMirrorsWorld(h: string -> string, evs: seq<Event>)
    requires GoodHash(h) && LegalRun(evs)
    ensures WorldOk(Run(evs)) && Sim(h, Run(evs), MemRun(h, evs))
  {
    if evs != [] {
      var n := |evs| - 1;
      MemoryMirrorsWorld(h, evs[..n]);
      WorldStepOk(Run(evs[..n]), evs[n]);
      SimStep(h, Run(evs[..n]), MemRun(h, evs[..n]), evs[n]);
    }
  }

  // ------------------------------------------------------- deletion is final

  /** The policy object an event's handler belongs to. */
  predicate HandlerOf(ev: Event, id: nat) {
    match ev
    case RuleAdd(i, _) => i == id
    case PeerNsAdd(i, _, _) => i == id
    case PeerNsDel(i, _, _) => i == id
    case PeerPodAdd(i, _, _) => i == id
    case PeerPodDel(i, _, _) => i == id
    case LocalPodAdd(i, _) => i == id
    case LocalPodDel(i, _) => i == id
    case _ => false
  }

  predicate Deleted(m: Mem, id: nat) { id in m.nps && m.nps[id].deleted }

  /** A deleted policy object stays deleted, and its handlers change nothing. */
  lemma DeletedStays(h: string -> string, m: Mem, ev: Event, id: nat)
    requires Deleted(m, id)
    ensures Deleted(MemStep(h, m, ev), id)
    ensures HandlerOf(ev, id) ==> MemStep(h, m, ev) == m
  {
  }
}
