/** The per-port back-end's methods as they run (policy_old.go): loops that create, rewrite and
    remove the ACL rows of single ports, proved against the row functions of the specification. */
module PerPortController {
  import opened Acl
  import opened Gress
  import opened PolicyWorld
  import opened PolicyMemory
  import opened AclRows
  import opened PerPortBackend
  import opened PolicyController

  lemma {:induction false} AddRowsTwice(t: Table, a: seq<Row>, b: seq<Row>)
    ensures AddRows(t, a + b) == AddRows(AddRows(t, a), b)
    decreases |a|
  {
    if a == [] {
      assert a + b == b;
    } else {
      assert (a + b)[0] == a[0] && (a + b)[1..] == a[1..] + b;
      AddRowsTwice(AddRow(t, a[0]), a[1..], b);
    }
  }

  lemma {:induction false} DeleteRowsTwice(t: Table, a: seq<Row>, b: seq<Row>)
    ensures DeleteRows(t, a + b) == DeleteRows(DeleteRows(t, a), b)
    decreases |a|
  {
    if a == [] {
      assert a + b == b;
    } else {
      assert (a + b)[0] == a[0] && (a + b)[1..] == a[1..] + b;
      DeleteRowsTwice(DeleteRow(t, a[0]), a[1..], b);
    }
  }

  lemma {:induction false} ModifyPortsMore(t: Table, np: Np, rid: RuleId, peers: seq<string>, ports: seq<string>,
                                           port: string)
    requires rid in np.rules && (forall p | p in ports :: p in np.localPods) && port in np.localPods
    ensures forall p | p in ports + [port] :: p in np.localPods
    ensures ModifyPorts(MatchText, t, np, rid, peers, ports + [port])
         == ModifyRows(MatchText, ModifyPorts(MatchText, t, np, rid, peers, ports),
                       PortOwner(np.spec.Key(), np.localPods[port], port),
                       rid, np.rules[rid].peers, peers, L4Matches(np.rules[rid].ports))
    decreases |ports|
  {
    if ports == [] {
      assert ports + [port] == [port] && [port][1..] == [];
    } else {
      var all := ports + [port];
      assert all[0] == ports[0] && all[1..] == ports[1..] + [port];
      assert forall p | p in ports[1..] :: p in ports;
      var t' := ModifyRows(MatchText, t, PortOwner(np.spec.Key(), np.localPods[ports[0]], ports[0]), rid,
                           np.rules[rid].peers, peers, L4Matches(np.rules[rid].ports));
      ModifyPortsMore(t', np, rid, peers, ports[1..], port);
    }
  }

  /** Removing the rows of the remaining port clauses, one clause at a time. */
  lemma NextClauseDel(t: Table, o: Owner, rid: RuleId, r: Rule, l4s: seq<L4Match>)
    requires l4s != []
    ensures DeleteRows(t, KindRows(o, rid, r, PortKinds(r, l4s)))
         == DeleteRows(DeleteRow(if r.cidr != "" then DeleteRow(t, RowOf(o, rid, r, CidrKind(l4s[0]))) else t,
                                 RowOf(o, rid, r, PeersKind(l4s[0]))),
                       KindRows(o, rid, r, PortKinds(r, l4s[1..])))
  {
    var rest := PortKinds(r, l4s[1..]);
    NextRow(o, rid, r, PeersKind(l4s[0]), rest);
    if r.cidr != "" {
      NextRow(o, rid, r, CidrKind(l4s[0]), [PeersKind(l4s[0])] + rest);
      assert PortKinds(r, l4s) == [CidrKind(l4s[0])] + ([PeersKind(l4s[0])] + rest);
    } else {
      assert PortKinds(r, l4s) == [PeersKind(l4s[0])] + rest;
    }
  }

  /** A finite set can be visited. */
  lemma {:induction false} AnyOrder(pods: set<string>) returns (order: seq<string>)
    ensures Visits(order, pods)
    decreases pods
  {
    order := [];
    if pods != {} {
      var p :| p in pods;
      var rest := AnyOrder(pods - {p});
      order := [p] + rest;
    }
  }

  /** One more port of a deleted policy. */
  lemma {:induction false} LastDeniesMore(m: Mem, np: Np, ports: seq<string>, port: string)
    ensures LastDenies(m, np, ports + [port]) == LastDenies(m, np, ports) + SwitchDenies(m, np, port)
  {
    if ports == [] {
      assert ports + [port] == [port] && [port][1..] == [];
    } else {
      assert (ports + [port])[0] == ports[0] && (ports + [port])[1..] == ports[1..] + [port];
      LastDeniesMore(m, np, ports[1..], port);
    }
  }

  lemma DecOne(counts: map<string, nat>, done: set<string>, port: string, on: bool)
    requires port !in done
    ensures Dec(DecAll(counts, done, on), port, on) == DecAll(counts, done + {port}, on)
    ensures Get(DecAll(counts, done, on), port) == Get(counts, port)
  {
  }

  lemma DecNone(counts: map<string, nat>, on: bool)
    ensures DecAll(counts, {}, on) == counts
  {
  }

  /** What the loop over the local pods of a deleted policy has done. */
  ghost predicate DeniesDeleted(m: Mem, before: Table, np: Np, order: seq<string>, done: set<string>, mem: Mem,
                                acls: Table) {
    && Visits(order, done) && acls == DeleteRows(before, LastDenies(m, np, order))
    && mem == m.(inCount := DecAll(m.inCount, done, np.spec.Denies(Ingress)),
                 egCount := DecAll(m.egCount, done, np.spec.Denies(Egress)))
  }

  lemma SameFinalDenies(m: Mem, np: Np, done: set<string>, port: string, mem: Mem)
    requires port !in done && mem.lsps == m.lsps
    requires mem.inCount == DecAll(m.inCount, done, np.spec.Denies(Ingress))
    requires mem.egCount == DecAll(m.egCount, done, np.spec.Denies(Egress))
    ensures SwitchDenies(mem, np, port) == SwitchDenies(m, np, port)
  {
    DecOne(m.inCount, done, port, np.spec.Denies(Ingress));
    DecOne(m.egCount, done, port, np.spec.Denies(Egress));
  }

  lemma VisitsMore(order: seq<string>, done: set<string>, port: string)
    requires Visits(order, done) && port !in done
    ensures Visits(order + [port], done + {port})
  {
  }

  lemma NextDenyDeleted(m: Mem, before: Table, np: Np, order: seq<string>, done: set<string>, port: string, mem: Mem,
                        acls: Table, mem': Mem, acls': Table)
    requires port !in done && DeniesDeleted(m, before, np, order, done, mem, acls)
    requires mem' == mem.(inCount := Dec(mem.inCount, port, np.spec.Denies(Ingress)),
                          egCount := Dec(mem.egCount, port, np.spec.Denies(Egress)))
    requires acls' == DeleteRows(acls, SwitchDenies(mem, np, port))
    ensures DeniesDeleted(m, before, np, order + [port], done + {port}, mem', acls')
  {
    DecOne(m.inCount, done, port, np.spec.Denies(Ingress));
    DecOne(m.egCount, done, port, np.spec.Denies(Egress));
    SameFinalDenies(m, np, done, port, mem);
    VisitsMore(order, done, port);
    LastDeniesMore(m, np, order, port);
    DeleteRowsTwice(before, LastDenies(m, np, order), SwitchDenies(m, np, port));
  }

  const NoPod := Pod("", "")

  class PerPortController {
    const hash: string -> string
    /** The memory, with the logical ports of the database. */
    var mem: Mem
    var acls: Table

    constructor (hash: string -> string)
      ensures this.hash == hash && mem == EmptyMem && acls == Table(map[], 0)
    {
      this.hash := hash;
      mem, acls := EmptyMem, Table(map[], 0);
    }

    method AddOrDel(add: bool, row: Row)
      modifies this`acls
      ensures acls == if add then AddRow(old(acls), row) else DeleteRow(old(acls), row)
    {
      if add {
        acls := AddRow(acls, row);
      } else {
        acls := DeleteRow(acls, row);
      }
    }

    method AddOrDelClause(add: bool, o: Owner, rid: RuleId, r: Rule, l4s: seq<L4Match>)
      requires l4s != []
      modifies this`acls
      ensures add ==> AddRows(acls, KindRows(o, rid, r, PortKinds(r, l4s[1..]))) ==
                      AddRows(old(acls), KindRows(o, rid, r, PortKinds(r, l4s)))
      ensures !add ==> DeleteRows(acls, KindRows(o, rid, r, PortKinds(r, l4s[1..]))) ==
                       DeleteRows(old(acls), KindRows(o, rid, r, PortKinds(r, l4s)))
    {
      NextClause(acls, o, rid, r, l4s);
      NextClauseDel(acls, o, rid, r, l4s);
      if r.cidr != "" {
        AddOrDel(add, RowOf(o, rid, r, CidrKind(l4s[0])));
      }
      AddOrDel(add, RowOf(o, rid, r, PeersKind(l4s[0])));
    }

    /** What is still to be done by the loop over the port clauses. */
    ghost predicate Remaining(add: bool, o: Owner, rid: RuleId, r: Rule, kinds: seq<Kind>, before: Table)
      reads this
    {
      if add then AddRows(acls, KindRows(o, rid, r, kinds)) == AddRows(before, RowList(o, rid, r))
      else DeleteRows(acls, KindRows(o, rid, r, kinds)) == DeleteRows(before, RowList(o, rid, r))
    }

    method AddOrDelExcept(add: bool, o: Owner, rid: RuleId, r: Rule)
      modifies this`acls
      ensures Remaining(add, o, rid, r, PortKinds(r, L4Matches(r.ports)), old(acls))
    {
      if r.cidr != "" && r.except != [] {
        assert KindList(r) == [ExceptKind] + PortKinds(r, L4Matches(r.ports));
        NextRow(o, rid, r, ExceptKind, PortKinds(r, L4Matches(r.ports)));
        AddOrDel(add, RowOf(o, rid, r, ExceptKind));
      } else {
        assert KindList(r) == PortKinds(r, L4Matches(r.ports));
      }
    }

    /** localPodAddOrDelACLOld: all rows of a rule at one port are created, or all removed. */
    method LocalPodAddOrDelACL(add: bool, o: Owner, rid: RuleId, r: Rule)
      modifies this`acls
      ensures acls == if add then AddRows(old(acls), RowList(o, rid, r)) else DeleteRows(old(acls), RowList(o, rid, r))
    {
      AddOrDelExcept(add, o, rid, r);
      if r.ports == [] {
        AddOrDelClause(add, o, rid, r, [NoneMatch]);
        assert [NoneMatch][1..] == [];
      }
      assert r.ports[0..] == r.ports;
      var i := 0;
      while i < |r.ports|
        invariant 0 <= i <= |r.ports|
        invariant Remaining(add, o, rid, r, PortKinds(r, KnownL4(r.ports[i..])), old(acls))
      {
        NextPort(r.ports, i);
        var clause := GetL4Match(r.ports[i]);
        if clause.Some? {
          AddOrDelClause(add, o, rid, r, [clause.value] + KnownL4(r.ports[i + 1..]));
          assert ([clause.value] + KnownL4(r.ports[i + 1..]))[1..] == KnownL4(r.ports[i + 1..]);
        }
        i := i + 1;
      }
    }

    /** The loop over the rules of a direction when a pod is selected or deselected. */
    method ForEachRule(add: bool, np: Np, dir: Direction, node: string, port: string)
      modifies this`acls
      ensures acls == if add then AddRows(old(acls), DirRows(np, dir, |np.spec.Rules(dir)|, node, port))
                      else DeleteRows(old(acls), DirRows(np, dir, |np.spec.Rules(dir)|, node, port))
    {
      var i := 0;
      while i < |np.spec.Rules(dir)|
        invariant 0 <= i <= |np.spec.Rules(dir)|
        invariant acls == if add then AddRows(old(acls), DirRows(np, dir, i, node, port))
                          else DeleteRows(old(acls), DirRows(np, dir, i, node, port))
      {
        var rid := RuleId(dir, i);
        AddRowsTwice(old(acls), DirRows(np, dir, i, node, port), RuleRows(np, rid, node, port));
        DeleteRowsTwice(old(acls), DirRows(np, dir, i, node, port), RuleRows(np, rid, node, port));
        if rid in np.rules {
          LocalPodAddOrDelACL(add, PortOwner(np.spec.Key(), node, port), rid, np.rules[rid]);
        }
        i := i + 1;
      }
    }

    method AddOrDelDenies(add: bool, ingress: bool, egress: bool, pod: Pod, port: string)
      modifies this`acls
      ensures acls == if add
                      then AddRows(old(acls), DenyIf(ingress, Ingress, pod, port) + DenyIf(egress, Egress, pod, port))
                      else DeleteRows(old(acls),
                                      DenyIf(ingress, Ingress, pod, port) + DenyIf(egress, Egress, pod, port))
    {
      var a, b := DenyIf(ingress, Ingress, pod, port), DenyIf(egress, Egress, pod, port);
      AddRowsTwice(acls, a, b);
      DeleteRowsTwice(acls, a, b);
      if ingress {
        AddOrDel(add, PortDenyRow(Ingress, pod, port));
      }
      if egress {
        AddOrDel(add, PortDenyRow(Egress, pod, port));
      }
    }

    /** localPodAddDefaultDenyOld: the first holder of a port creates its default-deny rows. */
    method LocalPodAddDefaultDeny(np: Np, port: string, node: string)
      modifies this
      ensures mem == old(mem).(inCount := Inc(old(mem).inCount, port, np.spec.Denies(Ingress)),
                               egCount := Inc(old(mem).egCount, port, np.spec.Denies(Egress)))
      ensures CountedIn(old(mem).inCount, mem.inCount, port, np.spec.Isolates(Ingress))
              && CountedIn(old(mem).egCount, mem.egCount, port, np.spec.Isolates(Egress))
      ensures acls == AddRows(old(acls), FirstDenies(old(mem), np, port, node))
    {
      CountersFollow(mem.inCount, port, np.spec, Ingress);
      CountersFollow(mem.egCount, port, np.spec, Egress);
      AddOrDelDenies(true, np.spec.Denies(Ingress) && Get(mem.inCount, port) == 0,
                     np.spec.Denies(Egress) && Get(mem.egCount, port) == 0, Pod(np.spec.ns, node), port);
      if np.spec.Denies(Ingress) {
        mem := mem.(inCount := mem.inCount[port := Get(mem.inCount, port) + 1]);
      }
      if np.spec.Denies(Egress) {
        mem := mem.(egCount := mem.egCount[port := Get(mem.egCount, port) + 1]);
      }
    }

    /** localPodDelDefaultDenyOld: the last holder removes them; `node` is the switch, if found. */
    method LocalPodDelDefaultDeny(np: Np, port: string, node: Option<string>)
      modifies this
      ensures mem == old(mem).(inCount := Dec(old(mem).inCount, port, np.spec.Denies(Ingress)),
                               egCount := Dec(old(mem).egCount, port, np.spec.Denies(Egress)))
      ensures CountedOut(old(mem).inCount, mem.inCount, port, np.spec.Isolates(Ingress))
              && CountedOut(old(mem).egCount, mem.egCount, port, np.spec.Isolates(Egress))
      ensures acls == if node.None? then old(acls)
                      else DeleteRows(old(acls), FinalDenies(old(mem), np, port, node.value))
    {
      CountersFollow(mem.inCount, port, np.spec, Ingress);
      CountersFollow(mem.egCount, port, np.spec, Egress);
      var ingress, egress := false, false;
      if np.spec.Denies(Ingress) && Get(mem.inCount, port) > 0 {
        mem := mem.(inCount := mem.inCount[port := mem.inCount[port] - 1]);
        ingress := mem.inCount[port] == 0;
      }
      if np.spec.Denies(Egress) && Get(mem.egCount, port) > 0 {
        mem := mem.(egCount := mem.egCount[port := mem.egCount[port] - 1]);
        egress := mem.egCount[port] == 0;
      }
      if node.Some? {
        AddOrDelDenies(false, ingress, egress, Pod(np.spec.ns, node.value), port);
      }
    }

    /** The rule loops of handleLocalPodSelectorAddFuncOld and handleLocalPodSelectorDelFuncOld. */
    method HandleRules(add: bool, np: Np, port: string, node: string)
      modifies this`acls
      ensures acls == if add then AddRows(old(acls), PodRows(np, node, port))
                      else DeleteRows(old(acls), PodRows(np, node, port))
    {
      ghost var a, b := DirRows(np, Ingress, |np.spec.ingress|, node, port),
                        DirRows(np, Egress, |np.spec.egress|, node, port);
      AddRowsTwice(acls, a, b);
      DeleteRowsTwice(acls, a, b);
      ForEachRule(add, np, Ingress, node, port);
      ForEachRule(add, np, Egress, node, port);
    }

    method SelectPod(id: nat, np: Np, port: string, node: string)
      modifies this
      ensures acls == AddRows(old(acls), AddedRows(old(mem), np, port, node))
      ensures mem == old(mem).(nps := old(mem).nps[id := np.(localPods := np.localPods[port := node])],
                               inCount := Inc(old(mem).inCount, port, np.spec.Denies(Ingress)),
                               egCount := Inc(old(mem).egCount, port, np.spec.Denies(Egress)))
    {
      AddRowsTwice(acls, FirstDenies(mem, np, port, node), PodRows(np, node, port));
      LocalPodAddDefaultDeny(np, port, node);
      HandleRules(true, np, port, node);
      mem := mem.(nps := mem.nps[id := np.(localPods := np.localPods[port := node])]);
    }

    /** handleLocalPodSelectorAddFuncOld, for a pod with an address and a node. */
    method HandleLocalPodSelectorAdd(id: nat, port: string, pod: Pod)
      modifies this
      ensures var pe := PortEvent(LocalPodAdd(id, port), pod, []);
              mem == PortMemStep(hash, old(mem), pe) && acls == PortStep(hash, MatchText, old(mem), old(acls), pe)
    {
      if Live(mem, id) && port !in mem.nps[id].localPods {
        SelectPod(id, mem.nps[id], port, pod.node);
      }
    }

    method DeselectPod(id: nat, np: Np, port: string, node: string)
      modifies this
      ensures acls == DeleteRows(old(acls), DeletedRows(old(mem), np, port, node))
      ensures mem == old(mem).(nps := old(mem).nps[id := np.(localPods := np.localPods - {port})],
                               inCount := Dec(old(mem).inCount, port, np.spec.Denies(Ingress)),
                               egCount := Dec(old(mem).egCount, port, np.spec.Denies(Egress)))
    {
      DeleteRowsTwice(acls, FinalDenies(mem, np, port, node), PodRows(np, node, port));
      mem := mem.(nps := mem.nps[id := np.(localPods := np.localPods - {port})]);
      LocalPodDelDefaultDeny(np, port, Some(node));
      HandleRules(false, np, port, node);
    }

    /** handleLocalPodSelectorDelFuncOld, for a pod with a node. */
    method HandleLocalPodSelectorDel(id: nat, port: string, pod: Pod)
      modifies this
      ensures var pe := PortEvent(LocalPodDel(id, port), pod, []);
              mem == PortMemStep(hash, old(mem), pe) && acls == PortStep(hash, MatchText, old(mem), old(acls), pe)
    {
      if Live(mem, id) && port in mem.nps[id].localPods {
        DeselectPod(id, mem.nps[id], port, pod.node);
      }
    }

    /** The inner loop of handlePeerNamespaceSelectorModifyOld, for one port. */
    method ModifyOnePort(o: Owner, rid: RuleId, ports: seq<PortPolicy>, oldPeers: seq<string>, newPeers: seq<string>)
      modifies this`acls
      ensures acls == ModifyRows(MatchText, old(acls), o, rid, oldPeers, newPeers, L4Matches(ports))
    {
      ghost var done := ModifyRows(MatchText, acls, o, rid, oldPeers, newPeers, L4Matches(ports));
      if ports == [] {
        assert [NoneMatch][1..] == [];
        acls := ModifyRow(MatchText, acls, PeersMatch(o, rid, oldPeers, NoneMatch),
                          PeersMatch(o, rid, newPeers, NoneMatch), o, rid);
      }
      assert ports[0..] == ports;
      var i := 0;
      while i < |ports|
        invariant 0 <= i <= |ports|
        invariant ModifyRows(MatchText, acls, o, rid, oldPeers, newPeers, KnownL4(ports[i..])) == done
      {
        NextPort(ports, i);
        var clause := GetL4Match(ports[i]);
        if clause.Some? {
          acls := ModifyRow(MatchText, acls, PeersMatch(o, rid, oldPeers, clause.value),
                            PeersMatch(o, rid, newPeers, clause.value), o, rid);
          assert ([clause.value] + KnownL4(ports[i + 1..]))[1..] == KnownL4(ports[i + 1..]);
        }
        i := i + 1;
      }
    }

    /** handlePeerNamespaceSelectorModifyOld: the local pods are visited in some order, each once. */
    method HandlePeerNamespaceSelectorModify(np: Np, rid: RuleId, newPeers: seq<string>)
      returns (ghost order: seq<string>)
      requires rid in np.rules
      modifies this`acls
      ensures NoRepeats(order) && forall p :: p in order <==> p in np.localPods
      ensures acls == ModifyPorts(MatchText, old(acls), np, rid, newPeers, order)
    {
      order := [];
      var left := np.localPods.Keys;
      while left != {}
        invariant left <= np.localPods.Keys && NoRepeats(order)
                  && forall p :: p in order <==> p in np.localPods && p !in left
        invariant acls == ModifyPorts(MatchText, old(acls), np, rid, newPeers, order)
        decreases |left|
      {
        var port :| port in left;
        ModifyPortsMore(old(acls), np, rid, newPeers, order, port);
        ModifyOnePort(PortOwner(np.spec.Key(), np.localPods[port], port), rid, np.rules[rid].ports,
                      np.rules[rid].peers, newPeers);
        left := left - {port};
        order := order + [port];
      }
    }

    /** The namespace handlers of a peer: the rule's list gains or loses the namespace's set, and
        the rows of every local pod follow. */
    method HandlePeerNamespace(id: nat, rid: RuleId, ns: string, add: bool) returns (ghost order: seq<string>)
      modifies this
      ensures var pe := PortEvent(if add then PeerNsAdd(id, rid, ns) else PeerNsDel(id, rid, ns), NoPod, order);
              && OrderOk(old(mem), pe) && mem == PortMemStep(hash, old(mem), pe)
              && acls == PortStep(hash, MatchText, old(mem), old(acls), pe)
    {
      order := [];
      if Live(mem, id) {
        order := AnyOrder(mem.nps[id].localPods.Keys);
      }
      if !LiveRule(mem, id, rid) {
        return;
      }
      var np := mem.nps[id];
      var peers := if add then AddPeer(np.rules[rid].peers, hash(ns)) else Remove(np.rules[rid].peers, hash(ns));
      if peers != np.rules[rid].peers {
        order := HandlePeerNamespaceSelectorModify(np, rid, peers);
      }
      mem := PutMemRule(mem, id, rid, np.rules[rid].(peers := peers), np.addressMaps[rid]);
    }

    /** deleteAclsPolicyOld: the rows found by namespace and policy are removed one by one. */
    method DeleteAclsPolicy(key: (string, string))
      modifies this`acls
      ensures acls == RemoveKey(old(acls), key)
    {
      var found := set i | i in acls.rows && OfKey(acls.rows[i].ids, key);
      ghost var before, all := acls, found;
      while found != {}
        invariant found <= all && acls == before.(rows := before.rows - (all - found))
        decreases |found|
      {
        var uuid :| uuid in found;
        assert before.rows - (all - found) - {uuid} == before.rows - (all - (found - {uuid}));
        acls := acls.(rows := acls.rows - {uuid});
        found := found - {uuid};
      }
      assert all - found == all && before.rows - all == RemoveKey(before, key).rows;
    }

    method DeleteDefaultDeny(np: Np, port: string, ghost m: Mem, ghost before: Table, ghost order: seq<string>,
                             ghost done: set<string>)
      requires port !in done && DeniesDeleted(m, before, np, order, done, mem, acls)
      modifies this
      ensures DeniesDeleted(m, before, np, order + [port], done + {port}, mem, acls)
    {
      var node := if port in mem.lsps then Some(mem.lsps[port].node) else None;
      ghost var mem', acls' := mem, acls;
      LocalPodDelDefaultDeny(np, port, node);
      NextDenyDeleted(m, before, np, order, done, port, mem', acls', mem, acls);
    }

    /** The loop over the local pods of a deleted policy. */
    method DeleteDefaultDenies(np: Np) returns (ghost order: seq<string>)
      modifies this
      ensures DeniesDeleted(old(mem), old(acls), np, order, np.localPods.Keys, mem, acls)
    {
      order := [];
      ghost var m, before, done: set<string> := mem, acls, {};
      var left := np.localPods.Keys;
      DecNone(m.inCount, np.spec.Denies(Ingress));
      DecNone(m.egCount, np.spec.Denies(Egress));
      while left != {}
        invariant done + left == np.localPods.Keys && done !! left
                  && DeniesDeleted(m, before, np, order, done, mem, acls)
        decreases |left|
      {
        var port :| port in left;
        DeleteDefaultDeny(np, port, m, before, order, done);
        left := left - {port};
        done := done + {port};
        order := order + [port];
      }
      assert done == np.localPods.Keys;
    }

    /** deleteNetworkPolicyOld. */
    method DeleteNetworkPolicy(ns: string, name: string) returns (ghost order: seq<string>)
      modifies this
      ensures var pe := PortEvent(PolicyDelete(ns, name), NoPod, order);
              && OrderOk(old(mem), pe) && mem == PortMemStep(hash, old(mem), pe)
              && acls == PortStep(hash, MatchText, old(mem), old(acls), pe)
    {
      order := [];
      if (ns, name) !in mem.byKey || mem.byKey[(ns, name)] !in mem.nps {
        return;
      }
      var id := mem.byKey[(ns, name)];
      var np := mem.nps[id];
      order := DeleteDefaultDenies(np);
      DeleteAclsPolicy(np.spec.Key());
      mem := mem.(nps := mem.nps[id := np.(deleted := true)], byKey := mem.byKey - {(ns, name)});
    }

    /** deleteLogicalPort: the port's default-deny rows and counters go with it. */
    method DeleteLogicalPort(port: string, pod: Pod)
      modifies this
      ensures var pe := PortEvent(PodDown(port), pod, []);
              mem == PortMemStep(hash, old(mem), pe) && acls == PortStep(hash, MatchText, old(mem), old(acls), pe)
    {
      assert DenyIf(true, Ingress, pod, port) + DenyIf(true, Egress, pod, port)
          == [PortDenyRow(Ingress, pod, port), PortDenyRow(Egress, pod, port)];
      AddOrDelDenies(false, true, true, pod, port);
      mem := mem.(lsps := mem.lsps - {port}, inCount := mem.inCount - {port}, egCount := mem.egCount - {port});
    }

    /** The other handlers write no ACLs; on the memory they are those of the port-group back-end. */
    method Remember(ev: Event)
      requires ev.PolicyAdd? || ev.RuleAdd? || ev.PeerPodAdd? || ev.PeerPodDel? || ev.PodUp?
            || ev.NamespaceAdd? || ev.NamespaceDel? || ev.NamespacePodAdd? || ev.NamespacePodDel?
      modifies this`mem
      ensures var pe := PortEvent(ev, NoPod, []);
              mem == PortMemStep(hash, old(mem), pe) && acls == PortStep(hash, MatchText, old(mem), acls, pe)
    {
      mem := MemStep(hash, mem, ev);
    }

    /** One watch event; `pod` is the pod object of a pod event. */
    method Handle(ev: Event, pod: Pod) returns (ghost order: seq<string>)
      modifies this
      ensures var pe := PortEvent(ev, pod, order);
              && OrderOk(old(mem), pe) && mem == PortMemStep(hash, old(mem), pe)
              && acls == PortStep(hash, MatchText, old(mem), old(acls), pe)
    {
      order := [];
      match ev
      case LocalPodAdd(id, port) => HandleLocalPodSelectorAdd(id, port, pod);
      case LocalPodDel(id, port) => HandleLocalPodSelectorDel(id, port, pod);
      case PeerNsAdd(id, rid, ns) => order := HandlePeerNamespace(id, rid, ns, true);
      case PeerNsDel(id, rid, ns) => order := HandlePeerNamespace(id, rid, ns, false);
      case PolicyDelete(ns, name) => order := DeleteNetworkPolicy(ns, name);
      case PodDown(port) => DeleteLogicalPort(port, pod);
      case _ => Remember(ev);
    }
  }
}
