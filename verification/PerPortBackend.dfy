/** The per-port back-end over whole runs (policy_old.go, pods.go): every selected port has its own
    ACL rows on its logical switch, created, rewritten and removed one by one, and the table
    always holds exactly the rows the controller's memory calls for. */
module PerPortBackend {
  import opened Acl
  import opened Gress
  import opened PolicyWorld
  import opened PolicyMemory
  import opened AclRows
  import opened AclTable

  // ------------------------------------------------------- rows

  function PortOwner(key: (string, string), node: string, port: string): Owner {
    Owner(key, LogicalPort(port), node, OnPort(node, port))
  }

  function PortDenyRow(dir: Direction, pod: Pod, port: string): Row {
    Row(Acl(DEFAULT_DENY_PRIORITY, Drop, AclMatch(dir, Ip4, NoneMatch, LogicalPort(port))),
        PortDenyIds(dir, pod.ns, OnPort(pod.node, port)), pod.node)
  }

  function RuleRows(np: Np, rid: RuleId, node: string, port: string): seq<Row> {
    if rid in np.rules then RowList(PortOwner(np.spec.Key(), node, port), rid, np.rules[rid]) else []
  }

  /** The rows of the first `n` rules of a direction, in order. */
  function DirRows(np: Np, dir: Direction, n: nat, node: string, port: string): seq<Row> {
    if n == 0 then [] else DirRows(np, dir, n - 1, node, port) + RuleRows(np, RuleId(dir, n - 1), node, port)
  }

  /** localPodAddOrDelACLOld for every ingress rule, then for every egress rule. */
  function PodRows(np: Np, node: string, port: string): seq<Row> {
    DirRows(np, Ingress, |np.spec.ingress|, node, port) + DirRows(np, Egress, |np.spec.egress|, node, port)
  }

  function DenyIf(on: bool, dir: Direction, pod: Pod, port: string): seq<Row> {
    if on then [PortDenyRow(dir, pod, port)] else []
  }

  /** The rows the loop over the local pods of a deleted policy removes; for a port without a
      switch no row is found. */
  function LastDenies(m: Mem, np: Np, ports: seq<string>): seq<Row> {
    if ports == [] then [] else SwitchDenies(m, np, ports[0]) + LastDenies(m, np, ports[1..])
  }

  function SwitchDenies(m: Mem, np: Np, port: string): seq<Row> {
    if port in m.lsps then FinalDenies(m, np, port, m.lsps[port].node) else []
  }

  /** An order in which a range over the local pods visits each of them once. */
  ghost predicate Visits(order: seq<string>, pods: set<string>) {
    NoRepeats(order) && forall p :: p in order <==> p in pods
  }

  ghost predicate NoRepeats(s: seq<string>) { forall i, j | 0 <= i < j < |s| :: s[i] != s[j] }

  /** handlePeerNamespaceSelectorModifyOld. */
  function ModifyPorts(txt: Printer, t: Table, np: Np, rid: RuleId, peers: seq<string>, ports: seq<string>): Table
    requires rid in np.rules && forall p | p in ports :: p in np.localPods
    decreases |ports|
  {
    if ports == [] then t
    else ModifyPorts(txt,
                     ModifyRows(txt, t, PortOwner(np.spec.Key(), np.localPods[ports[0]], ports[0]), rid,
                                np.rules[rid].peers, peers,
                                     L4Matches(np.rules[rid].ports)), np, rid, peers, ports[1..])
  }

  function ModifyPortPeers(txt: Printer, ports: seq<string>, t: Table, np: Np, rid: RuleId, peers: seq<string>): Table
    requires rid in np.rules
  {
    if peers == np.rules[rid].peers || !(forall p | p in ports :: p in np.localPods) then t
    else ModifyPorts(txt, t, np, rid, peers, ports)
  }

  /** deleteAclsPolicyOld. */
  function RemoveKey(t: Table, key: (string, string)): Table {
    t.(rows := map i | i in t.rows && !OfKey(t.rows[i].ids, key) :: t.rows[i])
  }

  predicate OfKey(ids: Ids, key: (string, string)) {
    match ids
    case AllowIds(_, _, k, _, _) => k == key
    case ExceptIds(k, _) => k == key
    case PortExceptIds(_, k, _, _) => k == key
    case _ => false
  }

  /** An event as the per-port handlers see it: with the namespace and node of the pod object a pod
      event carries, and the order in which the step's loop visits the local pods. */
  datatype PortEvent = PortEvent(ev: Event, pod: Pod, order: seq<string>)

  /** The event's loop visits the local pods of its policy. */
  ghost predicate OrderOk(m: Mem, pe: PortEvent) {
    match pe.ev
    case PeerNsAdd(id, _, _) => Live(m, id) ==> Visits(pe.order, m.nps[id].localPods.Keys)
    case PeerNsDel(id, _, _) => Live(m, id) ==> Visits(pe.order, m.nps[id].localPods.Keys)
    case PolicyDelete(ns, name) =>
      (ns, name) in m.byKey && m.byKey[(ns, name)] in m.nps
      ==> Visits(pe.order, m.nps[m.byKey[(ns, name)]].localPods.Keys)
    case _ => true
  }

  /** handleLocalPodSelectorAddFuncOld takes a pod it does not have yet, whether or not the pod's
      logical port exists. */
  predicate Takes(m: Mem, id: nat, port: string) { Live(m, id) && port !in m.nps[id].localPods }

  /** The memory of this back-end: as that of the other one, except for a pod being selected. */
  function PortMemStep(h: string -> string, m: Mem, pe: PortEvent): Mem {
    if !pe.ev.LocalPodAdd? then MemStep(h, m, pe.ev)
    else if !Takes(m, pe.ev.id, pe.ev.port) then m
    else
      var np, port := m.nps[pe.ev.id], pe.ev.port;
      WithNp(m, pe.ev.id, np.(localPods := np.localPods[port := pe.pod.node])).(
        inCount := Inc(m.inCount, port, np.spec.Denies(Ingress)),
        egCount := Inc(m.egCount, port, np.spec.Denies(Egress)))
  }

  function PortStep(h: string -> string, txt: Printer, m: Mem, t: Table, pe: PortEvent): Table {
    match pe.ev
    case PeerNsAdd(id, rid, ns) =>
      if LiveRule(m, id, rid)
      then ModifyPortPeers(txt, pe.order, t, m.nps[id], rid, AddPeer(m.nps[id].rules[rid].peers, h(ns))) else t
    case PeerNsDel(id, rid, ns) =>
      if LiveRule(m, id, rid)
      then ModifyPortPeers(txt, pe.order, t, m.nps[id], rid, Remove(m.nps[id].rules[rid].peers, h(ns))) else t
    case LocalPodAdd(id, port) =>
      if Takes(m, id, port) then AddRows(t, AddedRows(m, m.nps[id], port, pe.pod.node)) else t
    case LocalPodDel(id, port) =>
      if Live(m, id) && port in m.nps[id].localPods
      then DeleteRows(t, DeletedRows(m, m.nps[id], port, pe.pod.node)) else t
    case PolicyDelete(ns, name) =>
      if (ns, name) !in m.byKey || m.byKey[(ns, name)] !in m.nps then t
      else
        var np := m.nps[m.byKey[(ns, name)]];
        RemoveKey(DeleteRows(t, LastDenies(m, np, pe.order)), np.spec.Key())
    case PodDown(port) => DeleteRows(t, [PortDenyRow(Ingress, pe.pod, port), PortDenyRow(Egress, pe.pod, port)])
    case _ => t
  }

  /** The default-deny rows a port's first holder creates, and those its last holder removes. */
  function FirstDenies(m: Mem, np: Np, port: string, node: string): seq<Row> {
    DenyIf(np.spec.Denies(Ingress) && Count(m, Ingress, port) == 0, Ingress, Pod(np.spec.ns, node), port)
    + DenyIf(np.spec.Denies(Egress) && Count(m, Egress, port) == 0, Egress, Pod(np.spec.ns, node), port)
  }

  function FinalDenies(m: Mem, np: Np, port: string, node: string): seq<Row> {
    DenyIf(np.spec.Denies(Ingress) && Count(m, Ingress, port) == 1, Ingress, Pod(np.spec.ns, node), port)
    + DenyIf(np.spec.Denies(Egress) && Count(m, Egress, port) == 1, Egress, Pod(np.spec.ns, node), port)
  }

  /** The rows a pod gets when it is selected, and loses when it no longer is. */
  function AddedRows(m: Mem, np: Np, port: string, node: string): seq<Row> {
    FirstDenies(m, np, port, node) + PodRows(np, node, port)
  }

  function DeletedRows(m: Mem, np: Np, port: string, node: string): seq<Row> {
    FinalDenies(m, np, port, node) + PodRows(np, node, port)
  }

  // ------------------------------------------------------- the rows the memory calls for

  ghost predicate IsPortRow(nps: map<nat, Np>, id: nat, rid: RuleId, k: Kind, port: string, row: Row) {
    && id in nps && !nps[id].deleted && rid in nps[id].rules && HasKind(nps[id].rules[rid], k)
    && port in nps[id].localPods
    && row == RowOf(PortOwner(nps[id].spec.Key(), nps[id].localPods[port], port), rid, nps[id].rules[rid], k)
  }

  ghost predicate IsPolicyRow(nps: map<nat, Np>, row: Row) {
    exists id: nat, rid, k, port :: IsPortRow(nps, id, rid, k, port, row)
  }

  ghost function PolicyRows(nps: map<nat, Np>): iset<Row> { iset row | IsPolicyRow(nps, row) }

  ghost predicate IsPortDeny(dir: Direction, lsps: map<string, Pod>, counts: map<string, nat>, port: string, row: Row) {
    port in lsps && Get(counts, port) > 0 && row == PortDenyRow(dir, lsps[port], port)
  }

  ghost predicate IsDeny(dir: Direction, lsps: map<string, Pod>, counts: map<string, nat>, row: Row) {
    exists port :: IsPortDeny(dir, lsps, counts, port, row)
  }

  ghost function PortDenies(dir: Direction, lsps: map<string, Pod>, counts: map<string, nat>): iset<Row> {
    iset row | IsDeny(dir, lsps, counts, row)
  }

  ghost function PortExpected(nps: map<nat, Np>, lsps: map<string, Pod>, ic: map<string, nat>,
                              ec: map<string, nat>): iset<Row> {
    PolicyRows(nps) + PortDenies(Ingress, lsps, ic) + PortDenies(Egress, lsps, ec)
  }

  /** Policy rows, ingress denies and egress denies never share ids. */
  predicate Part(row: Row, dir: Direction) { row.ids.PortDenyIds? && row.ids.dir == dir }

  lemma PolicyRowIds(nps: map<nat, Np>, r: Row)
    requires IsPolicyRow(nps, r)
    ensures !r.ids.PortDenyIds?
  {
  }

  /** The ids of a row tell the policy, switch, port and kind, and the rule or the blocks. */
  lemma RowIdsTell(key: (string, string), node: string, port: string, rid: RuleId, r: Rule, k: Kind,
                   key': (string, string), node': string, port': string, rid': RuleId, r': Rule, k': Kind)
    requires RowOf(PortOwner(key, node, port), rid, r, k).ids == RowOf(PortOwner(key', node', port'), rid', r', k').ids
    ensures key == key' && node == node' && port == port' && k == k' && rid.dir == rid'.dir
    ensures if k.ExceptKind? then r.except == r'.except else rid == rid'
  {
  }

  lemma SamePolicyRow(nps: map<nat, Np>, r: Row, s: Row)
    requires MemOk(nps) && IsPolicyRow(nps, r) && IsPolicyRow(nps, s) && r.ids == s.ids
    ensures r == s
  {
    var i: nat, a, k, p :| IsPortRow(nps, i, a, k, p, r);
    var j: nat, b, l, q :| IsPortRow(nps, j, b, l, q, s);
    var x, y := nps[i], nps[j];
    RowIdsTell(x.spec.Key(), x.localPods[p], p, a, x.rules[a], k, y.spec.Key(), y.localPods[q], q, b, y.rules[b], l);
    assert i == j;
  }

  lemma PortExpectedIds(nps: map<nat, Np>, lsps: map<string, Pod>, ic: map<string, nat>, ec: map<string, nat>)
    requires MemOk(nps)
    ensures SameIdsSameRow(PortExpected(nps, lsps, ic, ec))
  {
    forall r, s | r in PortExpected(nps, lsps, ic, ec) && s in PortExpected(nps, lsps, ic, ec) && r.ids == s.ids
      ensures r == s
    {
      if r in PolicyRows(nps) {
        PolicyRowIds(nps, r);
        SamePolicyRow(nps, r, s);
      } else if s in PolicyRows(nps) {
        PolicyRowIds(nps, s);
        SamePolicyRow(nps, r, s);
      }
    }
  }

  // ------------------------------------------------------- rows of one pod

  ghost predicate IsPodRow(np: Np, node: string, port: string, rid: RuleId, k: Kind, row: Row) {
    rid in np.rules && HasKind(np.rules[rid], k)
    && row == RowOf(PortOwner(np.spec.Key(), node, port), rid, np.rules[rid], k)
  }

  ghost predicate HasPodRow(np: Np, node: string, port: string, rid: RuleId, row: Row) {
    exists k :: IsPodRow(np, node, port, rid, k, row)
  }

  lemma RuleRowsElements(np: Np, rid: RuleId, node: string, port: string, row: Row)
    ensures row in RuleRows(np, rid, node, port) <==> HasPodRow(np, node, port, rid, row)
  {
    if rid in np.rules {
      RowListElements(PortOwner(np.spec.Key(), node, port), rid, np.rules[rid], row);
      if k :| HasKind(np.rules[rid], k) && row == RowOf(PortOwner(np.spec.Key(), node, port), rid, np.rules[rid], k) {
        assert IsPodRow(np, node, port, rid, k, row);
      }
    }
  }

  lemma {:induction false} DirRowsElements(np: Np, dir: Direction, n: nat, node: string, port: string, row: Row)
    ensures row in DirRows(np, dir, n, node, port)
        <==> exists i: nat :: i < n && HasPodRow(np, node, port, RuleId(dir, i), row)
  {
    if n > 0 {
      DirRowsElements(np, dir, n - 1, node, port, row);
      RuleRowsElements(np, RuleId(dir, n - 1), node, port, row);
    }
  }

  lemma PodRowsElements(np: Np, node: string, port: string, row: Row)
    requires RulesInRange(np)
    ensures row in PodRows(np, node, port) <==> exists rid, k :: IsPodRow(np, node, port, rid, k, row)
  {
    DirRowsElements(np, Ingress, |np.spec.ingress|, node, port, row);
    DirRowsElements(np, Egress, |np.spec.egress|, node, port, row);
    if rid, k :| IsPodRow(np, node, port, rid, k, row) {
      assert HasPodRow(np, node, port, RuleId(rid.dir, rid.idx), row);
    }
  }

  lemma RowsAfterPodAdd(nps: map<nat, Np>, id: nat, np': Np, port: string, node: string)
    requires id in nps && !nps[id].deleted && port !in nps[id].localPods && RulesInRange(nps[id])
    requires np' == nps[id].(localPods := nps[id].localPods[port := node])
    ensures PolicyRows(nps[id := np']) == PolicyRows(nps) + Rows(PodRows(nps[id], node, port))
  {
    var nps' := nps[id := np'];
    forall row ensures row in PolicyRows(nps') <==> row in PolicyRows(nps) || row in PodRows(nps[id], node, port) {
      PodRowsElements(nps[id], node, port, row);
      if i: nat, a, k, p :| IsPortRow(nps', i, a, k, p, row) {
        if (i, p) == (id, port) {
          assert IsPodRow(nps[id], node, port, a, k, row);
        } else {
          assert IsPortRow(nps, i, a, k, p, row);
        }
      }
      if i: nat, a, k, p :| IsPortRow(nps, i, a, k, p, row) {
        assert IsPortRow(nps', i, a, k, p, row);
      }
      if rid, k :| IsPodRow(nps[id], node, port, rid, k, row) {
        assert IsPortRow(nps', id, rid, k, port, row);
      }
    }
  }

  /** Only the pod itself has the pod's rows. */
  lemma OwnPodRow(nps: map<nat, Np>, id: nat, port: string, row: Row, i: nat, a: RuleId, k: Kind, p: string, b: RuleId,
                  l: Kind)
    requires MemOk(nps) && id in nps && !nps[id].deleted && port in nps[id].localPods
    requires IsPortRow(nps, i, a, k, p, row) && IsPodRow(nps[id], nps[id].localPods[port], port, b, l, row)
    ensures i == id && p == port
  {
    var x, y := nps[i], nps[id];
    RowIdsTell(x.spec.Key(), x.localPods[p], p, a, x.rules[a], k, y.spec.Key(), y.localPods[port], port, b, y.rules[b],
               l);
  }

  lemma RowAfterPodDel(nps: map<nat, Np>, nps': map<nat, Np>, id: nat, port: string, row: Row)
    requires MemOk(nps) && id in nps && !nps[id].deleted && port in nps[id].localPods && RulesInRange(nps[id])
    requires nps' == nps[id := nps[id].(localPods := nps[id].localPods - {port})]
    ensures row in PolicyRows(nps')
        <==> row in PolicyRows(nps) && row !in PodRows(nps[id], nps[id].localPods[port], port)
  {
    var node := nps[id].localPods[port];
    PodRowsElements(nps[id], node, port, row);
    if i: nat, a, k, p :| IsPortRow(nps, i, a, k, p, row) {
      if b, l :| IsPodRow(nps[id], node, port, b, l, row) {
        if j: nat, c, n, q :| IsPortRow(nps', j, c, n, q, row) {
          assert IsPortRow(nps, j, c, n, q, row);
          OwnPodRow(nps, id, port, row, j, c, n, q, b, l);
          assert false;
        }
      } else {
        assert (i, p) == (id, port) ==> IsPodRow(nps[id], node, port, a, k, row);
        assert IsPortRow(nps', i, a, k, p, row);
      }
    } else if j: nat, c, n, q :| IsPortRow(nps', j, c, n, q, row) {
      assert IsPortRow(nps, j, c, n, q, row);
    }
  }

  lemma RowsAfterPodDel(nps: map<nat, Np>, nps': map<nat, Np>, id: nat, port: string)
    requires MemOk(nps) && id in nps && !nps[id].deleted && port in nps[id].localPods && RulesInRange(nps[id])
    requires nps' == nps[id := nps[id].(localPods := nps[id].localPods - {port})]
    ensures PolicyRows(nps') == PolicyRows(nps) - Rows(PodRows(nps[id], nps[id].localPods[port], port))
  {
    forall row
      ensures row in PolicyRows(nps')
          <==> row in PolicyRows(nps) && row !in PodRows(nps[id], nps[id].localPods[port], port)
    {
      RowAfterPodDel(nps, nps', id, port, row);
    }
  }

  /** Removing a policy's rows by key leaves exactly the rows of the others. */
  lemma RowsAfterPolicyDelete(nps: map<nat, Np>, nps': map<nat, Np>, id: nat, row: Row)
    requires MemOk(nps) && id in nps && !nps[id].deleted && nps' == nps[id := nps[id].(deleted := true)]
    ensures row in PolicyRows(nps') <==> row in PolicyRows(nps) && !OfKey(row.ids, nps[id].spec.Key())
  {
    if i: nat, a, k, p :| IsPortRow(nps', i, a, k, p, row) {
      assert IsPortRow(nps, i, a, k, p, row);
      assert nps[i].spec.Key() != nps[id].spec.Key();
    }
    if i: nat, a, k, p :| IsPortRow(nps, i, a, k, p, row) {
      assert i != id ==> IsPortRow(nps', i, a, k, p, row);
    }
  }

  // ------------------------------------------------------- default-deny rows

  lemma DeniesAfterInc(dir: Direction, lsps: map<string, Pod>, counts: map<string, nat>, port: string, on: bool)
    requires port in lsps
    ensures PortDenies(dir, lsps, Inc(counts, port, on)) ==
            PortDenies(dir, lsps, counts) + Rows(DenyIf(on && Get(counts, port) == 0, dir, lsps[port], port))
  {
    var counts' := Inc(counts, port, on);
    forall row ensures IsDeny(dir, lsps, counts', row) <==>
                       IsDeny(dir, lsps, counts, row)
                       || row in DenyIf(on && Get(counts, port) == 0, dir, lsps[port], port) {
      if p :| IsPortDeny(dir, lsps, counts', p, row) {
        assert p != port || !on || Get(counts, port) > 0 ==> IsPortDeny(dir, lsps, counts, p, row);
      }
      if p :| IsPortDeny(dir, lsps, counts, p, row) {
        assert IsPortDeny(dir, lsps, counts', p, row);
      }
      if row in DenyIf(on && Get(counts, port) == 0, dir, lsps[port], port) {
        assert IsPortDeny(dir, lsps, counts', port, row);
      }
    }
  }

  lemma DeniesAfterDec(dir: Direction, lsps: map<string, Pod>, counts: map<string, nat>, counts': map<string, nat>,
                       last: iset<Row>)
    requires forall p :: Get(counts', p) <= Get(counts, p)
    requires forall row :: row in last <==> exists p :: IsPortDeny(dir, lsps, counts, p, row) && Get(counts', p) == 0
    ensures PortDenies(dir, lsps, counts') == PortDenies(dir, lsps, counts) - last
  {
    forall row ensures IsDeny(dir, lsps, counts', row) <==> IsDeny(dir, lsps, counts, row) && row !in last {
      if p :| IsPortDeny(dir, lsps, counts', p, row) {
        assert IsPortDeny(dir, lsps, counts, p, row);
      }
      if p :| IsPortDeny(dir, lsps, counts, p, row) {
        assert Get(counts', p) > 0 ==> IsPortDeny(dir, lsps, counts', p, row);
      }
    }
  }

  lemma {:induction false} LastDeniesElements(m: Mem, np: Np, ports: seq<string>, row: Row)
    ensures row in LastDenies(m, np, ports)
        <==> exists p | p in ports :: row in SwitchDenies(m, np, p)
  {
    if ports != [] {
      LastDeniesElements(m, np, ports[1..], row);
      assert forall p :: p in ports <==> p == ports[0] || p in ports[1..];
    }
  }

  // ------------------------------------------------------- rewriting matches

  function RewritePortRow(row: Row, key: (string, string), rid: RuleId, ports: seq<string>, l4s: seq<L4Match>,
                          l3: L3Match): Row {
    if row.ids.AllowIds? && !row.ids.cidr && row.ids.key == key && row.ids.rid == rid
       && row.ids.at.OnPort? && row.ids.at.port in ports && row.ids.l4 in l4s
    then row.(acl := row.acl.(match_ := row.acl.match_.(l3 := l3))) else row
  }

  function PortRewriter(key: (string, string), rid: RuleId, ports: seq<string>, l4s: seq<L4Match>,
                        l3: L3Match): Row -> Row {
    row => RewritePortRow(row, key, rid, ports, l4s, l3)
  }

  function MapRows(t: Table, f: Row -> Row): Table { t.(rows := map i | i in t.rows :: f(t.rows[i])) }

  /** The rows of a rule at the ports still to be visited are printed from the old list. */
  ghost predicate PortsUnchanged(t: Table, np: Np, rid: RuleId, ports: seq<string>, newPeers: seq<string>)
    requires rid in np.rules && forall p | p in ports :: p in np.localPods
  {
    forall p | p in ports ::
      RuleRowsAre(t, PortOwner(np.spec.Key(), np.localPods[p], p), rid, np.rules[rid], [], newPeers)
  }

  /** Rewriting the rows of one port leaves the rows of another alone. */
  lemma OtherPortUnchanged(t: Table, key: (string, string), node: string, port: string, node': string, port': string,
                           rid: RuleId, r: Rule,
                           newPeers: seq<string>, l4s: seq<L4Match>)
    requires port != port' && RuleRowsAre(t, PortOwner(key, node', port'), rid, r, [], newPeers)
    ensures RuleRowsAre(Rewrite(t, PortOwner(key, node, port), rid, l4s, PeersL3(newPeers)),
                        PortOwner(key, node', port'), rid, r, [], newPeers)
  {
    var o, o' := PortOwner(key, node, port), PortOwner(key, node', port');
    var t' := Rewrite(t, o, rid, l4s, PeersL3(newPeers));
    forall i | i in t'.rows && Concerns(o', rid, t'.rows[i].ids) ensures t'.rows[i] == t.rows[i] {
      assert t'.rows[i].ids == t.rows[i].ids;
    }
    forall l4 | l4 in L4Matches(r.ports)
      ensures exists i | i in t'.rows :: t'.rows[i].ids == AllowIds(l4, false, o'.key, rid, o'.at)
    {
      var i :| i in t.rows && t.rows[i].ids == AllowIds(l4, false, o'.key, rid, o'.at);
      assert t'.rows[i].ids == t.rows[i].ids;
    }
  }

  lemma RewriteFirstPort(t: Table, np: Np, rid: RuleId, newPeers: seq<string>, ports: seq<string>)
    requires rid in np.rules && ports != [] && ports[0] in np.localPods
    requires RuleRowsAre(t, PortOwner(np.spec.Key(), np.localPods[ports[0]], ports[0]), rid, np.rules[rid], [],
                         newPeers)
    ensures MapRows(Rewrite(t, PortOwner(np.spec.Key(), np.localPods[ports[0]], ports[0]), rid,
                            L4Matches(np.rules[rid].ports), PeersL3(newPeers)),
                    PortRewriter(np.spec.Key(), rid, ports[1..], L4Matches(np.rules[rid].ports), PeersL3(newPeers)))
         == MapRows(t, PortRewriter(np.spec.Key(), rid, ports, L4Matches(np.rules[rid].ports), PeersL3(newPeers)))
  {
    var l4s, key, l3 := L4Matches(np.rules[rid].ports), np.spec.Key(), PeersL3(newPeers);
    var o := PortOwner(key, np.localPods[ports[0]], ports[0]);
    forall i | i in t.rows
      ensures RewritePortRow(RewriteRow(t.rows[i], o, rid, l4s, l3), key, rid, ports[1..], l4s, l3)
           == RewritePortRow(t.rows[i], key, rid, ports, l4s, l3)
    {
      assert Concerns(o, rid, t.rows[i].ids) ==> t.rows[i].ids.at == o.at;
      assert forall p :: p in ports <==> p == ports[0] || p in ports[1..];
    }
    assert MapRows(Rewrite(t, o, rid, l4s, l3), PortRewriter(key, rid, ports[1..], l4s, l3)).rows
        == MapRows(t, PortRewriter(key, rid, ports, l4s, l3)).rows;
  }

  /** Visiting the ports in any order rewrites every peers row of the rule at every port. */
  lemma {:induction false} ModifyPortsOk(txt: Printer, t: Table, np: Np, rid: RuleId, newPeers: seq<string>,
                                         ports: seq<string>)
    requires rid in np.rules && (forall p | p in ports :: p in np.localPods) && NoRepeats(ports)
    requires GoodPrinter(txt) && PlainRule(np.rules[rid]) && PlainRule(np.rules[rid].(peers := newPeers))
    requires np.rules[rid].peers != [] && newPeers != [] && np.rules[rid].peers != newPeers
             && PortsUnchanged(t, np, rid, ports, newPeers)
    ensures ModifyPorts(txt, t, np, rid, newPeers, ports)
         == MapRows(t, PortRewriter(np.spec.Key(), rid, ports, L4Matches(np.rules[rid].ports), PeersL3(newPeers)))
    decreases |ports|
  {
    var l4s, key, l3 := L4Matches(np.rules[rid].ports), np.spec.Key(), PeersL3(newPeers);
    if ports == [] {
      assert MapRows(t, PortRewriter(key, rid, ports, l4s, l3)).rows == t.rows;
    } else {
      var o := PortOwner(key, np.localPods[ports[0]], ports[0]);
      assert ports[0] in ports;
      ModifyRowsOk(txt, t, o, rid, np.rules[rid], [], newPeers, l4s);
      var t' := Rewrite(t, o, rid, l4s, l3);
      forall p | p in ports[1..]
        ensures p in np.localPods
                && RuleRowsAre(t', PortOwner(key, np.localPods[p], p), rid, np.rules[rid], [], newPeers)
      {
        assert p in ports;
        OtherPortUnchanged(t, key, np.localPods[ports[0]], ports[0], np.localPods[p], p, rid, np.rules[rid], newPeers,
                           l4s);
      }
      ModifyPortsOk(txt, t', np, rid, newPeers, ports[1..]);
      RewriteFirstPort(t, np, rid, newPeers, ports);
    }
  }

  lemma PortRowRewritten(nps: map<nat, Np>, nps': map<nat, Np>, id: nat, rid: RuleId, peers: seq<string>,
                         ports: seq<string>, j: nat, b: RuleId, k: Kind, p: string, row: Row)
    requires MemOk(nps) && IsPortRow(nps, j, b, k, p, row) && id in nps && !nps[id].deleted && rid in nps[id].rules
    requires (forall q :: q in ports <==> q in nps[id].localPods) && nps' == nps[id := WithPeers(nps[id], rid, peers)]
    ensures IsPortRow(nps', j, b, k, p,
                      RewritePortRow(row, nps[id].spec.Key(), rid, ports, L4Matches(nps[id].rules[rid].ports),
                                     PeersL3(peers)))
  {
    assert nps[j].spec.Key() == nps[id].spec.Key() ==> j == id;
  }

  lemma PortsRewritten(nps: map<nat, Np>, nps': map<nat, Np>, id: nat, rid: RuleId, peers: seq<string>,
                       ports: seq<string>, f: Row -> Row)
    requires MemOk(nps) && id in nps && !nps[id].deleted && rid in nps[id].rules
    requires (forall q :: q in ports <==> q in nps[id].localPods) && nps' == nps[id := WithPeers(nps[id], rid, peers)]
    requires f == PortRewriter(nps[id].spec.Key(), rid, ports, L4Matches(nps[id].rules[rid].ports), PeersL3(peers))
    ensures forall r | r in PolicyRows(nps) :: f(r) in PolicyRows(nps') && f(r).ids == r.ids
    ensures forall r' | r' in PolicyRows(nps') :: exists r | r in PolicyRows(nps) :: f(r) == r'
  {
    forall r | r in PolicyRows(nps) ensures f(r) in PolicyRows(nps') {
      var j: nat, b, k, p :| IsPortRow(nps, j, b, k, p, r);
      PortRowRewritten(nps, nps', id, rid, peers, ports, j, b, k, p, r);
    }
    forall r' | r' in PolicyRows(nps') ensures exists r | r in PolicyRows(nps) :: f(r) == r' {
      var j: nat, b, k, p :| IsPortRow(nps', j, b, k, p, r');
      var r := RowOf(PortOwner(nps[j].spec.Key(), nps[j].localPods[p], p), b, nps[j].rules[b], k);
      assert IsPortRow(nps, j, b, k, p, r);
      PortRowRewritten(nps, nps', id, rid, peers, ports, j, b, k, p, r);
      assert r in PolicyRows(nps) && f(r) == r';
    }
  }

  lemma UnionRewritten(p: iset<Row>, p': iset<Row>, denies: iset<Row>, f: Row -> Row)
    requires forall r | r in p :: f(r) in p' && f(r).ids == r.ids
    requires forall r' | r' in p' :: exists r | r in p :: f(r) == r'
    requires forall d | d in denies :: f(d) == d
    ensures forall r | r in p + denies :: f(r) in p' + denies && f(r).ids == r.ids
    ensures forall r' | r' in p' + denies :: exists r | r in p + denies :: f(r) == r'
  {
  }

  /** The rewritten table holds exactly the rows printed from the new list. */
  lemma PortRewriteOk(t: Table, nps: map<nat, Np>, nps': map<nat, Np>, denies: iset<Row>, id: nat, rid: RuleId,
                      peers: seq<string>, ports: seq<string>, f: Row -> Row)
    requires MemOk(nps) && id in nps && !nps[id].deleted && rid in nps[id].rules
    requires (forall q :: q in ports <==> q in nps[id].localPods) && nps' == nps[id := WithPeers(nps[id], rid, peers)]
    requires TableOk(t, PolicyRows(nps) + denies) && forall d | d in denies :: d.ids.PortDenyIds?
    requires f == PortRewriter(nps[id].spec.Key(), rid, ports, L4Matches(nps[id].rules[rid].ports), PeersL3(peers))
    ensures TableOk(MapRows(t, f), PolicyRows(nps') + denies)
  {
    PortsRewritten(nps, nps', id, rid, peers, ports, f);
    forall d | d in denies ensures f(d) == d {
    }
    PortRewriteTable(t, PolicyRows(nps), PolicyRows(nps'), denies, f);
  }

  lemma PortRewriteTable(t: Table, p: iset<Row>, p': iset<Row>, denies: iset<Row>, f: Row -> Row)
    requires TableOk(t, p + denies)
    requires forall r | r in p :: f(r) in p' && f(r).ids == r.ids
    requires forall r' | r' in p' :: exists r | r in p :: f(r) == r'
    requires forall d | d in denies :: f(d) == d
    ensures TableOk(MapRows(t, f), p' + denies)
  {
    UnionRewritten(p, p', denies, f);
    MapTableOk(t, MapRows(t, f), f, p + denies, p' + denies);
  }

  lemma PortAllowRow(nps: map<nat, Np>, id: nat, rid: RuleId, port: string, row: Row)
    requires MemOk(nps) && IsPolicyRow(nps, row) && id in nps && !nps[id].deleted && rid in nps[id].rules
             && port in nps[id].localPods
    requires Concerns(PortOwner(nps[id].spec.Key(), nps[id].localPods[port], port), rid, row.ids)
    ensures row == RowOf(PortOwner(nps[id].spec.Key(), nps[id].localPods[port], port), rid, nps[id].rules[rid],
                         if row.ids.cidr then CidrKind(row.ids.l4) else PeersKind(row.ids.l4))
    ensures row.ids.cidr ==> nps[id].rules[rid].cidr != ""
  {
    var j: nat, b, k, p :| IsPortRow(nps, j, b, k, p, row);
    assert nps[j].spec.Key() == nps[id].spec.Key();
  }

  lemma PortRuleRows(t: Table, nps: map<nat, Np>, denies: iset<Row>, id: nat, rid: RuleId, port: string,
                     newPeers: seq<string>)
    requires MemOk(nps) && id in nps && !nps[id].deleted && rid in nps[id].rules && port in nps[id].localPods
    requires TableOk(t, PolicyRows(nps) + denies) && forall d | d in denies :: d.ids.PortDenyIds?
    ensures RuleRowsAre(t, PortOwner(nps[id].spec.Key(), nps[id].localPods[port], port), rid, nps[id].rules[rid], [],
                        newPeers)
  {
    var o, r := PortOwner(nps[id].spec.Key(), nps[id].localPods[port], port), nps[id].rules[rid];
    forall i | i in t.rows && Concerns(o, rid, t.rows[i].ids)
      ensures t.rows[i] == RowOf(o, rid, r,
                                 if t.rows[i].ids.cidr then CidrKind(t.rows[i].ids.l4) else PeersKind(t.rows[i].ids.l4))
      ensures t.rows[i].ids.cidr ==> r.cidr != ""
    {
      PortAllowRow(nps, id, rid, port, t.rows[i]);
    }
    forall l4 | l4 in L4Matches(r.ports)
      ensures exists i | i in t.rows :: t.rows[i].ids == AllowIds(l4, false, o.key, rid, o.at)
    {
      var row := RowOf(o, rid, r, PeersKind(l4));
      assert IsPortRow(nps, id, rid, PeersKind(l4), port, row);
      assert row in PolicyRows(nps) + denies;
      var i :| i in t.rows && t.rows[i] == row;
      assert t.rows[i].ids == AllowIds(l4, false, o.key, rid, o.at);
    }
  }

  lemma ModifyPortPeersOk(txt: Printer, ports: seq<string>, t: Table, nps: map<nat, Np>, denies: iset<Row>, id: nat,
                          rid: RuleId, peers: seq<string>)
    requires GoodPrinter(txt) && MemOk(nps) && id in nps && !nps[id].deleted && rid in nps[id].rules
    requires Visits(ports, nps[id].localPods.Keys)
    requires TableOk(t, PolicyRows(nps) + denies) && forall d | d in denies :: d.ids.PortDenyIds?
    requires nps[id].rules[rid].peers != [] && peers != [] && PlainRule(nps[id].rules[rid].(peers := peers))
    ensures TableOk(ModifyPortPeers(txt, ports, t, nps[id], rid, peers),
                    PolicyRows(nps[id := WithPeers(nps[id], rid, peers)]) + denies)
  {
    var np := nps[id];
    var r := np.rules[rid];
    if peers == r.peers {
      assert np.rules[rid := r.(peers := peers)] == np.rules;
      assert nps[id := WithPeers(np, rid, peers)] == nps;
    } else {
      assert PlainRule(r) && NoRepeats(ports);
      forall p | p in ports
        ensures p in np.localPods && RuleRowsAre(t, PortOwner(np.spec.Key(), np.localPods[p], p), rid, r, [], peers)
      {
        PortRuleRows(t, nps, denies, id, rid, p, peers);
      }
      ModifyPortsOk(txt, t, np, rid, peers, ports);
      PortRewriteOk(t, nps, nps[id := WithPeers(np, rid, peers)], denies, id, rid, peers, ports,
                    PortRewriter(np.spec.Key(), rid, ports, L4Matches(r.ports), PeersL3(peers)));
    }
  }
}
