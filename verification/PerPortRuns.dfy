/** Whole runs of the per-port back-end: the table invariant through every event, the meaning of
    the table, and agreement with the port-group back-end. */
module PerPortRuns {
  import opened Acl
  import opened MatchReader
  import opened PolicyWorld
  import opened PolicyMemory
  import opened AclRows
  import opened AclTable
  import opened AddressSets
  import opened PortGroupBackend
  import opened PerPortBackend
  import opened PolicyMeaning
  import opened PortGroupMeaning

  // ------------------------------------------------------- what the steps use of the memory

  ghost predicate PodsKnown(nps: map<nat, Np>, lsps: map<string, Pod>) {
    forall id, p | id in nps && !nps[id].deleted && p in nps[id].localPods && p in lsps ::
      lsps[p] == Pod(nps[id].spec.ns, nps[id].localPods[p])
  }

  ghost predicate CountsKnown(lsps: map<string, Pod>, counts: map<string, nat>) {
    forall p :: Get(counts, p) > 0 ==> p in lsps
  }

  ghost predicate PortFacts(m: Mem) {
    && MemOk(m.nps) && PodsKnown(m.nps, m.lsps) && CountsKnown(m.lsps, m.inCount) && CountsKnown(m.lsps, m.egCount)
    && forall id | Live(m, id) :: RulesInRange(m.nps[id])
  }

  lemma NpFacts(h: string -> string, w: World, m: Mem, id: nat)
    requires WorldOk(w) && Sim(h, w, m) && Live(m, id)
    ensures RulesInRange(m.nps[id])
    ensures forall p | p in m.nps[id].localPods && p in m.lsps ::
              m.lsps[p] == Pod(m.nps[id].spec.ns, m.nps[id].localPods[p])
  {
    assert NpSim(h, w.policies[id], m.nps[id]) && PolicyOk(w, w.policies[id]);
    RulesInRangeOf(h, w, m, id);
  }

  lemma PortFactsOf(h: string -> string, w: World, m: Mem)
    requires GoodHash(h) && WorldOk(w) && Sim(h, w, m)
    ensures PortFacts(m)
  {
    MemOkOf(h, w, m);
    forall id | Live(m, id)
      ensures RulesInRange(m.nps[id])
      ensures forall p | p in m.nps[id].localPods && p in m.lsps ::
                m.lsps[p] == Pod(m.nps[id].spec.ns, m.nps[id].localPods[p])
    {
      NpFacts(h, w, m, id);
    }
  }

  ghost function MemRows(m: Mem): iset<Row> { PortExpected(m.nps, m.lsps, m.inCount, m.egCount) }

  // ------------------------------------------------------- a pod is selected

  lemma AddThree(t: Table, p: iset<Row>, d1: iset<Row>, d2: iset<Row>, r: seq<Row>, r1: seq<Row>, r2: seq<Row>)
    requires TableOk(t, p + d1 + d2)
    requires SameIdsSameRow((p + Rows(r)) + (d1 + Rows(r1)) + (d2 + Rows(r2)))
    ensures TableOk(AddRows(t, r1 + r2 + r), (p + Rows(r)) + (d1 + Rows(r1)) + (d2 + Rows(r2)))
  {
    var e := p + d1 + d2;
    assert e + Rows(r1 + r2 + r) == (p + Rows(r)) + (d1 + Rows(r1)) + (d2 + Rows(r2)) by {
      assert forall x :: x in r1 + r2 + r <==> x in r1 || x in r2 || x in r;
    }
    AddRowsOk(t, e, r1 + r2 + r);
  }

  lemma PortPodAdd(h: string -> string, txt: Printer, m: Mem, t: Table, pe: PortEvent, id: nat, port: string)
    requires pe.ev == LocalPodAdd(id, port) && PodIsNew(m, id, port)
             && m.lsps[port] == Pod(m.nps[id].spec.ns, pe.pod.node)
    requires PortFacts(m) && TableOk(t, MemRows(m)) && MemOk(MemStep(h, m, pe.ev).nps)
    ensures TableOk(PortStep(h, txt, m, t, pe), MemRows(MemStep(h, m, pe.ev)))
  {
    var m', np, node := MemStep(h, m, pe.ev), m.nps[id], pe.pod.node;
    RowsAfterPodAdd(m.nps, id, m'.nps[id], port, node);
    DeniesAfterInc(Ingress, m.lsps, m.inCount, port, np.spec.Denies(Ingress));
    DeniesAfterInc(Egress, m.lsps, m.egCount, port, np.spec.Denies(Egress));
    PortExpectedIds(m'.nps, m'.lsps, m'.inCount, m'.egCount);
    AddThree(t, PolicyRows(m.nps), PortDenies(Ingress, m.lsps, m.inCount), PortDenies(Egress, m.lsps, m.egCount),
             PodRows(np, node, port),
             DenyIf(np.spec.Denies(Ingress) && Count(m, Ingress, port) == 0, Ingress, m.lsps[port], port),
             DenyIf(np.spec.Denies(Egress) && Count(m, Egress, port) == 0, Egress, m.lsps[port], port));
  }

  // ------------------------------------------------------- rows are removed

  lemma DeleteThree(t: Table, p: iset<Row>, d1: iset<Row>, d2: iset<Row>, r: seq<Row>, r1: seq<Row>, r2: seq<Row>)
    requires TableOk(t, p + d1 + d2) && SameIdsSameRow(p + d1 + d2 + Rows(r1 + r2 + r))
    requires forall x | x in p || x in r :: !x.ids.PortDenyIds?
    requires forall x | x in d1 || x in r1 :: Part(x, Ingress)
    requires forall x | x in d2 || x in r2 :: Part(x, Egress)
    ensures TableOk(DeleteRows(t, r1 + r2 + r), (p - Rows(r)) + (d1 - Rows(r1)) + (d2 - Rows(r2)))
  {
    var e := p + d1 + d2;
    assert e - Rows(r1 + r2 + r) == (p - Rows(r)) + (d1 - Rows(r1)) + (d2 - Rows(r2)) by {
      assert forall x :: x in r1 + r2 + r <==> x in r1 || x in r2 || x in r;
    }
    DeleteRowsOk(t, e, r1 + r2 + r);
  }

  /** Removing rows that are all there. */
  lemma DeleteKnown(t: Table, p: iset<Row>, d1: iset<Row>, d2: iset<Row>, r: seq<Row>, r1: seq<Row>, r2: seq<Row>)
    requires TableOk(t, p + d1 + d2) && SameIdsSameRow(p + d1 + d2)
    requires forall x | x in p :: !x.ids.PortDenyIds?
    requires forall x | x in d1 :: Part(x, Ingress)
    requires forall x | x in d2 :: Part(x, Egress)
    requires (forall x | x in r :: x in p) && (forall x | x in r1 :: x in d1) && (forall x | x in r2 :: x in d2)
    ensures TableOk(DeleteRows(t, r1 + r2 + r), (p - Rows(r)) + (d1 - Rows(r1)) + (d2 - Rows(r2)))
  {
    assert p + d1 + d2 + Rows(r1 + r2 + r) == p + d1 + d2 by {
      assert forall x :: x in r1 + r2 + r <==> x in r1 || x in r2 || x in r;
    }
    DeleteThree(t, p, d1, d2, r, r1, r2);
  }

  lemma Parts(nps: map<nat, Np>, lsps: map<string, Pod>, ic: map<string, nat>, ec: map<string, nat>)
    ensures forall x | x in PolicyRows(nps) :: !x.ids.PortDenyIds?
    ensures forall x | x in PortDenies(Ingress, lsps, ic) :: Part(x, Ingress)
    ensures forall x | x in PortDenies(Egress, lsps, ec) :: Part(x, Egress)
  {
    forall x | x in PolicyRows(nps) ensures !x.ids.PortDenyIds? {
      PolicyRowIds(nps, x);
    }
  }

  lemma DeniesAfterPodDel(dir: Direction, lsps: map<string, Pod>, counts: map<string, nat>, port: string, on: bool,
                          pod: Pod)
    requires CountsKnown(lsps, counts) && (port in lsps ==> lsps[port] == pod)
    ensures PortDenies(dir, lsps, Dec(counts, port, on))
         == PortDenies(dir, lsps, counts) - Rows(DenyIf(on && Get(counts, port) == 1, dir, pod, port))
    ensures forall x | x in DenyIf(on && Get(counts, port) == 1, dir, pod, port) :: x in PortDenies(dir, lsps, counts)
  {
    var last, counts' := DenyIf(on && Get(counts, port) == 1, dir, pod, port), Dec(counts, port, on);
    forall row ensures row in last <==> exists p :: IsPortDeny(dir, lsps, counts, p, row) && Get(counts', p) == 0 {
      if row in last {
        assert IsPortDeny(dir, lsps, counts, port, row);
      }
    }
    DeniesAfterDec(dir, lsps, counts, counts', Rows(last));
  }

  lemma PodRowsExist(nps: map<nat, Np>, id: nat, port: string)
    requires id in nps && !nps[id].deleted && port in nps[id].localPods && RulesInRange(nps[id])
    ensures forall x | x in PodRows(nps[id], nps[id].localPods[port], port) :: x in PolicyRows(nps)
  {
    forall x | x in PodRows(nps[id], nps[id].localPods[port], port) ensures x in PolicyRows(nps) {
      PodRowsElements(nps[id], nps[id].localPods[port], port, x);
      var rid, k :| IsPodRow(nps[id], nps[id].localPods[port], port, rid, k, x);
      assert IsPortRow(nps, id, rid, k, port, x);
    }
  }

  /** What a deselected pod takes with it, by kind of row. */
  lemma MemRowsAfterPodDel(h: string -> string, m: Mem, id: nat, port: string, r: seq<Row>, r1: seq<Row>, r2: seq<Row>)
    requires PortFacts(m) && Live(m, id) && port in m.nps[id].localPods
    requires var np, node := m.nps[id], m.nps[id].localPods[port];
             var pod := Pod(np.spec.ns, node);
             && r == PodRows(np, node, port)
             && r1 == DenyIf(np.spec.Denies(Ingress) && Count(m, Ingress, port) == 1, Ingress, pod, port)
             && r2 == DenyIf(np.spec.Denies(Egress) && Count(m, Egress, port) == 1, Egress, pod, port)
    ensures var p, d1, d2 := PolicyRows(m.nps), PortDenies(Ingress, m.lsps, m.inCount),
                             PortDenies(Egress, m.lsps, m.egCount);
            && MemRows(MemStep(h, m, LocalPodDel(id, port))) == (p - Rows(r)) + (d1 - Rows(r1)) + (d2 - Rows(r2))
            && (forall x | x in r :: x in p) && (forall x | x in r1 :: x in d1) && (forall x | x in r2 :: x in d2)
  {
    var m', np := MemStep(h, m, LocalPodDel(id, port)), m.nps[id];
    var pod := Pod(np.spec.ns, np.localPods[port]);
    RowsAfterPodDel(m.nps, m'.nps, id, port);
    PodRowsExist(m.nps, id, port);
    DeniesAfterPodDel(Ingress, m.lsps, m.inCount, port, np.spec.Denies(Ingress), pod);
    DeniesAfterPodDel(Egress, m.lsps, m.egCount, port, np.spec.Denies(Egress), pod);
  }

  lemma PortPodDel(h: string -> string, txt: Printer, m: Mem, t: Table, pe: PortEvent, id: nat, port: string)
    requires pe.ev == LocalPodDel(id, port) && Live(m, id) && port in m.nps[id].localPods
             && m.nps[id].localPods[port] == pe.pod.node
    requires PortFacts(m) && TableOk(t, MemRows(m))
    ensures TableOk(PortStep(h, txt, m, t, pe), MemRows(MemStep(h, m, pe.ev)))
  {
    var np := m.nps[id];
    var pod := Pod(np.spec.ns, pe.pod.node);
    var r := PodRows(np, pod.node, port);
    var r1 := DenyIf(np.spec.Denies(Ingress) && Count(m, Ingress, port) == 1, Ingress, pod, port);
    var r2 := DenyIf(np.spec.Denies(Egress) && Count(m, Egress, port) == 1, Egress, pod, port);
    MemRowsAfterPodDel(h, m, id, port, r, r1, r2);
    Parts(m.nps, m.lsps, m.inCount, m.egCount);
    PortExpectedIds(m.nps, m.lsps, m.inCount, m.egCount);
    DeleteKnown(t, PolicyRows(m.nps), PortDenies(Ingress, m.lsps, m.inCount), PortDenies(Egress, m.lsps, m.egCount), r,
                r1, r2);
    LocalPodDelRows(h, txt, m, t, pe, id, port);
  }

  /** The default-deny rows of a direction that a deleted policy's local pods lose. */
  ghost function LastOf(m: Mem, np: Np, dir: Direction): iset<Row> { iset row | IsLast(m, np, dir, row) }

  ghost predicate IsLast(m: Mem, np: Np, dir: Direction, row: Row) {
    exists p | p in np.localPods :: IsLastDeny(m, np, dir, p, row)
  }

  predicate IsLastDeny(m: Mem, np: Np, dir: Direction, port: string, row: Row) {
    port in m.lsps && np.spec.Denies(dir) && Count(m, dir, port) == 1
    && row == PortDenyRow(dir, Pod(np.spec.ns, m.lsps[port].node), port)
  }

  lemma SwitchDeniesAre(m: Mem, np: Np, port: string, row: Row)
    ensures row in SwitchDenies(m, np, port)
        <==> IsLastDeny(m, np, Ingress, port, row) || IsLastDeny(m, np, Egress, port, row)
  {
  }

  ghost predicate OwnPods(m: Mem, np: Np) { forall p | p in np.localPods && p in m.lsps :: m.lsps[p].ns == np.spec.ns }

  lemma DeniesAfterPolicyDelete(m: Mem, np: Np, dir: Direction, counts: map<string, nat>)
    requires counts == (if dir == Ingress then m.inCount else m.egCount) && CountsKnown(m.lsps, counts)
             && OwnPods(m, np)
    ensures PortDenies(dir, m.lsps, DecAll(counts, np.localPods.Keys, np.spec.Denies(dir)))
         == PortDenies(dir, m.lsps, counts) - LastOf(m, np, dir)
    ensures forall x | x in LastOf(m, np, dir) :: x in PortDenies(dir, m.lsps, counts)
  {
    var last, counts' := LastOf(m, np, dir), DecAll(counts, np.localPods.Keys, np.spec.Denies(dir));
    forall row ensures row in last <==> exists p :: IsPortDeny(dir, m.lsps, counts, p, row) && Get(counts', p) == 0 {
      if p :| p in np.localPods && IsLastDeny(m, np, dir, p, row) {
        assert m.lsps[p] == Pod(np.spec.ns, m.lsps[p].node);
        assert IsPortDeny(dir, m.lsps, counts, p, row) && Get(counts', p) == 0;
      }
      if p :| IsPortDeny(dir, m.lsps, counts, p, row) && Get(counts', p) == 0 {
        assert p in np.localPods && m.lsps[p] == Pod(np.spec.ns, m.lsps[p].node);
        assert IsLastDeny(m, np, dir, p, row);
      }
    }
    DeniesAfterDec(dir, m.lsps, counts, counts', last);
  }

  lemma RemoveKeyOk(t: Table, p: iset<Row>, p': iset<Row>, d: iset<Row>, key: (string, string))
    requires TableOk(t, p + d) && (forall x | x in d :: x.ids.PortDenyIds?)
    requires forall x :: x in p' <==> x in p && !OfKey(x.ids, key)
    ensures TableOk(RemoveKey(t, key), p' + d)
  {
    var t' := RemoveKey(t, key);
    forall r | r in p' + d ensures exists i | i in t'.rows :: t'.rows[i] == r {
      assert r in p + d;
      var i :| i in t.rows && t.rows[i] == r;
      assert t'.rows[i] == r;
    }
  }

  /** Removing default-deny rows that are all there. */
  lemma DeleteKnownDenies(t: Table, p: iset<Row>, d1: iset<Row>, d2: iset<Row>, r: seq<Row>, r1: iset<Row>,
                          r2: iset<Row>)
    requires TableOk(t, p + d1 + d2) && SameIdsSameRow(p + d1 + d2)
    requires forall x | x in p :: !x.ids.PortDenyIds?
    requires forall x | x in d1 :: Part(x, Ingress)
    requires forall x | x in d2 :: Part(x, Egress)
    requires (forall x | x in r1 :: x in d1) && (forall x | x in r2 :: x in d2)
             && forall x :: x in r <==> x in r1 || x in r2
    ensures TableOk(DeleteRows(t, r), p + ((d1 - r1) + (d2 - r2)))
  {
    var e := p + d1 + d2;
    assert e + Rows(r) == e;
    assert e - Rows(r) == p + ((d1 - r1) + (d2 - r2));
    DeleteRowsOk(t, e, r);
  }

  lemma LastDeniesAre(m: Mem, np: Np, ports: seq<string>, x: Row)
    requires forall p :: p in ports <==> p in np.localPods
    ensures x in LastDenies(m, np, ports) <==> IsLast(m, np, Ingress, x) || IsLast(m, np, Egress, x)
  {
    LastDeniesElements(m, np, ports, x);
    forall p
      ensures x in SwitchDenies(m, np, p) <==> IsLastDeny(m, np, Ingress, p, x) || IsLastDeny(m, np, Egress, p, x)
    {
      SwitchDeniesAre(m, np, p, x);
    }
  }

  lemma TakeLastDenies(m: Mem, t: Table, np: Np, ports: seq<string>)
    requires PortFacts(m) && TableOk(t, MemRows(m)) && OwnPods(m, np) && forall p :: p in ports <==> p in np.localPods
    ensures TableOk(DeleteRows(t, LastDenies(m, np, ports)),
                    PolicyRows(m.nps)
                    + (PortDenies(Ingress, m.lsps, DecAll(m.inCount, np.localPods.Keys, np.spec.Denies(Ingress)))
                                         + PortDenies(Egress, m.lsps,
                                                      DecAll(m.egCount, np.localPods.Keys, np.spec.Denies(Egress)))))
  {
    DeniesAfterPolicyDelete(m, np, Ingress, m.inCount);
    DeniesAfterPolicyDelete(m, np, Egress, m.egCount);
    Parts(m.nps, m.lsps, m.inCount, m.egCount);
    PortExpectedIds(m.nps, m.lsps, m.inCount, m.egCount);
    forall x ensures x in LastDenies(m, np, ports) <==> x in LastOf(m, np, Ingress) || x in LastOf(m, np, Egress) {
      LastDeniesAre(m, np, ports, x);
    }
    DeleteKnownDenies(t, PolicyRows(m.nps), PortDenies(Ingress, m.lsps, m.inCount),
                      PortDenies(Egress, m.lsps, m.egCount),
                      LastDenies(m, np, ports), LastOf(m, np, Ingress), LastOf(m, np, Egress));
  }

  lemma PolicyDeleteRows(h: string -> string, txt: Printer, m: Mem, t: Table, pe: PortEvent, ns: string, name: string,
                         id: nat)
    requires pe.ev == PolicyDelete(ns, name) && (ns, name) in m.byKey && m.byKey[(ns, name)] == id && Live(m, id)
    ensures var np, ports := m.nps[id], pe.order;
            PortStep(h, txt, m, t, pe)
            == RemoveKey(DeleteRows(t, LastDenies(m, np, ports)), np.spec.Key())
    ensures var np := m.nps[id];
            MemRows(MemStep(h, m, PolicyDelete(ns, name)))
            == PolicyRows(m.nps[id := np.(deleted := true)])
               + (PortDenies(Ingress, m.lsps, DecAll(m.inCount, np.localPods.Keys, np.spec.Denies(Ingress)))
                  + PortDenies(Egress, m.lsps, DecAll(m.egCount, np.localPods.Keys, np.spec.Denies(Egress))))
  {
  }

  lemma PortPolicyDelete(h: string -> string, txt: Printer, m: Mem, t: Table, pe: PortEvent, ns: string, name: string,
                         id: nat)
    requires pe.ev == PolicyDelete(ns, name) && (ns, name) in m.byKey && m.byKey[(ns, name)] == id && Live(m, id)
    requires OrderOk(m, pe) && PortFacts(m) && TableOk(t, MemRows(m))
    ensures TableOk(PortStep(h, txt, m, t, pe), MemRows(MemStep(h, m, pe.ev)))
  {
    PolicyDeleteRows(h, txt, m, t, pe, ns, name, id);
    PortRemovePolicy(m, t, id, pe.order);
  }

  lemma PortRemovePolicy(m: Mem, t: Table, id: nat, ports: seq<string>)
    requires PortFacts(m) && TableOk(t, MemRows(m)) && Live(m, id)
             && forall p :: p in ports <==> p in m.nps[id].localPods
    ensures var np := m.nps[id];
            TableOk(RemoveKey(DeleteRows(t, LastDenies(m, np, ports)), np.spec.Key()),
                    PolicyRows(m.nps[id := np.(deleted := true)])
                    + (PortDenies(Ingress, m.lsps, DecAll(m.inCount, np.localPods.Keys, np.spec.Denies(Ingress)))
                       + PortDenies(Egress, m.lsps, DecAll(m.egCount, np.localPods.Keys, np.spec.Denies(Egress)))))
  {
    var np := m.nps[id];
    var nps' := m.nps[id := np.(deleted := true)];
    var ic, ec := DecAll(m.inCount, np.localPods.Keys, np.spec.Denies(Ingress)),
                  DecAll(m.egCount, np.localPods.Keys, np.spec.Denies(Egress));
    TakeLastDenies(m, t, np, ports);
    forall x ensures x in PolicyRows(nps') <==> x in PolicyRows(m.nps) && !OfKey(x.ids, np.spec.Key()) {
      RowsAfterPolicyDelete(m.nps, nps', id, x);
    }
    Parts(m.nps, m.lsps, ic, ec);
    RemoveKeyOk(DeleteRows(t, LastDenies(m, np, ports)), PolicyRows(m.nps), PolicyRows(nps'),
                PortDenies(Ingress, m.lsps, ic) + PortDenies(Egress, m.lsps, ec), np.spec.Key());
  }

  // ------------------------------------------------------- a pod goes away or comes up

  lemma DeniesAfterPodDown(dir: Direction, lsps: map<string, Pod>, counts: map<string, nat>, port: string)
    requires port in lsps
    ensures PortDenies(dir, lsps - {port}, counts - {port})
         == PortDenies(dir, lsps, counts) - Rows([PortDenyRow(dir, lsps[port], port)])
  {
    var lsps', counts' := lsps - {port}, counts - {port};
    forall row
      ensures IsDeny(dir, lsps', counts', row)
          <==> IsDeny(dir, lsps, counts, row) && row != PortDenyRow(dir, lsps[port], port)
    {
      if p :| IsPortDeny(dir, lsps', counts', p, row) {
        assert IsPortDeny(dir, lsps, counts, p, row);
      }
      if p :| IsPortDeny(dir, lsps, counts, p, row) {
        assert p != port ==> IsPortDeny(dir, lsps', counts', p, row);
      }
    }
  }

  /** Looking for a port's default-deny row never finds another row, whether it is there or not. */
  lemma MoreRowsSameIds(e: iset<Row>, more: iset<Row>)
    requires SameIdsSameRow(more) && forall x | x in e :: x in more
    ensures SameIdsSameRow(e)
  {
  }

  lemma DenyIdsFresh(nps: map<nat, Np>, lsps: map<string, Pod>, ic: map<string, nat>, ec: map<string, nat>,
                     port: string)
    requires MemOk(nps) && port in lsps
    ensures SameIdsSameRow(PortExpected(nps, lsps, ic, ec)
                           + Rows([PortDenyRow(Ingress, lsps[port], port)] + [PortDenyRow(Egress, lsps[port], port)]))
  {
    var ic', ec' := Inc(ic, port, true), Inc(ec, port, true);
    DeniesAfterInc(Ingress, lsps, ic, port, true);
    DeniesAfterInc(Egress, lsps, ec, port, true);
    PortExpectedIds(nps, lsps, ic', ec');
    assert IsPortDeny(Ingress, lsps, ic', port, PortDenyRow(Ingress, lsps[port], port));
    assert IsPortDeny(Egress, lsps, ec', port, PortDenyRow(Egress, lsps[port], port));
    MoreRowsSameIds(PortExpected(nps, lsps, ic, ec)
                    + Rows([PortDenyRow(Ingress, lsps[port], port)] + [PortDenyRow(Egress, lsps[port], port)]),
                    PortExpected(nps, lsps, ic', ec'));
  }

  lemma TakePodDenies(t: Table, nps: map<nat, Np>, lsps: map<string, Pod>, ic: map<string, nat>, ec: map<string, nat>,
                      port: string)
    requires MemOk(nps) && port in lsps && TableOk(t, PortExpected(nps, lsps, ic, ec))
    ensures TableOk(DeleteRows(t, [PortDenyRow(Ingress, lsps[port], port)] + [PortDenyRow(Egress, lsps[port], port)]),
                    PortExpected(nps, lsps - {port}, ic - {port}, ec - {port}))
  {
    var r1, r2 := [PortDenyRow(Ingress, lsps[port], port)], [PortDenyRow(Egress, lsps[port], port)];
    DeniesAfterPodDown(Ingress, lsps, ic, port);
    DeniesAfterPodDown(Egress, lsps, ec, port);
    Parts(nps, lsps, ic, ec);
    DenyIdsFresh(nps, lsps, ic, ec, port);
    assert r1 + r2 + [] == r1 + r2;
    DeleteThree(t, PolicyRows(nps), PortDenies(Ingress, lsps, ic), PortDenies(Egress, lsps, ec), [], r1, r2);
    assert PolicyRows(nps) - Rows([]) == PolicyRows(nps);
  }

  lemma PodDownRows(h: string -> string, txt: Printer, m: Mem, t: Table, pe: PortEvent, port: string)
    requires pe.ev == PodDown(port)
    ensures PortStep(h, txt, m, t, pe)
         == DeleteRows(t, [PortDenyRow(Ingress, pe.pod, port), PortDenyRow(Egress, pe.pod, port)])
  {
  }

  lemma PodDownStep(h: string -> string, txt: Printer, m: Mem, t: Table, pe: PortEvent, port: string)
    requires pe.ev == PodDown(port) && port in m.lsps && m.lsps[port] == pe.pod
    ensures PortStep(h, txt, m, t, pe)
         == DeleteRows(t, [PortDenyRow(Ingress, m.lsps[port], port)] + [PortDenyRow(Egress, m.lsps[port], port)])
    ensures MemRows(MemStep(h, m, PodDown(port)))
         == PortExpected(m.nps, m.lsps - {port}, m.inCount - {port}, m.egCount - {port})
  {
    PodDownRows(h, txt, m, t, pe, port);
    assert [PortDenyRow(Ingress, m.lsps[port], port)] + [PortDenyRow(Egress, m.lsps[port], port)]
        == [PortDenyRow(Ingress, m.lsps[port], port), PortDenyRow(Egress, m.lsps[port], port)];
  }

  lemma PortPodDown(h: string -> string, txt: Printer, m: Mem, t: Table, pe: PortEvent, port: string)
    requires pe.ev == PodDown(port) && port in m.lsps && m.lsps[port] == pe.pod && PortFacts(m)
             && TableOk(t, MemRows(m))
    ensures TableOk(PortStep(h, txt, m, t, pe), MemRows(MemStep(h, m, pe.ev)))
  {
    PodDownStep(h, txt, m, t, pe, port);
    TakePodDenies(t, m.nps, m.lsps, m.inCount, m.egCount, port);
  }

  lemma DeniesAfterPodUp(dir: Direction, lsps: map<string, Pod>, counts: map<string, nat>, port: string, pod: Pod)
    requires CountsKnown(lsps, counts) && port !in lsps
    ensures PortDenies(dir, lsps[port := pod], counts) == PortDenies(dir, lsps, counts)
  {
    var lsps' := lsps[port := pod];
    forall row ensures IsDeny(dir, lsps', counts, row) <==> IsDeny(dir, lsps, counts, row) {
      if p :| IsPortDeny(dir, lsps', counts, p, row) {
        assert IsPortDeny(dir, lsps, counts, p, row);
      }
      if p :| IsPortDeny(dir, lsps, counts, p, row) {
        assert IsPortDeny(dir, lsps', counts, p, row);
      }
    }
  }

  // ------------------------------------------------------- the other steps

  lemma SamePolicyRows(nps: map<nat, Np>, id: nat, np: Np)
    requires if id in nps && !nps[id].deleted then
               !np.deleted && np.spec == nps[id].spec && np.localPods == nps[id].localPods
               && (np.rules == nps[id].rules || np.localPods == map[])
             else np.localPods == map[]
    ensures PolicyRows(nps[id := np]) == PolicyRows(nps)
  {
    var nps' := nps[id := np];
    forall row ensures IsPolicyRow(nps', row) <==> IsPolicyRow(nps, row) {
      if i: nat, a, k, p :| IsPortRow(nps', i, a, k, p, row) {
        assert IsPortRow(nps, i, a, k, p, row);
      }
      if i: nat, a, k, p :| IsPortRow(nps, i, a, k, p, row) {
        assert IsPortRow(nps', i, a, k, p, row);
      }
    }
  }

  predicate KeepsPortRows(ev: Event) {
    ev.PolicyAdd? || ev.RuleAdd? || ev.PeerPodAdd? || ev.PeerPodDel? || ev.NamespaceAdd? || ev.NamespaceDel?
    || ev.NamespacePodAdd? || ev.NamespacePodDel?
  }

  lemma PortRest(h: string -> string, m: Mem, ev: Event)
    requires KeepsPortRows(ev) && (ev.RuleAdd? && Live(m, ev.id) ==> m.nps[ev.id].localPods == map[])
    ensures MemRows(MemStep(h, m, ev)) == MemRows(m)
  {
    var m' := MemStep(h, m, ev);
    if ev.PeerPodAdd? || ev.PeerPodDel? {
      if LiveRule(m, ev.id, ev.rid) {
        assert m.nps[ev.id].rules[ev.rid := m.nps[ev.id].rules[ev.rid]] == m.nps[ev.id].rules;
        SamePolicyRows(m.nps, ev.id, m'.nps[ev.id]);
      }
    } else if (ev.PolicyAdd? || ev.RuleAdd?) && m' != m {
      SamePolicyRows(m.nps, ev.id, m'.nps[ev.id]);
    }
  }

  lemma PortPeers(txt: Printer, ports: seq<string>, m: Mem, t: Table, id: nat, rid: RuleId, peers: seq<string>)
    requires GoodPrinter(txt) && MemOk(m.nps) && TableOk(t, MemRows(m)) && LiveRule(m, id, rid)
             && Visits(ports, m.nps[id].localPods.Keys)
    requires m.nps[id].rules[rid].peers != [] && peers != [] && PlainRule(m.nps[id].rules[rid].(peers := peers))
    ensures TableOk(ModifyPortPeers(txt, ports, t, m.nps[id], rid, peers),
                    MemRows(PutMemRule(m, id, rid, m.nps[id].rules[rid].(peers := peers), m.nps[id].addressMaps[rid])))
  {
    var d := PortDenies(Ingress, m.lsps, m.inCount) + PortDenies(Egress, m.lsps, m.egCount);
    Parts(m.nps, m.lsps, m.inCount, m.egCount);
    assert MemRows(m) == PolicyRows(m.nps) + d;
    ModifyPortPeersOk(txt, ports, t, m.nps, d, id, rid, peers);
    assert m.nps[id].addressMaps[rid := m.nps[id].addressMaps[rid]] == m.nps[id].addressMaps;
    var m' := PutMemRule(m, id, rid, m.nps[id].rules[rid].(peers := peers), m.nps[id].addressMaps[rid]);
    assert MemRows(m') == PolicyRows(m'.nps) + d;
  }

  lemma PortPeerNs(h: string -> string, txt: Printer, w: World, m: Mem, t: Table, pe: PortEvent)
    requires GoodHash(h) && GoodPrinter(txt) && OrderOk(m, pe) && WorldOk(w) && Sim(h, w, m) && Legal(w, pe.ev)
             && TableOk(t, MemRows(m))
    requires pe.ev.PeerNsAdd? || pe.ev.PeerNsDel?
    ensures TableOk(PortStep(h, txt, m, t, pe), MemRows(MemStep(h, m, pe.ev)))
  {
    var id, rid := pe.ev.id, pe.ev.rid;
    if LiveRule(m, id, rid) {
      PeersStay(h, w, m, id, rid);
      var peers := MemStep(h, m, pe.ev).nps[id].rules[rid].peers;
      assert peers != [] && PlainRule(m.nps[id].rules[rid].(peers := peers)) by { NextPeers(h, w, m, pe.ev); }
      MemOkOf(h, w, m);
      PortPeers(txt, pe.order, m, t, id, rid, peers);
    }
  }

  // ------------------------------------------------------- pods as the handlers see them

  /** The pod object of an event names the switch its rows belong on: a pod that is newly selected
      has its logical port there, one that is deselected was selected there unless it has no rows
      to lose, and one that goes away was there unless no default deny holds it. */
  predicate Meets(m: Mem, pe: PortEvent) {
    match pe.ev
    case LocalPodAdd(id, port) => Takes(m, id, port) ==> port in m.lsps && m.lsps[port].node == pe.pod.node
    case LocalPodDel(id, port) =>
      Live(m, id) && port in m.nps[id].localPods ==>
        m.nps[id].localPods[port] == pe.pod.node || DeletedRows(m, m.nps[id], port, pe.pod.node) == []
    case PodDown(port) =>
      port in m.lsps ==> m.lsps[port] == pe.pod || (Count(m, Ingress, port) == 0 && Count(m, Egress, port) == 0)
    case _ => true
  }

  /** A pod is newly selected by a policy that has no rows for it: no rule with a port clause or an
      except block, and every default deny held by another policy already. */
  predicate AddsNothing(m: Mem, pe: PortEvent) {
    && pe.ev.LocalPodAdd? && Takes(m, pe.ev.id, pe.ev.port)
    && AddedRows(m, m.nps[pe.ev.id], pe.ev.port, pe.pod.node) == []
  }

  /** The memories of the two back-ends take the same step exactly when a pod that is newly selected
      has its port on the switch the pod object names. */
  lemma MemoryStepsAgree(h: string -> string, m: Mem, pe: PortEvent)
    ensures PortMemStep(h, m, pe) == MemStep(h, m, pe.ev) <==> (pe.ev.LocalPodAdd? ==> Meets(m, pe))
  {
    if pe.ev.LocalPodAdd? && Takes(m, pe.ev.id, pe.ev.port) {
      TakenMemory(h, m, pe);
    }
  }

  lemma TakenMemory(h: string -> string, m: Mem, pe: PortEvent)
    requires pe.ev.LocalPodAdd? && Takes(m, pe.ev.id, pe.ev.port)
    ensures var id, port := pe.ev.id, pe.ev.port;
            && port in PortMemStep(h, m, pe).nps[id].localPods
            && PortMemStep(h, m, pe).nps[id].localPods[port] == pe.pod.node
            && (port !in m.lsps ==> MemStep(h, m, pe.ev) == m)
            && (port in m.lsps
              ==> MemStep(h, m, pe.ev).nps[id].localPods == m.nps[id].localPods[port := m.lsps[port].node])
            && (Meets(m, pe) ==> PortMemStep(h, m, pe) == MemStep(h, m, pe.ev))
  {
  }

  /** The ids are those of a row at this place: one of the policy's, or a default deny. */
  predicate IdsAt(ids: Ids, key: (string, string), at: At) {
    match ids
    case AllowIds(_, _, k, _, a) => k == key && a == at
    case PortExceptIds(_, k, a, _) => k == key && a == at
    case PortDenyIds(_, _, a) => a == at
    case _ => false
  }

  lemma PodRowsAt(np: Np, node: string, port: string, row: Row)
    requires RulesInRange(np) && row in PodRows(np, node, port)
    ensures IdsAt(row.ids, np.spec.Key(), OnPort(node, port))
  {
    PodRowsElements(np, node, port, row);
  }

  lemma AddedRowsAt(m: Mem, np: Np, port: string, node: string, row: Row)
    requires RulesInRange(np) && (row in AddedRows(m, np, port, node) || row in DeletedRows(m, np, port, node))
    ensures IdsAt(row.ids, np.spec.Key(), OnPort(node, port))
  {
    if row in PodRows(np, node, port) {
      PodRowsAt(np, node, port, row);
    }
  }

  /** No row is called for on a switch that neither the port nor the policy's pod is on. */
  lemma NoneAt(m: Mem, id: nat, port: string, node: string, x: Row)
    requires MemOk(m.nps) && Live(m, id) && x in MemRows(m)
    requires port in m.lsps ==> m.lsps[port].node != node
    requires port in m.nps[id].localPods ==> m.nps[id].localPods[port] != node
    ensures !IdsAt(x.ids, m.nps[id].spec.Key(), OnPort(node, port))
  {
    if i: nat, a, k, p :| IsPortRow(m.nps, i, a, k, p, x) {
      assert m.nps[i].spec.Key() == m.nps[id].spec.Key() ==> i == id;
    }
  }

  ghost predicate Stored(t: Table, row: Row) { exists i | i in t.rows :: t.rows[i] == row }

  lemma {:induction false} AddedStays(t: Table, row: Row, rows: seq<Row>)
    requires Stored(t, row) && forall i | i in t.rows :: i < t.next
    ensures Stored(AddRows(t, rows), row)
    decreases |rows|
  {
    if rows != [] {
      var i :| i in t.rows && t.rows[i] == row;
      var t' := AddRow(t, rows[0]);
      assert i in t'.rows && t'.rows[i] == row;
      AddedStays(t', row, rows[1..]);
    }
  }

  /** A row whose ids the table does not have yet is added. */
  lemma FirstAdded(t: Table, row: Row, rows: seq<Row>)
    requires forall i | i in t.rows :: i < t.next && t.rows[i].ids != row.ids
    ensures Stored(AddRows(t, [row] + rows), row)
  {
    assert ([row] + rows)[0] == row && ([row] + rows)[1..] == rows;
    var t' := AddRow(t, row);
    assert Find(t, row) == {};
    assert t.next in t'.rows && t'.rows[t.next] == row;
    AddedStays(t', row, rows);
  }

  /** Rows whose ids the table does not have are not deleted. */
  lemma {:induction false} DeleteAbsent(t: Table, rows: seq<Row>)
    requires forall i, r | i in t.rows && r in rows :: t.rows[i].ids != r.ids
    ensures DeleteRows(t, rows) == t
    decreases |rows|
  {
    if rows != [] {
      assert rows[0] in rows;
      assert Find(t, rows[0]) == {};
      DeleteAbsent(t, rows[1..]);
    }
  }

  /** A table holds exactly one set of rows. */
  lemma OneContent(t: Table, e: iset<Row>, e': iset<Row>)
    requires TableOk(t, e)
    ensures TableOk(t, e') <==> e == e'
  {
    if TableOk(t, e') {
      forall r ensures r in e <==> r in e' {
      }
    }
  }

  lemma NewOnSwitch(t: Table, m: Mem, id: nat, port: string, node: string, row: Row)
    requires PortFacts(m) && TableOk(t, MemRows(m)) && Takes(m, id, port)
             && (port in m.lsps ==> m.lsps[port].node != node)
    requires row in AddedRows(m, m.nps[id], port, node)
    ensures forall i | i in t.rows :: t.rows[i].ids != row.ids
  {
    AddedRowsAt(m, m.nps[id], port, node, row);
    forall i | i in t.rows ensures t.rows[i].ids != row.ids {
      NoneAt(m, id, port, node, t.rows[i]);
    }
  }

  lemma StrayRow(m: Mem, m': Mem, id: nat, port: string, node: string, row: Row)
    requires Live(m, id) && RulesInRange(m.nps[id]) && row in AddedRows(m, m.nps[id], port, node)
    requires MemOk(m'.nps) && Live(m', id) && m'.nps[id].spec == m.nps[id].spec
    requires port in m'.lsps ==> m'.lsps[port].node != node
    requires port in m'.nps[id].localPods ==> m'.nps[id].localPods[port] != node
    ensures row !in MemRows(m')
  {
    AddedRowsAt(m, m.nps[id], port, node, row);
    if row in MemRows(m') {
      NoneAt(m', id, port, node, row);
    }
  }

  lemma StrayStored(t: Table, m: Mem, id: nat, port: string, node: string, rows: seq<Row>)
    requires PortFacts(m) && TableOk(t, MemRows(m)) && Takes(m, id, port)
             && (port in m.lsps ==> m.lsps[port].node != node)
    requires rows != [] && rows[0] in AddedRows(m, m.nps[id], port, node)
    ensures Stored(AddRows(t, rows), rows[0])
  {
    NewOnSwitch(t, m, id, port, node, rows[0]);
    assert rows == [rows[0]] + rows[1..];
    FirstAdded(t, rows[0], rows[1..]);
  }

  /** Rows for a switch the pod is not on are rows the memory does not call for. */
  lemma StrayRows(t: Table, m: Mem, m': Mem, id: nat, port: string, node: string)
    requires PortFacts(m) && TableOk(t, MemRows(m)) && Takes(m, id, port)
             && (port in m.lsps ==> m.lsps[port].node != node)
    requires MemOk(m'.nps) && Live(m', id) && m'.nps[id].spec == m.nps[id].spec && m'.lsps == m.lsps
    requires port in m'.nps[id].localPods ==> m'.nps[id].localPods[port] != node
    requires AddedRows(m, m.nps[id], port, node) != []
    ensures !TableOk(AddRows(t, AddedRows(m, m.nps[id], port, node)), MemRows(m'))
  {
    var rows := AddedRows(m, m.nps[id], port, node);
    StrayStored(t, m, id, port, node, rows);
    StrayRow(m, m', id, port, node, rows[0]);
  }

  /** A policy denies in at least one direction. */
  lemma DeniesSomewhere(spec: PolicySpec)
    ensures spec.Denies(Ingress) || spec.Denies(Egress)
  {
  }

  /** A port that does not exist is held by no policy, so its first holder has rows to add. */
  lemma FirstHolderAdds(m: Mem, id: nat, port: string, node: string)
    requires PortFacts(m) && Takes(m, id, port) && port !in m.lsps
    ensures AddedRows(m, m.nps[id], port, node) != []
  {
    DeniesSomewhere(m.nps[id].spec);
    assert Get(m.inCount, port) == 0 && Get(m.egCount, port) == 0;
  }

  lemma PortLocalPod(h: string -> string, txt: Printer, w: World, m: Mem, t: Table, pe: PortEvent, id: nat,
                     port: string)
    requires pe.ev == LocalPodAdd(id, port) && Meets(m, pe) && Legal(w, pe.ev)
    requires GoodHash(h) && WorldOk(w) && Sim(h, w, m) && PortFacts(m) && TableOk(t, MemRows(m))
    ensures TableOk(PortStep(h, txt, m, t, pe), MemRows(MemStep(h, m, pe.ev)))
  {
    PodParts(h, w, m, id);
    if PodIsNew(m, id, port) {
      NextMemOk(h, w, m, pe.ev);
      PortPodAdd(h, txt, m, t, pe, id, port);
    } else {
      assert !Takes(m, id, port);
    }
  }

  /** The handler selects a pod on a switch its port is not on, or that has no port. */
  lemma PortWrongPod(h: string -> string, txt: Printer, w: World, m: Mem, t: Table, pe: PortEvent, id: nat,
                     port: string)
    requires pe.ev == LocalPodAdd(id, port) && !Meets(m, pe) && Legal(w, pe.ev)
    requires GoodHash(h) && WorldOk(w) && Sim(h, w, m) && PortFacts(m) && TableOk(t, MemRows(m))
    ensures TableOk(PortStep(h, txt, m, t, pe), MemRows(MemStep(h, m, pe.ev))) <==> AddsNothing(m, pe)
  {
    var m' := MemStep(h, m, pe.ev);
    NextMemOk(h, w, m, pe.ev);
    TakenMemory(h, m, pe);
    TakenElse(h, m, pe);
    if port !in m.lsps {
      FirstHolderAdds(m, id, port, pe.pod.node);
    }
    if AddsNothing(m, pe) {
      var right := PortEvent(pe.ev, m.lsps[port], []);
      PortLocalPod(h, txt, w, m, t, right, id, port);
      RowsAnywhere(m, m.nps[id], port, pe.pod.node, right.pod.node);
      LocalPodAddRows(h, txt, m, t, pe, id, port);
      LocalPodAddRows(h, txt, m, t, right, id, port);
    } else {
      StrayRows(t, m, m', id, port, pe.pod.node);
    }
  }

  lemma TakenElse(h: string -> string, m: Mem, pe: PortEvent)
    requires pe.ev.LocalPodAdd?
    ensures var m' := MemStep(h, m, pe.ev);
            m'.lsps == m.lsps
            && (Live(m, pe.ev.id) ==> Live(m', pe.ev.id) && m'.nps[pe.ev.id].spec == m.nps[pe.ev.id].spec)
  {
  }

  /** Whether there are rows to add or delete does not depend on the switch. */
  lemma {:induction false} DirRowsAnywhere(np: Np, dir: Direction, n: nat, node: string, node': string, port: string)
    ensures |DirRows(np, dir, n, node, port)| == |DirRows(np, dir, n, node', port)|
  {
    if n > 0 {
      DirRowsAnywhere(np, dir, n - 1, node, node', port);
    }
  }

  lemma RowsAnywhere(m: Mem, np: Np, port: string, node: string, node': string)
    ensures AddedRows(m, np, port, node) == [] <==> AddedRows(m, np, port, node') == []
    ensures DeletedRows(m, np, port, node) == [] <==> DeletedRows(m, np, port, node') == []
  {
    DirRowsAnywhere(np, Ingress, |np.spec.ingress|, node, node', port);
    DirRowsAnywhere(np, Egress, |np.spec.egress|, node, node', port);
  }

  lemma LocalPodAddRows(h: string -> string, txt: Printer, m: Mem, t: Table, pe: PortEvent, id: nat, port: string)
    requires pe.ev == LocalPodAdd(id, port) && Takes(m, id, port)
    ensures PortStep(h, txt, m, t, pe) == AddRows(t, AddedRows(m, m.nps[id], port, pe.pod.node))
  {
  }

  lemma PortLocalPodExact(h: string -> string, txt: Printer, w: World, m: Mem, t: Table, pe: PortEvent, id: nat,
                          port: string)
    requires pe.ev == LocalPodAdd(id, port) && Legal(w, pe.ev)
    requires GoodHash(h) && WorldOk(w) && Sim(h, w, m) && PortFacts(m) && TableOk(t, MemRows(m))
    ensures TableOk(PortStep(h, txt, m, t, pe), MemRows(MemStep(h, m, pe.ev))) <==> Meets(m, pe) || AddsNothing(m, pe)
  {
    if Meets(m, pe) {
      PortLocalPod(h, txt, w, m, t, pe, id, port);
    } else {
      PortWrongPod(h, txt, w, m, t, pe, id, port);
    }
  }

  lemma LocalPodDelRows(h: string -> string, txt: Printer, m: Mem, t: Table, pe: PortEvent, id: nat, port: string)
    requires pe.ev == LocalPodDel(id, port) && Live(m, id) && port in m.nps[id].localPods
    ensures PortStep(h, txt, m, t, pe) == DeleteRows(t, DeletedRows(m, m.nps[id], port, pe.pod.node))
  {
  }

  /** A row that goes with the deselected pod is no longer called for. */
  lemma LostRow(h: string -> string, m: Mem, id: nat, port: string, row: Row)
    requires PortFacts(m) && Live(m, id) && port in m.nps[id].localPods
    requires row in DeletedRows(m, m.nps[id], port, m.nps[id].localPods[port])
    ensures row in MemRows(m) && row !in MemRows(MemStep(h, m, LocalPodDel(id, port)))
  {
    var np := m.nps[id];
    var pod := Pod(np.spec.ns, np.localPods[port]);
    var r := PodRows(np, pod.node, port);
    var r1 := DenyIf(np.spec.Denies(Ingress) && Count(m, Ingress, port) == 1, Ingress, pod, port);
    var r2 := DenyIf(np.spec.Denies(Egress) && Count(m, Egress, port) == 1, Egress, pod, port);
    MemRowsAfterPodDel(h, m, id, port, r, r1, r2);
    Parts(m.nps, m.lsps, m.inCount, m.egCount);
    LostOne(PolicyRows(m.nps), PortDenies(Ingress, m.lsps, m.inCount), PortDenies(Egress, m.lsps, m.egCount), r, r1, r2,
            row);
  }

  lemma LostOne(p: iset<Row>, d1: iset<Row>, d2: iset<Row>, r: seq<Row>, r1: seq<Row>, r2: seq<Row>, row: Row)
    requires forall x | x in p :: !x.ids.PortDenyIds?
    requires forall x | x in d1 :: Part(x, Ingress)
    requires forall x | x in d2 :: Part(x, Egress)
    requires (forall x | x in r :: x in p) && (forall x | x in r1 :: x in d1) && (forall x | x in r2 :: x in d2)
    requires row in r1 + r2 + r
    ensures row in p + d1 + d2 && row !in (p - Rows(r)) + (d1 - Rows(r1)) + (d2 - Rows(r2))
  {
    assert row in r1 || row in r2 || row in r;
  }

  lemma PortNotSelected(h: string -> string, txt: Printer, m: Mem, t: Table, pe: PortEvent, id: nat, port: string)
    requires pe.ev == LocalPodDel(id, port) && !(Live(m, id) && port in m.nps[id].localPods)
    ensures PortStep(h, txt, m, t, pe) == t && MemStep(h, m, pe.ev) == m && Meets(m, pe)
  {
  }

  lemma PortLocalPodGone(h: string -> string, txt: Printer, m: Mem, t: Table, pe: PortEvent, id: nat, port: string)
    requires pe.ev == LocalPodDel(id, port) && PortFacts(m) && TableOk(t, MemRows(m))
    ensures TableOk(PortStep(h, txt, m, t, pe), MemRows(MemStep(h, m, pe.ev))) <==> Meets(m, pe)
  {
    if Live(m, id) && port in m.nps[id].localPods {
      if m.nps[id].localPods[port] == pe.pod.node {
        PortPodDel(h, txt, m, t, pe, id, port);
      } else {
        PortWrongPodGone(h, txt, m, t, pe, id, port);
      }
    } else {
      PortNotSelected(h, txt, m, t, pe, id, port);
    }
  }

  /** Looking on the wrong switch finds no rows to delete. */
  lemma PortWrongPodGone(h: string -> string, txt: Printer, m: Mem, t: Table, pe: PortEvent, id: nat, port: string)
    requires pe.ev == LocalPodDel(id, port) && PortFacts(m) && TableOk(t, MemRows(m))
    requires Live(m, id) && port in m.nps[id].localPods && m.nps[id].localPods[port] != pe.pod.node
    ensures TableOk(PortStep(h, txt, m, t, pe), MemRows(MemStep(h, m, pe.ev)))
        <==> DeletedRows(m, m.nps[id], port, pe.pod.node) == []
  {
    var right := PortEvent(pe.ev, Pod("", m.nps[id].localPods[port]), []);
    LocalPodDelRows(h, txt, m, t, pe, id, port);
    LocalPodDelRows(h, txt, m, t, right, id, port);
    PortPodDel(h, txt, m, t, right, id, port);
    RowsAnywhere(m, m.nps[id], port, pe.pod.node, right.pod.node);
    NothingFound(m, t, id, port, pe.pod.node);
    var rows := DeletedRows(m, m.nps[id], port, right.pod.node);
    if rows != [] {
      LostRow(h, m, id, port, rows[0]);
      OneContent(t, MemRows(m), MemRows(MemStep(h, m, pe.ev)));
    }
  }

  lemma NothingFound(m: Mem, t: Table, id: nat, port: string, node: string)
    requires PortFacts(m) && TableOk(t, MemRows(m))
    requires Live(m, id) && port in m.nps[id].localPods && m.nps[id].localPods[port] != node
    ensures DeleteRows(t, DeletedRows(m, m.nps[id], port, node)) == t
  {
    forall i, r | i in t.rows && r in DeletedRows(m, m.nps[id], port, node) ensures t.rows[i].ids != r.ids {
      AddedRowsAt(m, m.nps[id], port, node, r);
      NoneAt(m, id, port, node, t.rows[i]);
    }
    DeleteAbsent(t, DeletedRows(m, m.nps[id], port, node));
  }

  /** One event: the table goes on holding exactly the rows the memory calls for, provided the pod
      object names the right switch or there are no rows to add, and only then. */
  lemma PortStepOk(h: string -> string, txt: Printer, w: World, m: Mem, t: Table, pe: PortEvent)
    requires GoodHash(h) && GoodPrinter(txt) && OrderOk(m, pe) && WorldOk(w) && Sim(h, w, m) && Legal(w, pe.ev)
    requires TableOk(t, MemRows(m))
    ensures TableOk(PortStep(h, txt, m, t, pe), MemRows(MemStep(h, m, pe.ev))) <==> Meets(m, pe) || AddsNothing(m, pe)
  {
    PortFactsOf(h, w, m);
    if pe.ev.PeerNsAdd? || pe.ev.PeerNsDel? {
      PortPeerNs(h, txt, w, m, t, pe);
    } else if pe.ev.LocalPodAdd? {
      PortLocalPodExact(h, txt, w, m, t, pe, pe.ev.id, pe.ev.port);
    } else if pe.ev.LocalPodDel? {
      PortLocalPodGone(h, txt, m, t, pe, pe.ev.id, pe.ev.port);
    } else if pe.ev.PodDown? {
      PortPodGone(h, txt, m, t, pe, pe.ev.port);
    } else {
      if pe.ev.RuleAdd? {
        PodParts(h, w, m, pe.ev.id);
      }
      PortOthers(h, txt, m, t, pe);
    }
  }

  lemma PortPodUp(h: string -> string, m: Mem, port: string, pod: Pod)
    requires PortFacts(m) && port !in m.lsps
    ensures MemRows(MemStep(h, m, PodUp(port, pod))) == MemRows(m)
  {
    DeniesAfterPodUp(Ingress, m.lsps, m.inCount, port, pod);
    DeniesAfterPodUp(Egress, m.lsps, m.egCount, port, pod);
  }

  lemma PortStepIdle(h: string -> string, txt: Printer, m: Mem, t: Table, pe: PortEvent)
    requires KeepsPortRows(pe.ev) || pe.ev.PodUp? || (pe.ev.PolicyDelete? && (pe.ev.ns, pe.ev.name) !in m.byKey)
    ensures PortStep(h, txt, m, t, pe) == t
  {
  }

  /** No default-deny row is called for on behalf of another pod than the port's. */
  lemma NoDenies(m: Mem, t: Table, pod: Pod, port: string)
    requires TableOk(t, MemRows(m)) && (port in m.lsps ==> m.lsps[port] != pod)
    ensures DeleteRows(t, [PortDenyRow(Ingress, pod, port), PortDenyRow(Egress, pod, port)]) == t
  {
    var rows := [PortDenyRow(Ingress, pod, port), PortDenyRow(Egress, pod, port)];
    forall i, r | i in t.rows && r in rows ensures t.rows[i].ids != r.ids {
      if IsPolicyRow(m.nps, t.rows[i]) {
        PolicyRowIds(m.nps, t.rows[i]);
      }
    }
    DeleteAbsent(t, rows);
  }

  /** Taking a port away changes the rows called for exactly when a default deny holds it. */
  lemma RowsWithoutPort(h: string -> string, m: Mem, port: string)
    requires port in m.lsps
    ensures MemRows(MemStep(h, m, PodDown(port))) == MemRows(m)
        <==> Count(m, Ingress, port) == 0 && Count(m, Egress, port) == 0
  {
    var m' := MemStep(h, m, PodDown(port));
    DeniesAfterPodDown(Ingress, m.lsps, m.inCount, port);
    DeniesAfterPodDown(Egress, m.lsps, m.egCount, port);
    if Count(m, Ingress, port) > 0 {
      DenyLost(m, m', Ingress, port);
    } else if Count(m, Egress, port) > 0 {
      DenyLost(m, m', Egress, port);
    } else {
      NoDenyRow(Ingress, m.lsps, m.inCount, port);
      NoDenyRow(Egress, m.lsps, m.egCount, port);
      assert MemRows(m') == MemRows(m);
    }
  }

  lemma NoDenyRow(dir: Direction, lsps: map<string, Pod>, counts: map<string, nat>, port: string)
    requires port in lsps && Get(counts, port) == 0
    ensures PortDenyRow(dir, lsps[port], port) !in PortDenies(dir, lsps, counts)
  {
  }

  lemma DenyLost(m: Mem, m': Mem, dir: Direction, port: string)
    requires port in m.lsps && Count(m, dir, port) > 0 && port !in m'.lsps
    ensures PortDenyRow(dir, m.lsps[port], port) in MemRows(m) && PortDenyRow(dir, m.lsps[port], port) !in MemRows(m')
  {
    var row := PortDenyRow(dir, m.lsps[port], port);
    DenyHasRow(m, dir, port);
    if IsPolicyRow(m'.nps, row) {
      PolicyRowIds(m'.nps, row);
    }
  }

  lemma MeetsDown(m: Mem, pe: PortEvent, port: string)
    requires pe.ev == PodDown(port)
    ensures Meets(m, pe) <==>
            port !in m.lsps || m.lsps[port] == pe.pod
            || (Count(m, Ingress, port) == 0 && Count(m, Egress, port) == 0)
  {
  }

  lemma PortPodGone(h: string -> string, txt: Printer, m: Mem, t: Table, pe: PortEvent, port: string)
    requires pe.ev == PodDown(port) && PortFacts(m) && TableOk(t, MemRows(m))
    ensures TableOk(PortStep(h, txt, m, t, pe), MemRows(MemStep(h, m, pe.ev))) <==> Meets(m, pe)
  {
    MeetsDown(m, pe, port);
    if port in m.lsps && m.lsps[port] == pe.pod {
      PortPodDown(h, txt, m, t, pe, port);
    } else {
      NoDenies(m, t, pe.pod, port);
      PodDownRows(h, txt, m, t, pe, port);
      OneContent(t, MemRows(m), MemRows(MemStep(h, m, pe.ev)));
      if port in m.lsps {
        RowsWithoutPort(h, m, port);
      } else {
        NothingDown(h, m, port);
      }
    }
  }

  lemma PortPolicyGone(h: string -> string, txt: Printer, m: Mem, t: Table, pe: PortEvent, ns: string, name: string)
    requires pe.ev == PolicyDelete(ns, name) && ((ns, name) in m.byKey ==> Live(m, m.byKey[(ns, name)]))
    requires OrderOk(m, pe) && PortFacts(m) && TableOk(t, MemRows(m))
    ensures TableOk(PortStep(h, txt, m, t, pe), MemRows(MemStep(h, m, pe.ev)))
  {
    if (ns, name) in m.byKey {
      PortPolicyDelete(h, txt, m, t, pe, ns, name, m.byKey[(ns, name)]);
    } else {
      PortStepIdle(h, txt, m, t, pe);
      assert MemStep(h, m, PolicyDelete(ns, name)) == m;
    }
  }

  lemma PortOthers(h: string -> string, txt: Printer, m: Mem, t: Table, pe: PortEvent)
    requires OrderOk(m, pe) && PortFacts(m) && TableOk(t, MemRows(m))
    requires KeepsPortRows(pe.ev) || pe.ev.PolicyDelete? || pe.ev.PodUp?
    requires pe.ev.PolicyDelete? && (pe.ev.ns, pe.ev.name) in m.byKey ==> Live(m, m.byKey[(pe.ev.ns, pe.ev.name)])
    requires pe.ev.PodUp? ==> pe.ev.port !in m.lsps
    requires pe.ev.RuleAdd? && Live(m, pe.ev.id) ==> m.nps[pe.ev.id].localPods == map[]
    ensures TableOk(PortStep(h, txt, m, t, pe), MemRows(MemStep(h, m, pe.ev)))
  {
    if pe.ev.PolicyDelete? {
      PortPolicyGone(h, txt, m, t, pe, pe.ev.ns, pe.ev.name);
    } else {
      PortStepIdle(h, txt, m, t, pe);
      if pe.ev.PodUp? {
        PortPodUp(h, m, pe.ev.port, pe.ev.pod);
      } else {
        PortRest(h, m, pe.ev);
      }
    }
  }

  lemma NothingDown(h: string -> string, m: Mem, port: string)
    requires PortFacts(m) && port !in m.lsps
    ensures MemRows(MemStep(h, m, PodDown(port))) == MemRows(m)
  {
    var m' := MemStep(h, m, PodDown(port));
    assert m'.lsps == m.lsps;
    SameDenies(Ingress, m.lsps, m.inCount, m'.inCount);
    SameDenies(Egress, m.lsps, m.egCount, m'.egCount);
  }

  lemma SameDenies(dir: Direction, lsps: map<string, Pod>, counts: map<string, nat>, counts': map<string, nat>)
    requires forall p | p in lsps :: Get(counts, p) == Get(counts', p)
    ensures PortDenies(dir, lsps, counts') == PortDenies(dir, lsps, counts)
  {
    forall row ensures IsDeny(dir, lsps, counts', row) <==> IsDeny(dir, lsps, counts, row) {
      if p :| IsPortDeny(dir, lsps, counts', p, row) {
        assert IsPortDeny(dir, lsps, counts, p, row);
      }
      if p :| IsPortDeny(dir, lsps, counts, p, row) {
        assert IsPortDeny(dir, lsps, counts', p, row);
      }
    }
  }

  // ------------------------------------------------------- whole runs

  /** The run as the other back-end sees it. */
  function Events(pes: seq<PortEvent>): seq<Event> { seq(|pes|, i requires 0 <= i < |pes| => pes[i].ev) }

  lemma EventsPrefix(pes: seq<PortEvent>, n: nat)
    requires n < |pes|
    ensures Events(pes[..n]) == Events(pes)[..n] && Events(pes[..n + 1]) == Events(pes[..n]) + [pes[n].ev]
    ensures Events(pes[..n + 1])[..n] == Events(pes[..n])
  {
  }

  /** This back-end's memory and table after a run; the address sets are shared with the other. */
  function PortMemRun(h: string -> string, pes: seq<PortEvent>): Mem {
    if pes == [] then EmptyMem else PortMemStep(h, PortMemRun(h, pes[..|pes| - 1]), pes[|pes| - 1])
  }

  function PortRun(h: string -> string, txt: Printer, pes: seq<PortEvent>): Table {
    if pes == [] then Table(map[], 0)
    else
      var n := |pes| - 1;
      PortStep(h, txt, PortMemRun(h, pes[..n]), PortRun(h, txt, pes[..n]), pes[n])
  }

  lemma EmptyRows()
    ensures MemRows(EmptyMem) == iset{}
  {
    forall row ensures row !in MemRows(EmptyMem) {
    }
  }

  /** The events are legal and every loop visits what it is to; pod objects may name any node. */
  ghost predicate PortLegal(h: string -> string, pes: seq<PortEvent>)
    decreases |pes|
  {
    pes == [] ||
    (var n := |pes| - 1;
     && PortLegal(h, pes[..n]) && Legal(Run(Events(pes[..n])), pes[n].ev)
     && OrderOk(PortMemRun(h, pes[..n]), pes[n]))
  }

  /** Every pod object names the switch its rows belong on, by the memory of the other back-end. */
  ghost predicate AllMeet(h: string -> string, pes: seq<PortEvent>)
    decreases |pes|
  {
    pes == [] || (AllMeet(h, pes[..|pes| - 1]) && Meets(MemRun(h, Events(pes[..|pes| - 1])), pes[|pes| - 1]))
  }

  lemma {:induction false} PortLegalRun(h: string -> string, pes: seq<PortEvent>)
    requires PortLegal(h, pes)
    ensures LegalRun(Events(pes))
    decreases |pes|
  {
    if pes != [] {
      var n := |pes| - 1;
      EventsPrefix(pes, n);
      assert pes[..n + 1] == pes;
      PortLegalRun(h, pes[..n]);
      LegalSnoc(Events(pes[..n]), pes[n].ev);
    }
  }

  lemma RunsNext(h: string -> string, pes: seq<PortEvent>)
    requires pes != []
    ensures var n := |pes| - 1;
            && Run(Events(pes)) == WorldStep(Run(Events(pes[..n])), pes[n].ev)
            && MemRun(h, Events(pes)) == MemStep(h, MemRun(h, Events(pes[..n])), pes[n].ev)
  {
    var n := |pes| - 1;
    EventsPrefix(pes, n);
    assert pes[..n + 1] == pes;
  }

  /** One more event, as seen from the front of the run. */
  lemma SnocPort(h: string -> string, pes: seq<PortEvent>, pe: PortEvent)
    ensures var all := pes + [pe];
            && Events(all) == Events(pes) + [pe.ev] && Run(Events(all)) == WorldStep(Run(Events(pes)), pe.ev)
            && PortMemRun(h, all) == PortMemStep(h, PortMemRun(h, pes), pe)
            && PortRun(h, MatchText, all) == PortStep(h, MatchText, PortMemRun(h, pes), PortRun(h, MatchText, pes), pe)
            && (PortLegal(h, all)
              <==> PortLegal(h, pes) && Legal(Run(Events(pes)), pe.ev) && OrderOk(PortMemRun(h, pes), pe))
  {
    var all := pes + [pe];
    assert all[..|pes|] == pes && all[|pes|] == pe;
    RunsNext(h, all);
  }

  /** The table holds what the other back-end's memory calls for, and this one's memory is equal. */
  ghost predicate Mirrors(h: string -> string, pes: seq<PortEvent>) {
    && PortMemRun(h, pes) == MemRun(h, Events(pes))
    && TableOk(PortRun(h, MatchText, pes), MemRows(MemRun(h, Events(pes))))
  }

  ghost predicate AlwaysMirrors(h: string -> string, pes: seq<PortEvent>)
    decreases |pes|
  {
    Mirrors(h, pes) && (pes == [] || AlwaysMirrors(h, pes[..|pes| - 1]))
  }

  /** One more event. */
  lemma MirrorsNext(h: string -> string, pes: seq<PortEvent>)
    requires GoodHash(h) && PortLegal(h, pes) && pes != [] && Mirrors(h, pes[..|pes| - 1])
    ensures Mirrors(h, pes) <==> Meets(MemRun(h, Events(pes[..|pes| - 1])), pes[|pes| - 1])
  {
    var n := |pes| - 1;
    var before := pes[..n];
    var w, m, t := Run(Events(before)), MemRun(h, Events(before)), PortRun(h, MatchText, before);
    MatchTextIsGood();
    PortLegalRun(h, before);
    MemoryMirrorsWorld(h, Events(before));
    RunsNext(h, pes);
    MemoryStepsAgree(h, m, pes[n]);
    PortStepOk(h, MatchText, w, m, t, pes[n]);
  }

  /** Over whole runs, for every order in which each loop visits the local pods: the table always
      holds exactly one row per live policy, rule, kind and local pod, printed from the current
      peer list, and one default-deny row per direction and existing port with a positive counter,
      exactly when every pod object names the switch its rows belong on. */
  lemma {:induction false} PortTableMirrorsMemory(h: string -> string, pes: seq<PortEvent>)
    requires GoodHash(h) && PortLegal(h, pes)
    ensures AlwaysMirrors(h, pes) <==> AllMeet(h, pes)
    ensures AllMeet(h, pes) ==> Mirrors(h, pes)
    decreases |pes|
  {
    if pes == [] {
      EmptyRows();
      assert Events(pes) == [];
    } else {
      PortTableMirrorsMemory(h, pes[..|pes| - 1]);
      if AllMeet(h, pes[..|pes| - 1]) {
        MirrorsNext(h, pes);
      }
    }
  }

  // ------------------------------------------------------- meaning

  /** The ACLs of one direction on a logical switch. */
  ghost function SwitchAcls(t: Table, sw: string, dir: Direction): iset<Acl> {
    iset i | i in t.rows && t.rows[i].owner == sw && t.rows[i].acl.match_.dir == dir :: t.rows[i].acl
  }

  lemma SwitchAcl(t: Table, e: iset<Row>, sw: string, dir: Direction, a: Acl)
    requires TableOk(t, e)
    ensures a in SwitchAcls(t, sw, dir)
        <==> exists row | row in e :: row.acl == a && row.owner == sw && a.match_.dir == dir
  {
  }

  /** Some policy row of a tier matches exactly when some rule's ACL of that tier would. */
  lemma PortRowHit(nps: map<nat, Np>, row: Row, dir: Direction, pkt: Packet, env: Env)
    requires IsPolicyRow(nps, row) && row.acl.match_.dir == dir && Matches(row.acl.match_, pkt, env)
    ensures row.acl.priority == IP_BLOCK_DENY_PRIORITY ==> ExceptHit(nps, dir, pkt, env)
    ensures row.acl.priority == DEFAULT_ALLOW_PRIORITY ==> AllowHit(nps, dir, pkt, env)
    ensures Tiered(row.acl) && row.acl.priority != DEFAULT_DENY_PRIORITY
  {
    var i: nat, a, k, p :| IsPortRow(nps, i, a, k, p, row);
    assert KindHit(nps, i, a, k, dir, pkt, env);
  }

  lemma KindHasRow(nps: map<nat, Np>, lsps: map<string, Pod>, id: nat, rid: RuleId, k: Kind, dir: Direction,
                   pkt: Packet, env: Env) returns (row: Row)
    requires KindHit(nps, id, rid, k, dir, pkt, env) && PodsKnown(nps, lsps) && LocalPort(dir, pkt) in lsps
    ensures IsPolicyRow(nps, row) && row.acl.match_.dir == dir && Matches(row.acl.match_, pkt, env)
    ensures row.owner == lsps[LocalPort(dir, pkt)].node
    ensures row.acl.priority == if k.ExceptKind? then IP_BLOCK_DENY_PRIORITY else DEFAULT_ALLOW_PRIORITY
  {
    var port := LocalPort(dir, pkt);
    row := RowOf(PortOwner(nps[id].spec.Key(), nps[id].localPods[port], port), rid, nps[id].rules[rid], k);
    assert IsPortRow(nps, id, rid, k, port, row);
  }

  lemma RowTier(nps: map<nat, Np>, lsps: map<string, Pod>, ic: map<string, nat>, ec: map<string, nat>, row: Row)
    requires row in PortExpected(nps, lsps, ic, ec)
    ensures Tiered(row.acl)
    ensures row.acl.priority == DEFAULT_DENY_PRIORITY <==> row !in PolicyRows(nps)
  {
    if i: nat, a, k, p :| IsPortRow(nps, i, a, k, p, row) {
      assert IsPolicyRow(nps, row);
    }
  }

  lemma PortDenyHit(m: Mem, row: Row, dir: Direction, pkt: Packet, env: Env)
    requires row in MemRows(m) && row !in PolicyRows(m.nps) && row.acl.match_.dir == dir
             && Matches(row.acl.match_, pkt, env)
    ensures LocalPort(dir, pkt) in m.lsps && Count(m, dir, LocalPort(dir, pkt)) > 0
  {
    if p :| IsPortDeny(Ingress, m.lsps, m.inCount, p, row) {
      assert p == LocalPort(dir, pkt);
    } else {
      var p :| IsPortDeny(Egress, m.lsps, m.egCount, p, row);
      assert p == LocalPort(dir, pkt);
    }
  }

  lemma DenyHasRow(m: Mem, dir: Direction, port: string)
    requires port in m.lsps && Count(m, dir, port) > 0
    ensures PortDenyRow(dir, m.lsps[port], port) in MemRows(m)
  {
    assert dir == Ingress ==> IsPortDeny(Ingress, m.lsps, m.inCount, port, PortDenyRow(dir, m.lsps[port], port));
    assert dir == Egress ==> IsPortDeny(Egress, m.lsps, m.egCount, port, PortDenyRow(dir, m.lsps[port], port));
  }

  lemma PortHits(m: Mem, t: Table, dir: Direction, pkt: Packet, env: Env, priority: nat)
    requires TableOk(t, MemRows(m)) && LocalPort(dir, pkt) in m.lsps
    requires Hit(SwitchAcls(t, m.lsps[LocalPort(dir, pkt)].node, dir), priority, pkt, env)
    ensures priority == IP_BLOCK_DENY_PRIORITY ==> ExceptHit(m.nps, dir, pkt, env)
    ensures priority == DEFAULT_ALLOW_PRIORITY ==> AllowHit(m.nps, dir, pkt, env)
    ensures priority == DEFAULT_DENY_PRIORITY ==> Count(m, dir, LocalPort(dir, pkt)) > 0
  {
    var sw := m.lsps[LocalPort(dir, pkt)].node;
    var a :| a in SwitchAcls(t, sw, dir) && a.priority == priority && Matches(a.match_, pkt, env);
    SwitchAcl(t, MemRows(m), sw, dir, a);
    var row :| row in MemRows(m) && row.acl == a && a.match_.dir == dir;
    RowTier(m.nps, m.lsps, m.inCount, m.egCount, row);
    if row in PolicyRows(m.nps) {
      PortRowHit(m.nps, row, dir, pkt, env);
    } else {
      PortDenyHit(m, row, dir, pkt, env);
    }
  }

  lemma RowHits(m: Mem, t: Table, dir: Direction, pkt: Packet, env: Env, sw: string, row: Row)
    requires TableOk(t, MemRows(m)) && row in MemRows(m) && row.owner == sw && row.acl.match_.dir == dir
             && Matches(row.acl.match_, pkt, env)
    ensures Hit(SwitchAcls(t, sw, dir), row.acl.priority, pkt, env)
  {
    SwitchAcl(t, MemRows(m), sw, dir, row.acl);
  }

  lemma PolicyRowStored(m: Mem, row: Row)
    requires IsPolicyRow(m.nps, row)
    ensures row in MemRows(m)
  {
  }

  lemma KindHits(m: Mem, t: Table, id: nat, rid: RuleId, k: Kind, dir: Direction, pkt: Packet, env: Env)
    requires TableOk(t, MemRows(m)) && PodsKnown(m.nps, m.lsps) && LocalPort(dir, pkt) in m.lsps
             && KindHit(m.nps, id, rid, k, dir, pkt, env)
    ensures Hit(SwitchAcls(t, m.lsps[LocalPort(dir, pkt)].node, dir),
                if k.ExceptKind? then IP_BLOCK_DENY_PRIORITY else DEFAULT_ALLOW_PRIORITY, pkt, env)
  {
    var row := KindHasRow(m.nps, m.lsps, id, rid, k, dir, pkt, env);
    PolicyRowStored(m, row);
    RowHits(m, t, dir, pkt, env, m.lsps[LocalPort(dir, pkt)].node, row);
  }

  lemma AllPortTiered(m: Mem, t: Table, sw: string, dir: Direction)
    requires TableOk(t, MemRows(m))
    ensures forall a | a in SwitchAcls(t, sw, dir) :: Tiered(a)
  {
    forall a | a in SwitchAcls(t, sw, dir) ensures Tiered(a) {
      SwitchAcl(t, MemRows(m), sw, dir, a);
      var row :| row in MemRows(m) && row.acl == a;
      RowTier(m.nps, m.lsps, m.inCount, m.egCount, row);
    }
  }

  lemma OnlyRealHits(m: Mem, t: Table, dir: Direction, pkt: Packet, env: Env, acls: iset<Acl>)
    requires TableOk(t, MemRows(m)) && LocalPort(dir, pkt) in m.lsps
             && acls == SwitchAcls(t, m.lsps[LocalPort(dir, pkt)].node, dir)
    ensures Hit(acls, IP_BLOCK_DENY_PRIORITY, pkt, env) ==> ExceptHit(m.nps, dir, pkt, env)
    ensures Hit(acls, DEFAULT_ALLOW_PRIORITY, pkt, env) ==> AllowHit(m.nps, dir, pkt, env)
    ensures Hit(acls, DEFAULT_DENY_PRIORITY, pkt, env) ==> Count(m, dir, LocalPort(dir, pkt)) > 0
  {
    if Hit(acls, IP_BLOCK_DENY_PRIORITY, pkt, env) {
      PortHits(m, t, dir, pkt, env, IP_BLOCK_DENY_PRIORITY);
    }
    if Hit(acls, DEFAULT_ALLOW_PRIORITY, pkt, env) {
      PortHits(m, t, dir, pkt, env, DEFAULT_ALLOW_PRIORITY);
    }
    if Hit(acls, DEFAULT_DENY_PRIORITY, pkt, env) {
      PortHits(m, t, dir, pkt, env, DEFAULT_DENY_PRIORITY);
    }
  }

  lemma ExceptIsHit(m: Mem, t: Table, dir: Direction, pkt: Packet, env: Env)
    requires TableOk(t, MemRows(m)) && PodsKnown(m.nps, m.lsps) && LocalPort(dir, pkt) in m.lsps
             && ExceptHit(m.nps, dir, pkt, env)
    ensures Hit(SwitchAcls(t, m.lsps[LocalPort(dir, pkt)].node, dir), IP_BLOCK_DENY_PRIORITY, pkt, env)
  {
    var id: nat, rid :| KindHit(m.nps, id, rid, ExceptKind, dir, pkt, env);
    KindHits(m, t, id, rid, ExceptKind, dir, pkt, env);
  }

  lemma AllowIsHit(m: Mem, t: Table, dir: Direction, pkt: Packet, env: Env)
    requires TableOk(t, MemRows(m)) && PodsKnown(m.nps, m.lsps) && LocalPort(dir, pkt) in m.lsps
             && AllowHit(m.nps, dir, pkt, env)
    ensures Hit(SwitchAcls(t, m.lsps[LocalPort(dir, pkt)].node, dir), DEFAULT_ALLOW_PRIORITY, pkt, env)
  {
    var id: nat, rid, k :| IsAllow(k) && KindHit(m.nps, id, rid, k, dir, pkt, env);
    KindHits(m, t, id, rid, k, dir, pkt, env);
  }

  lemma DenyHits(m: Mem, t: Table, dir: Direction, pkt: Packet, env: Env)
    requires TableOk(t, MemRows(m)) && LocalPort(dir, pkt) in m.lsps && Count(m, dir, LocalPort(dir, pkt)) > 0
    ensures Hit(SwitchAcls(t, m.lsps[LocalPort(dir, pkt)].node, dir), DEFAULT_DENY_PRIORITY, pkt, env)
  {
    var port := LocalPort(dir, pkt);
    DenyHasRow(m, dir, port);
    RowHits(m, t, dir, pkt, env, m.lsps[port].node, PortDenyRow(dir, m.lsps[port], port));
  }

  lemma PortAclsRepresent(m: Mem, t: Table, dir: Direction, pkt: Packet, env: Env, acls: iset<Acl>)
    requires TableOk(t, MemRows(m)) && PodsKnown(m.nps, m.lsps) && LocalPort(dir, pkt) in m.lsps
    requires acls == SwitchAcls(t, m.lsps[LocalPort(dir, pkt)].node, dir)
    ensures Represents(acls, m.nps, dir, pkt, env, Count(m, dir, LocalPort(dir, pkt)) > 0)
  {
    AllPortTiered(m, t, m.lsps[LocalPort(dir, pkt)].node, dir);
    OnlyRealHits(m, t, dir, pkt, env, acls);
    if ExceptHit(m.nps, dir, pkt, env) {
      ExceptIsHit(m, t, dir, pkt, env);
    }
    if AllowHit(m.nps, dir, pkt, env) {
      AllowIsHit(m, t, dir, pkt, env);
    }
    if Count(m, dir, LocalPort(dir, pkt)) > 0 {
      DenyHits(m, t, dir, pkt, env);
    }
  }

  /** Pod names are plain too. */
  ghost predicate PlainPorts(w: World) {
    && (forall p | p in w.alive :: '&' !in p)
    && (forall id, p | id in w.policies && p in w.policies[id].pods :: '&' !in p)
  }

  lemma PolicyRowReadable(h: string -> string, w: World, m: Mem, row: Row)
    requires GoodHash(h) && WorldOk(w) && Sim(h, w, m) && PlainExcepts(w) && PlainPorts(w) && IsPolicyRow(m.nps, row)
    ensures ReadableAcl(row.acl)
  {
    var id: nat, rid, k, port :| IsPortRow(m.nps, id, rid, k, port, row);
    assert NpSim(h, w.policies[id], m.nps[id]);
    assert port in w.policies[id].pods;
    RuleAclReadable(h, w, m, id, rid, k, LogicalPort(port));
  }

  lemma PortDenyReadable(dir: Direction, lsps: map<string, Pod>, counts: map<string, nat>, row: Row)
    requires IsDeny(dir, lsps, counts, row) && forall p | p in lsps :: '&' !in p
    ensures ReadableAcl(row.acl)
  {
  }

  lemma RowReadable(h: string -> string, w: World, m: Mem, row: Row)
    requires GoodHash(h) && WorldOk(w) && Sim(h, w, m) && PlainExcepts(w) && PlainPorts(w) && row in MemRows(m)
    ensures ReadableAcl(row.acl)
  {
    if IsPolicyRow(m.nps, row) {
      PolicyRowReadable(h, w, m, row);
    } else if IsDeny(Ingress, m.lsps, m.inCount, row) {
      PortDenyReadable(Ingress, m.lsps, m.inCount, row);
    } else {
      PortDenyReadable(Egress, m.lsps, m.egCount, row);
    }
  }

  lemma SwitchReadable(h: string -> string, w: World, m: Mem, t: Table, sw: string, dir: Direction)
    requires GoodHash(h) && WorldOk(w) && Sim(h, w, m) && TableOk(t, MemRows(m)) && PlainExcepts(w) && PlainPorts(w)
    ensures AllReadable(SwitchAcls(t, sw, dir))
  {
    forall a | a in SwitchAcls(t, sw, dir) ensures ReadableAcl(a) {
      SwitchAcl(t, MemRows(m), sw, dir, a);
      var row :| row in MemRows(m) && row.acl == a;
      RowReadable(h, w, m, row);
    }
  }

  lemma PortStateMeaning(h: string -> string, w: World, m: Mem, t: Table, sets: map<string, set<Ip>>, dir: Direction,
                         pkt: Packet, inBlock: (string, Ip) -> bool)
    requires GoodHash(h) && WorldOk(w) && Sim(h, w, m) && TableOk(t, MemRows(m))
             && SetsOk(h, Namer(h), m.nps, m.nsAddresses, sets)
    requires LocalPort(dir, pkt) in w.alive
    ensures var acls, env := SwitchAcls(t, w.alive[LocalPort(dir, pkt)].node, dir), Env(sets, map[], inBlock);
            (MayDrop(acls, pkt, env) <==> Dropped(w, dir, pkt, inBlock))
            && (MayPass(acls, pkt, env) <==> !Dropped(w, dir, pkt, inBlock))
    ensures PlainExcepts(w) && PlainPorts(w) ==>
            var acls, env := SwitchAcls(t, w.alive[LocalPort(dir, pkt)].node, dir), Env(sets, map[], inBlock);
            && (TextDrops(acls, pkt, env) <==> Dropped(w, dir, pkt, inBlock))
            && (TextPasses(acls, pkt, env) <==> !Dropped(w, dir, pkt, inBlock))
  {
    var acls, env := SwitchAcls(t, w.alive[LocalPort(dir, pkt)].node, dir), Env(sets, map[], inBlock);
    PortFactsOf(h, w, m);
    PortAclsRepresent(m, t, dir, pkt, env, acls);
    assert Count(m, dir, LocalPort(dir, pkt)) == |Holders(w.policies, dir, LocalPort(dir, pkt))|;
    RulesAgreeOf(h, w, m, sets);
    Verdict(h, w, m.nps, acls, dir, pkt, env);
    if PlainExcepts(w) && PlainPorts(w) {
      SwitchReadable(h, w, m, t, w.alive[LocalPort(dir, pkt)].node, dir);
      ReadAlike(acls, pkt, env);
    }
  }

  /** The per-port ACLs mean the policies too: after every run whose pod objects name the right
      switches, the ACLs on a live port's switch drop a packet exactly when the policies do, and so
      do the texts in their match columns. */
  lemma PerPortPreservesMeaning(h: string -> string, pes: seq<PortEvent>, dir: Direction, pkt: Packet,
                                inBlock: (string, Ip) -> bool)
    requires GoodHash(h) && PortLegal(h, pes) && AllMeet(h, pes) && LocalPort(dir, pkt) in Run(Events(pes)).alive
    ensures var w, sets := Run(Events(pes)), DbRun(h, MatchText, Events(pes)).sets;
            var acls, env := SwitchAcls(PortRun(h, MatchText, pes), w.alive[LocalPort(dir, pkt)].node, dir),
                             Env(sets, map[], inBlock);
            && (MayDrop(acls, pkt, env) <==> Dropped(w, dir, pkt, inBlock))
            && (MayPass(acls, pkt, env) <==> !Dropped(w, dir, pkt, inBlock))
    ensures PlainExcepts(Run(Events(pes))) && PlainPorts(Run(Events(pes))) ==>
            var w, sets := Run(Events(pes)), DbRun(h, MatchText, Events(pes)).sets;
            var acls, env := SwitchAcls(PortRun(h, MatchText, pes), w.alive[LocalPort(dir, pkt)].node, dir),
                             Env(sets, map[], inBlock);
            && (TextDrops(acls, pkt, env) <==> Dropped(w, dir, pkt, inBlock))
            && (TextPasses(acls, pkt, env) <==> !Dropped(w, dir, pkt, inBlock))
  {
    var evs := Events(pes);
    PortLegalRun(h, pes);
    MemoryMirrorsWorld(h, evs);
    DatabaseMirrorsMemory(h, evs);
    PortTableMirrorsMemory(h, pes);
    PortStateMeaning(h, Run(evs), MemRun(h, evs), PortRun(h, MatchText, pes), DbRun(h, MatchText, evs).sets, dir, pkt,
                     inBlock);
  }

  /** The two back-ends agree: after the same run, when pod objects name the right switches, they
      give every packet at every live port the same verdict in each direction. */
  lemma BackendsAgree(h: string -> string, pes: seq<PortEvent>, dir: Direction, pkt: Packet,
                      inBlock: (string, Ip) -> bool)
    requires GoodHash(h) && PortLegal(h, pes) && AllMeet(h, pes) && LocalPort(dir, pkt) in Run(Events(pes)).alive
    ensures var db := DbRun(h, MatchText, Events(pes));
            var perPort := SwitchAcls(PortRun(h, MatchText, pes), Run(Events(pes)).alive[LocalPort(dir, pkt)].node,
                                      dir);
            && (MayDrop(DirAcls(db.acls, dir), pkt, EnvOf(db, inBlock))
              <==> MayDrop(perPort, pkt, Env(db.sets, map[], inBlock)))
            && (MayPass(DirAcls(db.acls, dir), pkt, EnvOf(db, inBlock))
              <==> MayPass(perPort, pkt, Env(db.sets, map[], inBlock)))
  {
    PortLegalRun(h, pes);
    CompilationPreservesMeaning(h, Events(pes), dir, pkt, inBlock);
    PerPortPreservesMeaning(h, pes, dir, pkt, inBlock);
  }
}
