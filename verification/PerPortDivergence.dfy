/** Where the per-port back-end and the port-group back-end part: a policy selects a pod whose logical
    port does not exist, or is on another node than the pod object names, as when a snapshotted pod
    is replayed after its deletion was dispatched. */
module PerPortDivergence {
  import opened Acl
  import opened PolicyWorld
  import opened PolicyMemory
  import opened AclRows
  import opened PortGroupBackend
  import opened PortGroupMeaning
  import opened PerPortBackend
  import opened PerPortRuns

  const DenySpec := PolicySpec("ns", "deny", [Ingress], [], [])

  function Plain(ev: Event): PortEvent { PortEvent(ev, Pod("", ""), []) }

  /** A policy that allows nothing, and a pod object of node `a` whose port is gone already. */
  function StaleAdd(a: string): seq<PortEvent> {
    [Plain(NamespaceAdd("ns", {}))] + [Plain(PolicyAdd(1, DenySpec))]
    + [PortEvent(LocalPodAdd(1, "ns_p"), Pod("ns", a), [])]
  }

  /** Then the pod is created again on node `b`. */
  function StaleRun(a: string, b: string): seq<PortEvent> {
    StaleAdd(a) + [Plain(PodUp("ns_p", Pod("ns", b)))] + [PortEvent(LocalPodAdd(1, "ns_p"), Pod("ns", b), [])]
  }

  /** The pod is on node `b` when an older object of node `a` is replayed. */
  function LateRun(a: string, b: string): seq<PortEvent> {
    [Plain(NamespaceAdd("ns", {}))] + [Plain(PolicyAdd(1, DenySpec))] + [Plain(PodUp("ns_p", Pod("ns", b)))]
    + [PortEvent(LocalPodAdd(1, "ns_p"), Pod("ns", a), [])]
  }

  ghost predicate OnlyOn(t: Table, sw: string) { forall i | i in t.rows :: t.rows[i].owner == sw }

  lemma {:induction false} AddOnlyOn(t: Table, rows: seq<Row>, sw: string)
    requires OnlyOn(t, sw) && forall r | r in rows :: r.owner == sw
    ensures OnlyOn(AddRows(t, rows), sw)
    decreases |rows|
  {
    if rows != [] {
      assert rows[0] in rows;
      AddOnlyOn(AddRow(t, rows[0]), rows[1..], sw);
    }
  }

  const StaleWorld := World(map[1 := Policy(DenySpec, map[], map[])], {1}, map[], map["ns" := {}])

  lemma NothingYet(h: string -> string)
    ensures PortLegal(h, []) && PortRun(h, MatchText, []) == Table(map[], 0) && PortMemRun(h, []) == EmptyMem
    ensures Events([]) == [] && Run(Events([])) == Empty
  {
  }

  lemma NamespaceStep(h: string -> string)
    ensures var pe := Plain(NamespaceAdd("ns", {}));
            && Legal(Empty, pe.ev) && WorldStep(Empty, pe.ev) == World(map[], {}, map[], map["ns" := {}])
            && PortMemStep(h, EmptyMem, pe) == EmptyMem.(nsAddresses := map["ns" := {}])
            && PortStep(h, MatchText, EmptyMem, Table(map[], 0), pe) == Table(map[], 0) && OrderOk(EmptyMem, pe)
  {
    assert Label("ns");
  }

  lemma StaleNamespace(h: string -> string)
    ensures var pes := [Plain(NamespaceAdd("ns", {}))];
            && PortLegal(h, pes) && PortRun(h, MatchText, pes) == Table(map[], 0)
            && Run(Events(pes)) == World(map[], {}, map[], map["ns" := {}])
            && PortMemRun(h, pes) == EmptyMem.(nsAddresses := map["ns" := {}])
  {
    var first := Plain(NamespaceAdd("ns", {}));
    NothingYet(h);
    NamespaceStep(h);
    assert [] + [first] == [first];
    SnocPort(h, [], first);
  }

  lemma PolicyStep(h: string -> string)
    ensures var m, ev := EmptyMem.(nsAddresses := map["ns" := {}]), PolicyAdd(1, DenySpec);
            && WorldStep(World(map[], {}, map[], map["ns" := {}]), ev) == StaleWorld
            && MemStep(h, m, ev).nps == map[1 := Np(DenySpec, h(ReadableGroup(DenySpec)), map[], map[], map[], false)]
            && MemStep(h, m, ev).lsps == map[] && Legal(World(map[], {}, map[], map["ns" := {}]), ev)
  {
    assert Label("ns") && SpecOk(DenySpec);
  }

  lemma StalePolicy(h: string -> string, pes: seq<PortEvent>)
    requires PortLegal(h, pes) && PortRun(h, MatchText, pes) == Table(map[], 0)
    requires Run(Events(pes)) == World(map[], {}, map[], map["ns" := {}])
    requires PortMemRun(h, pes) == EmptyMem.(nsAddresses := map["ns" := {}])
    ensures var pes' := pes + [Plain(PolicyAdd(1, DenySpec))];
            && PortLegal(h, pes') && PortRun(h, MatchText, pes') == Table(map[], 0) && Run(Events(pes')) == StaleWorld
            && PortMemRun(h, pes').nps == map[1 := Np(DenySpec, h(ReadableGroup(DenySpec)), map[], map[], map[], false)]
            && PortMemRun(h, pes').lsps == map[]
  {
    PolicyStep(h);
    SnocPort(h, pes, Plain(PolicyAdd(1, DenySpec)));
  }

  /** The handler takes the pod. */
  lemma TakeStale(h: string -> string, pes: seq<PortEvent>, a: string)
    requires PortLegal(h, pes) && PortRun(h, MatchText, pes) == Table(map[], 0) && Run(Events(pes)) == StaleWorld
    requires var m := PortMemRun(h, pes); Takes(m, 1, "ns_p") && m.nps[1].spec == DenySpec
    ensures var pes' := pes + [PortEvent(LocalPodAdd(1, "ns_p"), Pod("ns", a), [])];
            && PortLegal(h, pes') && OnlyOn(PortRun(h, MatchText, pes'), a) && Run(Events(pes')) == StaleWorld
            && !Takes(PortMemRun(h, pes'), 1, "ns_p")
  {
    var m, pe := PortMemRun(h, pes), PortEvent(LocalPodAdd(1, "ns_p"), Pod("ns", a), []);
    SnocPort(h, pes, pe);
    AddOnlyOn(Table(map[], 0), AddedRows(m, m.nps[1], "ns_p", a), a);
  }

  lemma StaysTaken(h: string -> string, m: Mem, t: Table, pe: PortEvent)
    requires !Takes(m, 1, "ns_p") && (pe.ev.PodUp? || pe.ev == LocalPodAdd(1, "ns_p"))
    ensures PortStep(h, MatchText, m, t, pe) == t && !Takes(PortMemStep(h, m, pe), 1, "ns_p") && OrderOk(m, pe)
  {
  }

  lemma WorldUp(b: string)
    ensures var ev := PodUp("ns_p", Pod("ns", b));
            && WorldStep(StaleWorld, ev) == StaleWorld.(alive := map["ns_p" := Pod("ns", b)])
            && Legal(StaleWorld, ev)
  {
  }

  lemma WorldAgain(b: string, pe: PortEvent)
    requires pe == PortEvent(LocalPodAdd(1, "ns_p"), Pod("ns", b), [])
    ensures var w := StaleWorld.(alive := map["ns_p" := Pod("ns", b)]);
            && WorldStep(w, pe.ev) == w.(policies := map[1 := Policy(DenySpec, map[], map["ns_p" := b])])
            && Legal(w, pe.ev)
  {
  }

  lemma StaleUp(h: string -> string, pes: seq<PortEvent>, a: string, b: string)
    requires PortLegal(h, pes) && OnlyOn(PortRun(h, MatchText, pes), a) && Run(Events(pes)) == StaleWorld
    requires !Takes(PortMemRun(h, pes), 1, "ns_p")
    ensures var pes' := pes + [Plain(PodUp("ns_p", Pod("ns", b)))];
            && PortLegal(h, pes') && OnlyOn(PortRun(h, MatchText, pes'), a)
            && Run(Events(pes')) == StaleWorld.(alive := map["ns_p" := Pod("ns", b)])
            && !Takes(PortMemRun(h, pes'), 1, "ns_p")
  {
    var pe := Plain(PodUp("ns_p", Pod("ns", b)));
    SnocPort(h, pes, pe);
    StaysTaken(h, PortMemRun(h, pes), PortRun(h, MatchText, pes), pe);
    WorldUp(b);
  }

  /** It does not take the pod again. */
  lemma StaleAgain(h: string -> string, pes: seq<PortEvent>, a: string, b: string)
    requires PortLegal(h, pes) && OnlyOn(PortRun(h, MatchText, pes), a) && !Takes(PortMemRun(h, pes), 1, "ns_p")
    requires Run(Events(pes)) == StaleWorld.(alive := map["ns_p" := Pod("ns", b)])
    ensures var pes' := pes + [PortEvent(LocalPodAdd(1, "ns_p"), Pod("ns", b), [])];
            && PortLegal(h, pes') && OnlyOn(PortRun(h, MatchText, pes'), a)
            && Run(Events(pes')).policies == map[1 := Policy(DenySpec, map[], map["ns_p" := b])]
            && Run(Events(pes')).alive == map["ns_p" := Pod("ns", b)]
  {
    var pe := PortEvent(LocalPodAdd(1, "ns_p"), Pod("ns", b), []);
    SnocPort(h, pes, pe);
    StaysTaken(h, PortMemRun(h, pes), PortRun(h, MatchText, pes), pe);
    WorldAgain(b, pe);
  }

  /** The per-port handler has taken the pod for selected, with rows on the wrong switch. */
  lemma StaleTable(h: string -> string, a: string, b: string)
    ensures PortLegal(h, StaleRun(a, b)) && OnlyOn(PortRun(h, MatchText, StaleRun(a, b)), a)
    ensures var w := Run(Events(StaleRun(a, b)));
            w.policies == map[1 := Policy(DenySpec, map[], map["ns_p" := b])] && w.alive == map["ns_p" := Pod("ns", b)]
  {
    StaleNamespace(h);
    StalePolicy(h, [Plain(NamespaceAdd("ns", {}))]);
    TakeStale(h, [Plain(NamespaceAdd("ns", {}))] + [Plain(PolicyAdd(1, DenySpec))], a);
    StaleUp(h, StaleAdd(a), a, b);
    StaleAgain(h, StaleAdd(a) + [Plain(PodUp("ns_p", Pod("ns", b)))], a, b);
  }

  lemma LateUp(h: string -> string, pes: seq<PortEvent>, b: string)
    requires PortLegal(h, pes) && PortRun(h, MatchText, pes) == Table(map[], 0) && Run(Events(pes)) == StaleWorld
    requires var m := PortMemRun(h, pes); Takes(m, 1, "ns_p") && m.nps[1].spec == DenySpec
    ensures var pes' := pes + [Plain(PodUp("ns_p", Pod("ns", b)))];
            && PortLegal(h, pes') && PortRun(h, MatchText, pes') == Table(map[], 0)
            && Run(Events(pes')) == StaleWorld.(alive := map["ns_p" := Pod("ns", b)])
            && Takes(PortMemRun(h, pes'), 1, "ns_p") && PortMemRun(h, pes').nps[1].spec == DenySpec
  {
    var pe := Plain(PodUp("ns_p", Pod("ns", b)));
    SnocPort(h, pes, pe);
    WorldUp(b);
    UpKeeps(h, PortMemRun(h, pes), PortRun(h, MatchText, pes), pe);
  }

  lemma UpKeeps(h: string -> string, m: Mem, t: Table, pe: PortEvent)
    requires pe.ev.PodUp?
    ensures PortStep(h, MatchText, m, t, pe) == t && PortMemStep(h, m, pe).nps == m.nps && OrderOk(m, pe)
  {
  }

  /** The handler takes the pod on the node the old object names. */
  lemma TakeLate(h: string -> string, pes: seq<PortEvent>, a: string, b: string)
    requires PortLegal(h, pes) && PortRun(h, MatchText, pes) == Table(map[], 0)
    requires Run(Events(pes)) == StaleWorld.(alive := map["ns_p" := Pod("ns", b)])
    requires var m := PortMemRun(h, pes); Takes(m, 1, "ns_p") && m.nps[1].spec == DenySpec
    ensures var pes' := pes + [PortEvent(LocalPodAdd(1, "ns_p"), Pod("ns", a), [])];
            && PortLegal(h, pes') && OnlyOn(PortRun(h, MatchText, pes'), a)
            && Run(Events(pes')).policies == map[1 := Policy(DenySpec, map[], map["ns_p" := b])]
            && Run(Events(pes')).alive == map["ns_p" := Pod("ns", b)]
  {
    var m, pe := PortMemRun(h, pes), PortEvent(LocalPodAdd(1, "ns_p"), Pod("ns", a), []);
    SnocPort(h, pes, pe);
    WorldAgain(b, PortEvent(LocalPodAdd(1, "ns_p"), Pod("ns", b), []));
    AddOnlyOn(Table(map[], 0), AddedRows(m, m.nps[1], "ns_p", a), a);
  }

  lemma LateTable(h: string -> string, a: string, b: string)
    ensures PortLegal(h, LateRun(a, b)) && OnlyOn(PortRun(h, MatchText, LateRun(a, b)), a)
    ensures var w := Run(Events(LateRun(a, b)));
            w.policies == map[1 := Policy(DenySpec, map[], map["ns_p" := b])] && w.alive == map["ns_p" := Pod("ns", b)]
  {
    var first, second, up := Plain(NamespaceAdd("ns", {})), Plain(PolicyAdd(1, DenySpec)),
                             Plain(PodUp("ns_p", Pod("ns", b)));
    StaleNamespace(h);
    StalePolicy(h, [first]);
    LateUp(h, [first] + [second], b);
    TakeLate(h, [first] + [second] + [up], a, b);
  }

  /** The policy drops every packet to the pod and so does the port-group back-end; the per-port
      back-end, whose rows are all on switch `a`, lets every one pass on switch `b`. */
  ghost predicate Differ(h: string -> string, pes: seq<PortEvent>, b: string, pkt: Packet,
                         inBlock: (string, Ip) -> bool) {
    var w, db := Run(Events(pes)), DbRun(h, MatchText, Events(pes));
    var acls, env := SwitchAcls(PortRun(h, MatchText, pes), b, Ingress), Env(db.sets, map[], inBlock);
    && LocalPort(Ingress, pkt) in w.alive && w.alive[LocalPort(Ingress, pkt)].node == b
    && Dropped(w, Ingress, pkt, inBlock)
    && MayDrop(DirAcls(db.acls, Ingress), pkt, EnvOf(db, inBlock))
    && !MayPass(DirAcls(db.acls, Ingress), pkt, EnvOf(db, inBlock))
    && MayPass(acls, pkt, env) && !MayDrop(acls, pkt, env)
  }

  lemma RowsElsewhere(h: string -> string, pes: seq<PortEvent>, a: string, b: string, pkt: Packet,
                      inBlock: (string, Ip) -> bool)
    requires GoodHash(h) && a != b && LocalPort(Ingress, pkt) == "ns_p"
    requires PortLegal(h, pes) && OnlyOn(PortRun(h, MatchText, pes), a)
    requires var w := Run(Events(pes));
             w.policies == map[1 := Policy(DenySpec, map[], map["ns_p" := b])] && w.alive == map["ns_p" := Pod("ns", b)]
    ensures Differ(h, pes, b, pkt, inBlock) && !AllMeet(h, pes)
  {
    var w := Run(Events(pes));
    assert 1 in Holders(w.policies, Ingress, "ns_p");
    assert Dropped(w, Ingress, pkt, inBlock);
    PortLegalRun(h, pes);
    CompilationPreservesMeaning(h, Events(pes), Ingress, pkt, inBlock);
    assert SwitchAcls(PortRun(h, MatchText, pes), b, Ingress) == iset{};
    if AllMeet(h, pes) {
      PerPortPreservesMeaning(h, pes, Ingress, pkt, inBlock);
    }
  }

  /** The back-ends differ after a pod was selected when it had no port, and came up elsewhere. */
  lemma BackendsDiverge(h: string -> string, a: string, b: string, pkt: Packet, inBlock: (string, Ip) -> bool)
    requires GoodHash(h) && a != b && LocalPort(Ingress, pkt) == "ns_p"
    ensures PortLegal(h, StaleRun(a, b)) && !AllMeet(h, StaleRun(a, b)) && Differ(h, StaleRun(a, b), b, pkt, inBlock)
  {
    StaleTable(h, a, b);
    RowsElsewhere(h, StaleRun(a, b), a, b, pkt, inBlock);
  }

  /** They differ too after an old object is replayed for a pod that is on another node by now. */
  lemma LateReplayDiverges(h: string -> string, a: string, b: string, pkt: Packet, inBlock: (string, Ip) -> bool)
    requires GoodHash(h) && a != b && LocalPort(Ingress, pkt) == "ns_p"
    ensures PortLegal(h, LateRun(a, b)) && !AllMeet(h, LateRun(a, b)) && Differ(h, LateRun(a, b), b, pkt, inBlock)
  {
    LateTable(h, a, b);
    RowsElsewhere(h, LateRun(a, b), a, b, pkt, inBlock);
  }
}
