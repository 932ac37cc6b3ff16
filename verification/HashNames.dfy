/** Only the names in use are hashed: a hash that has no collisions among the names of a run behaves in
    that run like one that has none at all. */
module HashNames {
  import opened Acl
  import opened MatchReader
  import opened Gress
  import opened PolicyWorld
  import opened PolicyMemory
  import opened AddressSets
  import opened PortGroupBackend
  import opened PortGroupMeaning
  import opened AclRows
  import opened PerPortBackend
  import opened PerPortRuns

  // ------------------------------------------------------- the names of a run

  function RuleNames(spec: PolicySpec, dir: Direction): set<string> {
    set i: nat | i < |spec.Rules(dir)| :: LocalPeerPods(spec, RuleId(dir, i))
  }

  function SpecNames(spec: PolicySpec): set<string> {
    {ReadableGroup(spec)} + RuleNames(spec, Ingress) + RuleNames(spec, Egress)
  }

  function EventNames(ev: Event): set<string> {
    match ev
    case PolicyAdd(_, spec) => SpecNames(spec)
    case PeerNsAdd(_, _, ns) => {ns}
    case PeerNsDel(_, _, ns) => {ns}
    case NamespaceAdd(ns, _) => {ns}
    case NamespaceDel(ns) => {ns}
    case NamespacePodAdd(ns, _) => {ns}
    case NamespacePodDel(ns, _) => {ns}
    case _ => {}
  }

  /** The namespaces, port groups and rule address sets of a run. */
  function Names(evs: seq<Event>): set<string> {
    if evs == [] then {} else Names(evs[..|evs| - 1]) + EventNames(evs[|evs| - 1])
  }

  /** What hashForOVN is asked for: no collisions among these names, and texts of its form. */
  ghost predicate GoodOn(h: string -> string, names: set<string>) {
    && (forall s, t | s in names && t in names && h(s) == h(t) :: s == t)
    && (forall s | s in names :: PlainName(h(s)) && h(s) != [] && h(s)[0] == 'a')
  }

  ghost predicate AgreeOn(h: string -> string, h': string -> string, names: set<string>) {
    forall s | s in names :: h(s) == h'(s)
  }

  // ------------------------------------------------------- a hash without collisions

  lemma {:induction false} LongerThanAll(h: string -> string, names: set<string>) returns (n: nat)
    ensures forall s | s in names :: |h(s)| <= n
    decreases names
  {
    n := 0;
    if names != {} {
      var s :| s in names;
      var rest := LongerThanAll(h, names - {s});
      n := if rest < |h(s)| then |h(s)| else rest;
    }
  }

  function Spelled(n: nat, s: string): string { ['a'] + seq(n, _ => '1') + Unary(s) }

  lemma SpelledOut(n: nat, s: string)
    ensures PlainName(Spelled(n, s)) && |Spelled(n, s)| > n && Spelled(n, s)[0] == 'a'
  {
    forall c | c in Spelled(n, s) ensures c == 'a' || c == '0' || c == '1' {
      if c in Unary(s) {
        UnaryDigits(s, c);
      }
    }
  }

  lemma SpelledInjective(n: nat, s: string, t: string)
    requires Spelled(n, s) == Spelled(n, t)
    ensures s == t
  {
    assert Spelled(n, s)[n + 1..] == Unary(s) && Spelled(n, t)[n + 1..] == Unary(t);
    UnaryInjective(s, t);
  }

  /** Outside the names, texts longer than all of theirs. */
  lemma ExtendHash(h: string -> string, names: set<string>) returns (h': string -> string)
    requires GoodOn(h, names)
    ensures GoodHash(h') && AgreeOn(h, h', names)
  {
    var n := LongerThanAll(h, names);
    h' := s => if s in names then h(s) else Spelled(n, s);
    forall s, t | h'(s) == h'(t) ensures s == t {
      SpelledOut(n, s);
      SpelledOut(n, t);
      if s !in names && t !in names {
        SpelledInjective(n, s, t);
      }
    }
    forall s ensures PlainName(h'(s)) && h'(s) != [] && h'(s)[0] == 'a' {
      SpelledOut(n, s);
    }
  }

  // ------------------------------------------------------- runs depend on the names only

  ghost predicate NpNames(np: Np, names: set<string>) { SpecNames(np.spec) <= names && RulesInRange(np) }

  ghost predicate MemNames(m: Mem, names: set<string>) { forall id | id in m.nps :: NpNames(m.nps[id], names) }

  lemma RuleName(spec: PolicySpec, rid: RuleId, names: set<string>)
    requires SpecNames(spec) <= names && rid.idx < |spec.Rules(rid.dir)|
    ensures LocalPeerPods(spec, rid) in names
  {
    assert LocalPeerPods(spec, RuleId(rid.dir, rid.idx)) in RuleNames(spec, rid.dir);
  }

  lemma SameRule(h: string -> string, h': string -> string, m: Mem, id: nat, rid: RuleId, names: set<string>)
    requires AgreeOn(h, h', names) && MemNames(m, names) && id in m.nps && rid.idx < |m.nps[id].spec.Rules(rid.dir)|
    ensures NewRule(h, m.nps[id].spec, rid) == NewRule(h', m.nps[id].spec, rid)
    ensures Namer(h)(m.nps[id].spec, rid) == Namer(h')(m.nps[id].spec, rid)
  {
    assert NpNames(m.nps[id], names);
    RuleName(m.nps[id].spec, rid, names);
  }

  /** The names a step asks for. */
  lemma SameMemStep(h: string -> string, h': string -> string, m: Mem, ev: Event, names: set<string>)
    requires AgreeOn(h, h', names) && MemNames(m, names) && EventNames(ev) <= names
    ensures MemStep(h, m, ev) == MemStep(h', m, ev)
  {
    if ev.RuleAdd? && Live(m, ev.id) && ev.rid.idx < |m.nps[ev.id].spec.Rules(ev.rid.dir)| {
      SameRule(h, h', m, ev.id, ev.rid, names);
    } else if ev.PolicyAdd? {
      assert ReadableGroup(ev.spec) in names;
    }
  }

  lemma SameAclStep(h: string -> string, h': string -> string, m: Mem, db: Db, ev: Event, names: set<string>)
    requires AgreeOn(h, h', names) && MemNames(m, names) && EventNames(ev) <= names
    ensures AclStep(h, MatchText, m, db.acls, db.ready, ev) == AclStep(h', MatchText, m, db.acls, db.ready, ev)
    ensures GroupStep(h, m, db.groups, db.ready, ev) == GroupStep(h', m, db.groups, db.ready, ev)
  {
    if ev.RuleAdd? && Live(m, ev.id) && ev.rid.idx < |m.nps[ev.id].spec.Rules(ev.rid.dir)| {
      SameRule(h, h', m, ev.id, ev.rid, names);
    } else if ev.PolicyAdd? {
      assert ReadableGroup(ev.spec) in names;
    }
  }

  lemma SamePeerSets(h: string -> string, h': string -> string, m: Mem, id: nat, names: set<string>)
    requires AgreeOn(h, h', names) && MemNames(m, names) && id in m.nps
    ensures PeerSets(Namer(h), m.nps[id]) == PeerSets(Namer(h'), m.nps[id])
  {
    assert NpNames(m.nps[id], names);
    forall rid | rid in m.nps[id].rules ensures Namer(h)(m.nps[id].spec, rid) == Namer(h')(m.nps[id].spec, rid) {
      SameRule(h, h', m, id, rid, names);
    }
  }

  lemma SameLiveRule(h: string -> string, h': string -> string, m: Mem, id: nat, rid: RuleId, names: set<string>)
    requires AgreeOn(h, h', names) && MemNames(m, names) && LiveRule(m, id, rid)
    ensures Namer(h)(m.nps[id].spec, rid) == Namer(h')(m.nps[id].spec, rid)
  {
    assert NpNames(m.nps[id], names);
    SameRule(h, h', m, id, rid, names);
  }

  lemma SameSetDelete(h: string -> string, h': string -> string, m: Mem, sets: map<string, set<Ip>>, ev: Event,
                      names: set<string>)
    requires AgreeOn(h, h', names) && MemNames(m, names) && ev.PolicyDelete?
    ensures SetStep(h, Namer(h), m, sets, ev) == SetStep(h', Namer(h'), m, sets, ev)
  {
    if (ev.ns, ev.name) in m.byKey && m.byKey[(ev.ns, ev.name)] in m.nps {
      SamePeerSets(h, h', m, m.byKey[(ev.ns, ev.name)], names);
    }
  }

  lemma SamePeerStep(h: string -> string, h': string -> string, m: Mem, sets: map<string, set<Ip>>, ev: Event,
                     names: set<string>)
    requires AgreeOn(h, h', names) && MemNames(m, names) && (ev.RuleAdd? || ev.PeerPodAdd? || ev.PeerPodDel?)
    ensures SetStep(h, Namer(h), m, sets, ev) == SetStep(h', Namer(h'), m, sets, ev)
  {
    if ev.RuleAdd? && Live(m, ev.id) && NeedsSet(m.nps[ev.id].spec, ev.rid) {
      SameRule(h, h', m, ev.id, ev.rid, names);
    } else if !ev.RuleAdd? && LiveRule(m, ev.id, ev.rid) {
      SameLiveRule(h, h', m, ev.id, ev.rid, names);
    }
  }

  lemma SameSetStep(h: string -> string, h': string -> string, m: Mem, sets: map<string, set<Ip>>, ev: Event,
                    names: set<string>)
    requires AgreeOn(h, h', names) && MemNames(m, names) && EventNames(ev) <= names
    ensures SetStep(h, Namer(h), m, sets, ev) == SetStep(h', Namer(h'), m, sets, ev)
  {
    if ev.PolicyDelete? {
      SameSetDelete(h, h', m, sets, ev, names);
    } else if ev.RuleAdd? || ev.PeerPodAdd? || ev.PeerPodDel? {
      SamePeerStep(h, h', m, sets, ev, names);
    }
  }

  predicate OfPeer(ev: Event) { ev.PeerNsAdd? || ev.PeerNsDel? || ev.PeerPodAdd? || ev.PeerPodDel? }

  lemma PutKeeps(m: Mem, at: nat, rid: RuleId, r: Rule, ips: set<Ip>, m': Mem, id: nat)
    requires at in m.nps && m' == PutMemRule(m, at, rid, r, ips) && id in m.nps
    ensures id in m'.nps && m'.nps[id].spec == m.nps[id].spec
    ensures forall k | k in m'.nps[id].rules :: k in m.nps[id].rules || (id == at && k == rid)
  {
  }

  lemma RuleStepKeeps(h: string -> string, m: Mem, ev: Event, m': Mem, id: nat, names: set<string>)
    requires (ev.RuleAdd? || OfPeer(ev)) && m' == MemStep(h, m, ev) && id in m.nps && NpNames(m.nps[id], names)
    ensures id in m'.nps && NpNames(m'.nps[id], names)
  {
    if ev.RuleAdd? && Live(m, ev.id) && ev.rid.idx < |m.nps[ev.id].spec.Rules(ev.rid.dir)| {
      PutKeeps(m, ev.id, ev.rid, NewRule(h, m.nps[ev.id].spec, ev.rid), {}, m', id);
    } else if OfPeer(ev) && LiveRule(m, ev.id, ev.rid) {
      var np' := m'.nps[ev.id];
      assert m' == PutMemRule(m, ev.id, ev.rid, np'.rules[ev.rid], np'.addressMaps[ev.rid]);
      PutKeeps(m, ev.id, ev.rid, np'.rules[ev.rid], np'.addressMaps[ev.rid], m', id);
    }
  }

  lemma OtherStepKeeps(h: string -> string, m: Mem, ev: Event, m': Mem, id: nat)
    requires !ev.RuleAdd? && !OfPeer(ev) && m' == MemStep(h, m, ev) && id in m.nps
    ensures id in m'.nps && m'.nps[id].spec == m.nps[id].spec && m'.nps[id].rules == m.nps[id].rules
  {
  }

  lemma KeepsNp(h: string -> string, m: Mem, ev: Event, m': Mem, id: nat, names: set<string>)
    requires m' == MemStep(h, m, ev) && id in m.nps && NpNames(m.nps[id], names)
    ensures id in m'.nps && NpNames(m'.nps[id], names)
  {
    if ev.RuleAdd? || OfPeer(ev) {
      RuleStepKeeps(h, m, ev, m', id, names);
    } else {
      OtherStepKeeps(h, m, ev, m', id);
    }
  }

  lemma NewNp(h: string -> string, m: Mem, ev: Event, m': Mem, id: nat)
    requires m' == MemStep(h, m, ev) && id !in m.nps && id in m'.nps
    ensures ev.PolicyAdd? && m'.nps[id].spec == ev.spec && m'.nps[id].rules == map[]
  {
  }

  lemma KeepsNames(h: string -> string, m: Mem, ev: Event, names: set<string>)
    requires MemNames(m, names) && EventNames(ev) <= names
    ensures MemNames(MemStep(h, m, ev), names)
  {
    var m' := MemStep(h, m, ev);
    forall id | id in m'.nps ensures NpNames(m'.nps[id], names) {
      if id in m.nps {
        KeepsNp(h, m, ev, m', id, names);
      } else {
        NewNp(h, m, ev, m', id);
      }
    }
  }

  lemma {:induction false} SameRuns(h: string -> string, h': string -> string, evs: seq<Event>, names: set<string>)
    requires AgreeOn(h, h', names) && Names(evs) <= names
    ensures MemRun(h, evs) == MemRun(h', evs) && DbRun(h, MatchText, evs) == DbRun(h', MatchText, evs)
    ensures MemNames(MemRun(h, evs), names)
  {
    if evs != [] {
      var n := |evs| - 1;
      SameRuns(h, h', evs[..n], names);
      var m, db := MemRun(h, evs[..n]), DbRun(h, MatchText, evs[..n]);
      SameMemStep(h, h', m, evs[n], names);
      SameAclStep(h, h', m, db, evs[n], names);
      SameSetStep(h, h', m, db.sets, evs[n], names);
      KeepsNames(h, m, evs[n], names);
    }
  }

  /** The meaning of the ACLs under a hash that may have collisions, but none among the names of the
      run: they still drop a packet exactly when the policies do. */
  lemma MeaningOnNames(h: string -> string, evs: seq<Event>, dir: Direction, pkt: Packet, inBlock: (string, Ip) -> bool)
    requires GoodOn(h, Names(evs)) && LegalRun(evs) && LocalPort(dir, pkt) in Run(evs).alive
    ensures var db := DbRun(h, MatchText, evs);
            && (MayDrop(DirAcls(db.acls, dir), pkt, EnvOf(db, inBlock)) <==> Dropped(Run(evs), dir, pkt, inBlock))
            && (MayPass(DirAcls(db.acls, dir), pkt, EnvOf(db, inBlock)) <==> !Dropped(Run(evs), dir, pkt, inBlock))
            && (PlainExcepts(Run(evs)) ==>
                  (TextDrops(DirAcls(db.acls, dir), pkt, EnvOf(db, inBlock)) <==> Dropped(Run(evs), dir, pkt, inBlock)))
  {
    var h' := ExtendHash(h, Names(evs));
    SameRuns(h, h', evs, Names(evs));
    CompilationPreservesMeaning(h', evs, dir, pkt, inBlock);
  }

  // ------------------------------------------------------- the per-port back-end

  lemma SamePortStep(h: string -> string, h': string -> string, m: Mem, t: Table, pe: PortEvent, names: set<string>)
    requires AgreeOn(h, h', names) && MemNames(m, names) && EventNames(pe.ev) <= names
    ensures PortMemStep(h, m, pe) == PortMemStep(h', m, pe)
    ensures PortStep(h, MatchText, m, t, pe) == PortStep(h', MatchText, m, t, pe)
  {
    SameMemStep(h, h', m, pe.ev, names);
  }

  lemma TakenNp(h: string -> string, m: Mem, pe: PortEvent, m': Mem, id: nat)
    requires pe.ev.LocalPodAdd? && m' == PortMemStep(h, m, pe) && id in m'.nps
    ensures id in m.nps && m'.nps[id].spec == m.nps[id].spec && m'.nps[id].rules == m.nps[id].rules
  {
  }

  lemma KeepsPortNames(h: string -> string, m: Mem, pe: PortEvent, names: set<string>)
    requires MemNames(m, names) && EventNames(pe.ev) <= names
    ensures MemNames(PortMemStep(h, m, pe), names)
  {
    if !pe.ev.LocalPodAdd? {
      KeepsNames(h, m, pe.ev, names);
    } else {
      var m' := PortMemStep(h, m, pe);
      forall id | id in m'.nps ensures NpNames(m'.nps[id], names) {
        TakenNp(h, m, pe, m', id);
        assert NpNames(m.nps[id], names);
      }
    }
  }

  lemma {:induction false} SamePortRuns(h: string -> string, h': string -> string, pes: seq<PortEvent>,
                                        names: set<string>)
    requires AgreeOn(h, h', names) && Names(Events(pes)) <= names
    ensures PortMemRun(h, pes) == PortMemRun(h', pes) && PortRun(h, MatchText, pes) == PortRun(h', MatchText, pes)
    ensures MemNames(PortMemRun(h, pes), names)
    ensures PortLegal(h, pes) <==> PortLegal(h', pes)
    ensures AllMeet(h, pes) <==> AllMeet(h', pes)
  {
    if pes != [] {
      var n := |pes| - 1;
      assert pes[..n + 1] == pes;
      EventsPrefix(pes, n);
      SamePortRuns(h, h', pes[..n], names);
      SameRuns(h, h', Events(pes[..n]), names);
      var m, t := PortMemRun(h, pes[..n]), PortRun(h, MatchText, pes[..n]);
      SamePortStep(h, h', m, t, pes[n], names);
      KeepsPortNames(h, m, pes[n], names);
    }
  }

  /** The same of the per-port ACLs. */
  lemma PortMeaningOnNames(h: string -> string, pes: seq<PortEvent>, dir: Direction, pkt: Packet,
                           inBlock: (string, Ip) -> bool)
    requires GoodOn(h, Names(Events(pes))) && PortLegal(h, pes) && AllMeet(h, pes)
    requires LocalPort(dir, pkt) in Run(Events(pes)).alive
    ensures var w, sets := Run(Events(pes)), DbRun(h, MatchText, Events(pes)).sets;
            var acls, env := SwitchAcls(PortRun(h, MatchText, pes), w.alive[LocalPort(dir, pkt)].node, dir),
                             Env(sets, map[], inBlock);
            && (MayDrop(acls, pkt, env) <==> Dropped(w, dir, pkt, inBlock))
            && (MayPass(acls, pkt, env) <==> !Dropped(w, dir, pkt, inBlock))
            && (PlainExcepts(w) && PlainPorts(w) ==> (TextDrops(acls, pkt, env) <==> Dropped(w, dir, pkt, inBlock)))
  {
    var names := Names(Events(pes));
    var h' := ExtendHash(h, names);
    SameRuns(h, h', Events(pes), names);
    SamePortRuns(h, h', pes, names);
    PerPortPreservesMeaning(h', pes, dir, pkt, inBlock);
  }
}
