/** The ACL table under the port-group back-end: exactly the rows the live policies call for. */
module AclTable {
  import opened Strings
  import opened Acl
  import opened Gress
  import opened PolicyWorld
  import opened PolicyMemory
  import opened AclRows

  function OwnerOf(np: Np): Owner { Owner(np.spec.Key(), GroupPort(np.group), np.group, Everywhere) }

  function DenyGroup(dir: Direction): string { if dir == Ingress then "ingressDefaultDeny" else "egressDefaultDeny" }

  function DenyRow(dir: Direction): Row {
    Row(Acl(DEFAULT_DENY_PRIORITY, Drop, AclMatch(dir, Ip4, NoneMatch, GroupPort(DenyGroup(dir)))), DenyIds(dir),
        DenyGroup(dir))
  }

  /** destroy port_group: its rows are no longer referenced and disappear. */
  function RemoveOwned(t: Table, group: string): Table {
    t.(rows := map i | i in t.rows && t.rows[i].owner != group :: t.rows[i])
  }

  // ------------------------------------------------------- the rows the policies call for

  ghost predicate IsRuleRow(nps: map<nat, Np>, id: nat, rid: RuleId, k: Kind, row: Row) {
    && id in nps && !nps[id].deleted && rid in nps[id].rules && HasKind(nps[id].rules[rid], k)
    && row == RowOf(OwnerOf(nps[id]), rid, nps[id].rules[rid], k)
  }

  ghost predicate IsExpected(nps: map<nat, Np>, ready: bool, row: Row) {
    (exists id: nat, rid, k :: IsRuleRow(nps, id, rid, k, row)) || (ready && exists dir :: row == DenyRow(dir))
  }

  ghost function Expected(nps: map<nat, Np>, ready: bool): iset<Row> {
    iset row | IsExpected(nps, ready, row)
  }

  /** What the proofs about the database use of the memory. */
  ghost predicate MemOk(nps: map<nat, Np>) {
    && (forall id | id in nps && !nps[id].deleted :: NpOk(nps[id]))
    && (forall i, j | i in nps && j in nps && !nps[i].deleted && !nps[j].deleted ::
          nps[i].spec.Key() == nps[j].spec.Key() || nps[i].group == nps[j].group ==> i == j)
  }

  ghost predicate NpOk(np: Np) {
    && np.group != DenyGroup(Ingress) && np.group != DenyGroup(Egress)
    && (forall rid | rid in np.rules :: PlainRule(np.rules[rid]))
  }

  lemma RuleRowIds(nps: map<nat, Np>, i: nat, a: RuleId, k: Kind, r: Row, j: nat, b: RuleId, l: Kind, s: Row)
    requires MemOk(nps) && IsRuleRow(nps, i, a, k, r) && IsRuleRow(nps, j, b, l, s) && r.ids == s.ids
    ensures i == j && a == b && r == s
  {
    assert nps[i].spec.Key() == nps[j].spec.Key();
  }

  lemma RuleRowKnown(nps: map<nat, Np>, ready: bool, r: Row) returns (i: nat, a: RuleId, k: Kind)
    requires IsExpected(nps, ready, r) && !r.ids.DenyIds?
    ensures IsRuleRow(nps, i, a, k, r)
  {
    i, a, k :| IsRuleRow(nps, i, a, k, r);
  }

  lemma DenyRowKnown(nps: map<nat, Np>, ready: bool, r: Row)
    requires IsExpected(nps, ready, r) && r.ids.DenyIds?
    ensures r == DenyRow(r.ids.dir)
  {
  }

  lemma ExpectedIds(nps: map<nat, Np>, ready: bool)
    requires MemOk(nps)
    ensures SameIdsSameRow(Expected(nps, ready))
  {
    forall r, s | IsExpected(nps, ready, r) && IsExpected(nps, ready, s) && r.ids == s.ids ensures r == s {
      if r.ids.DenyIds? {
        DenyRowKnown(nps, ready, r);
        DenyRowKnown(nps, ready, s);
      } else {
        var i, a, k := RuleRowKnown(nps, ready, r);
        var j, b, l := RuleRowKnown(nps, ready, s);
        RuleRowIds(nps, i, a, k, r, j, b, l, s);
      }
    }
  }

  /** A new rule adds its rows. */
  lemma ExpectedRuleAdd(nps: map<nat, Np>, ready: bool, id: nat, rid: RuleId, np: Np)
    requires id in nps && !nps[id].deleted && !np.deleted && OwnerOf(np) == OwnerOf(nps[id])
    requires rid !in nps[id].rules && rid in np.rules && np.rules == nps[id].rules[rid := np.rules[rid]]
    ensures Expected(nps[id := np], ready) == Expected(nps, ready) + Rows(RowList(OwnerOf(np), rid, np.rules[rid]))
  {
    forall row
      ensures row in Expected(nps[id := np], ready)
          <==> row in Expected(nps, ready) || row in RowList(OwnerOf(np), rid, np.rules[rid])
    {
      RuleAddRow(nps, ready, id, rid, np, row);
    }
  }

  lemma RuleAddRow(nps: map<nat, Np>, ready: bool, id: nat, rid: RuleId, np: Np, row: Row)
    requires id in nps && !nps[id].deleted && !np.deleted && OwnerOf(np) == OwnerOf(nps[id])
    requires rid !in nps[id].rules && rid in np.rules && np.rules == nps[id].rules[rid := np.rules[rid]]
    ensures IsExpected(nps[id := np], ready, row)
        <==> IsExpected(nps, ready, row) || row in RowList(OwnerOf(np), rid, np.rules[rid])
  {
    var nps' := nps[id := np];
    RowListElements(OwnerOf(np), rid, np.rules[rid], row);
    if i: nat, a, k :| IsRuleRow(nps', i, a, k, row) {
      assert (i, a) != (id, rid) ==> IsRuleRow(nps, i, a, k, row);
    }
    if i: nat, a, k :| IsRuleRow(nps, i, a, k, row) {
      assert IsRuleRow(nps', i, a, k, row);
    }
    if k :| HasKind(np.rules[rid], k) && row == RowOf(OwnerOf(np), rid, np.rules[rid], k) {
      assert IsRuleRow(nps', id, rid, k, row);
    }
  }

  ghost predicate RulesKept(nps: map<nat, Np>, nps': map<nat, Np>) {
    && (forall id | id in nps && !nps[id].deleted ::
          id in nps' && !nps'[id].deleted && OwnerOf(nps'[id]) == OwnerOf(nps[id]) && nps'[id].rules == nps[id].rules)
    && (forall id | id in nps' && !nps'[id].deleted :: (id in nps && !nps[id].deleted) || nps'[id].rules == map[])
  }

  /** Changes that keep every live policy's key, group and rules keep the expected rows. */
  lemma ExpectedSame(nps: map<nat, Np>, nps': map<nat, Np>, ready: bool)
    requires RulesKept(nps, nps')
    ensures Expected(nps', ready) == Expected(nps, ready)
  {
    forall row ensures row in Expected(nps', ready) <==> row in Expected(nps, ready) {
      if i: nat, a, k :| IsRuleRow(nps', i, a, k, row) {
        assert IsRuleRow(nps, i, a, k, row);
      }
      if i: nat, a, k :| IsRuleRow(nps, i, a, k, row) {
        assert IsRuleRow(nps', i, a, k, row);
      }
    }
  }

  /** Destroying a policy's group leaves exactly the rows of the other policies. */
  lemma RemoveOwnedOk(t: Table, nps: map<nat, Np>, ready: bool, id: nat)
    requires MemOk(nps) && TableOk(t, Expected(nps, ready)) && id in nps && !nps[id].deleted
    ensures TableOk(RemoveOwned(t, nps[id].group), Expected(nps[id := nps[id].(deleted := true)], ready))
  {
    var group, nps' := nps[id].group, nps[id := nps[id].(deleted := true)];
    var t' := RemoveOwned(t, group);
    var e, e' := Expected(nps, ready), Expected(nps', ready);
    forall row ensures row in e' <==> row in e && row.owner != group {
      OwnerDecides(nps, ready, id, row);
    }
    forall r | r in e' ensures exists i | i in t'.rows :: t'.rows[i] == r {
      var i :| i in t.rows && t.rows[i] == r;
      assert t'.rows[i] == r;
    }
  }

  lemma OwnerDecides(nps: map<nat, Np>, ready: bool, id: nat, row: Row)
    requires MemOk(nps) && id in nps && !nps[id].deleted
    ensures row in Expected(nps[id := nps[id].(deleted := true)], ready)
       <==> row in Expected(nps, ready) && row.owner != nps[id].group
  {
    var group, nps' := nps[id].group, nps[id := nps[id].(deleted := true)];
    if i: nat, a, k :| IsRuleRow(nps', i, a, k, row) {
      assert IsRuleRow(nps, i, a, k, row);
    }
    if i: nat, a, k :| IsRuleRow(nps, i, a, k, row) {
      if i != id {
        assert IsRuleRow(nps', i, a, k, row);
      }
    }
  }

  // ------------------------------------------------------- rewriting a rule's peers

  lemma AllowRowOfRule(nps: map<nat, Np>, ready: bool, id: nat, rid: RuleId, row: Row)
    requires MemOk(nps) && IsExpected(nps, ready, row) && id in nps && !nps[id].deleted && rid in nps[id].rules
    requires Concerns(OwnerOf(nps[id]), rid, row.ids)
    ensures row == RowOf(OwnerOf(nps[id]), rid, nps[id].rules[rid],
                         if row.ids.cidr then CidrKind(row.ids.l4) else PeersKind(row.ids.l4))
    ensures row.ids.cidr ==> nps[id].rules[rid].cidr != ""
  {
    var j: nat, b, k :| IsRuleRow(nps, j, b, k, row);
    assert nps[j].spec.Key() == nps[id].spec.Key();
  }

  lemma TableRuleRows(t: Table, nps: map<nat, Np>, ready: bool, id: nat, rid: RuleId, newPeers: seq<string>)
    requires MemOk(nps) && TableOk(t, Expected(nps, ready)) && id in nps && !nps[id].deleted && rid in nps[id].rules
    ensures RuleRowsAre(t, OwnerOf(nps[id]), rid, nps[id].rules[rid], [], newPeers)
  {
    var o, r := OwnerOf(nps[id]), nps[id].rules[rid];
    forall i | i in t.rows && Concerns(o, rid, t.rows[i].ids)
      ensures t.rows[i] == RowOf(o, rid, r,
                                 if t.rows[i].ids.cidr then CidrKind(t.rows[i].ids.l4) else PeersKind(t.rows[i].ids.l4))
      ensures t.rows[i].ids.cidr ==> r.cidr != ""
    {
      AllowRowOfRule(nps, ready, id, rid, t.rows[i]);
    }
    forall l4 | l4 in L4Matches(r.ports)
      ensures exists i | i in t.rows :: t.rows[i].ids == AllowIds(l4, false, o.key, rid, o.at)
    {
      PeersRowStored(t, nps, ready, id, rid, l4);
    }
  }

  lemma PeersRowStored(t: Table, nps: map<nat, Np>, ready: bool, id: nat, rid: RuleId, l4: L4Match)
    requires TableOk(t, Expected(nps, ready)) && id in nps && !nps[id].deleted && rid in nps[id].rules
             && l4 in L4Matches(nps[id].rules[rid].ports)
    ensures exists i | i in t.rows :: t.rows[i].ids == AllowIds(l4, false, nps[id].spec.Key(), rid, Everywhere)
  {
    var row := RowOf(OwnerOf(nps[id]), rid, nps[id].rules[rid], PeersKind(l4));
    assert IsRuleRow(nps, id, rid, PeersKind(l4), row);
    assert row in Expected(nps, ready);
  }

  function WithPeers(np: Np, rid: RuleId, peers: seq<string>): Np
    requires rid in np.rules
  {
    np.(rules := np.rules[rid := np.rules[rid].(peers := peers)])
  }

  /** The rewritten table holds exactly the rows printed from the new list. */
  lemma RewriteOk(t: Table, nps: map<nat, Np>, ready: bool, id: nat, rid: RuleId, peers: seq<string>)
    requires MemOk(nps) && TableOk(t, Expected(nps, ready)) && id in nps && !nps[id].deleted && rid in nps[id].rules
    ensures TableOk(Rewrite(t, OwnerOf(nps[id]), rid, L4Matches(nps[id].rules[rid].ports), PeersL3(peers)),
                    Expected(nps[id := WithPeers(nps[id], rid, peers)], ready))
  {
    var f := Rewriter(OwnerOf(nps[id]), rid, L4Matches(nps[id].rules[rid].ports), PeersL3(peers));
    var e, e' := Expected(nps, ready), Expected(nps[id := WithPeers(nps[id], rid, peers)], ready);
    ExpectedRewritten(nps, ready, id, rid, peers, f, e, e');
    MapTableOk(t, Rewrite(t, OwnerOf(nps[id]), rid, L4Matches(nps[id].rules[rid].ports), PeersL3(peers)), f, e, e');
  }

  function Rewriter(o: Owner, rid: RuleId, l4s: seq<L4Match>, l3: L3Match): Row -> Row {
    row => RewriteRow(row, o, rid, l4s, l3)
  }

  lemma ExpectedRewritten(nps: map<nat, Np>, ready: bool, id: nat, rid: RuleId, peers: seq<string>, f: Row -> Row,
                          e: iset<Row>, e': iset<Row>)
    requires MemOk(nps) && id in nps && !nps[id].deleted && rid in nps[id].rules
    requires f == Rewriter(OwnerOf(nps[id]), rid, L4Matches(nps[id].rules[rid].ports), PeersL3(peers))
    requires e == Expected(nps, ready) && e' == Expected(nps[id := WithPeers(nps[id], rid, peers)], ready)
    ensures forall r | r in e :: f(r) in e' && f(r).ids == r.ids
    ensures forall r' | r' in e' :: exists r | r in e :: f(r) == r'
  {
    forall row | row in e ensures f(row) in e' {
      NewRowExpected(nps, ready, id, rid, peers, row);
    }
    forall row' | row' in e' ensures exists row | row in e :: f(row) == row' {
      var row := OldRow(nps, ready, id, rid, peers, row');
      assert row in e && f(row) == row';
    }
  }

  lemma NewRowExpected(nps: map<nat, Np>, ready: bool, id: nat, rid: RuleId, peers: seq<string>, row: Row)
    requires MemOk(nps) && IsExpected(nps, ready, row) && id in nps && !nps[id].deleted && rid in nps[id].rules
    ensures IsExpected(nps[id := WithPeers(nps[id], rid, peers)], ready,
                       RewriteRow(row, OwnerOf(nps[id]), rid, L4Matches(nps[id].rules[rid].ports), PeersL3(peers)))
  {
    var nps' := nps[id := WithPeers(nps[id], rid, peers)];
    if j: nat, b, k :| IsRuleRow(nps, j, b, k, row) {
      RuleRowRewritten(nps, id, rid, peers, j, b, k, row);
    }
  }

  /** The row of a rule after the change is the old row, rewritten if it is one of the rule's. */
  lemma RuleRowRewritten(nps: map<nat, Np>, id: nat, rid: RuleId, peers: seq<string>, j: nat, b: RuleId, k: Kind,
                         row: Row)
    requires MemOk(nps) && IsRuleRow(nps, j, b, k, row) && id in nps && !nps[id].deleted && rid in nps[id].rules
    ensures IsRuleRow(nps[id := WithPeers(nps[id], rid, peers)], j, b, k,
                      RewriteRow(row, OwnerOf(nps[id]), rid, L4Matches(nps[id].rules[rid].ports), PeersL3(peers)))
  {
    assert nps[j].spec.Key() == nps[id].spec.Key() ==> j == id;
  }

  lemma OldRow(nps: map<nat, Np>, ready: bool, id: nat, rid: RuleId, peers: seq<string>, row': Row) returns (row: Row)
    requires MemOk(nps) && id in nps && !nps[id].deleted && rid in nps[id].rules
    requires IsExpected(nps[id := WithPeers(nps[id], rid, peers)], ready, row')
    ensures IsExpected(nps, ready, row)
    ensures RewriteRow(row, OwnerOf(nps[id]), rid, L4Matches(nps[id].rules[rid].ports), PeersL3(peers)) == row'
  {
    row := row';
    var nps' := nps[id := WithPeers(nps[id], rid, peers)];
    if j: nat, b, k :| IsRuleRow(nps', j, b, k, row') {
      row := RowOf(OwnerOf(nps[j]), b, nps[j].rules[b], k);
      assert IsRuleRow(nps, j, b, k, row);
      RuleRowRewritten(nps, id, rid, peers, j, b, k, row);
    }
  }

  // ------------------------------------------------------- facts about the memory

  lemma PeerNamesPlain(h: string -> string, spec: PolicySpec, rid: RuleId, w: WRule, r: Rule)
    requires GoodHash(h) && RuleSim(h, spec, rid, w, r)
    ensures forall n | n in r.peers :: PlainName(n)
    ensures r.peers == [] <==> w.spec.peers == []
  {
    assert |r.peers| > 0 ==> r.peers[0] in Elements(r.peers);
    forall n | n in r.peers ensures PlainName(n) {
      assert n in Elements(r.peers);
    }
    if w.spec.peers != [] {
      assert h(LocalPeerPods(spec, rid)) in Elements(r.peers);
    }
  }

  lemma {:induction false} LastBlockPlain(peers: seq<Peer>)
    requires forall j | 0 <= j < |peers| && peers[j].ipBlock.Some? :: PlainName(peers[j].ipBlock.value.cidr)
    ensures PlainName(LastBlock(peers).cidr)
  {
    if peers != [] && peers[|peers| - 1].ipBlock.None? {
      LastBlockPlain(peers[..|peers| - 1]);
    }
  }

  lemma NpOkOf(h: string -> string, w: World, p: Policy, np: Np)
    requires GoodHash(h) && PolicyOk(w, p) && NpSim(h, p, np)
    ensures NpOk(np)
  {
    assert np.group[0] == 'a' && DenyGroup(Ingress)[0] == 'i' && DenyGroup(Egress)[0] == 'e';
    forall rid | rid in np.rules ensures PlainRule(np.rules[rid]) {
      PeerNamesPlain(h, p.spec, rid, p.rules[rid], np.rules[rid]);
      assert RuleOk(p.spec, rid, p.rules[rid]);
      LastBlockPlain(p.rules[rid].spec.peers);
    }
  }

  lemma MemOkOf(h: string -> string, w: World, m: Mem)
    requires GoodHash(h) && WorldOk(w) && Sim(h, w, m)
    ensures MemOk(m.nps)
  {
    forall id | id in m.nps && !m.nps[id].deleted ensures NpOk(m.nps[id]) {
      NpOkOf(h, w, w.policies[id], m.nps[id]);
    }
    forall i, j | i in m.nps && j in m.nps && !m.nps[i].deleted && !m.nps[j].deleted
                  && (m.nps[i].spec.Key() == m.nps[j].spec.Key() || m.nps[i].group == m.nps[j].group)
      ensures i == j
    {
      SameGroupSamePolicy(h, w, m, i, j);
    }
  }

  lemma SameGroupSamePolicy(h: string -> string, w: World, m: Mem, i: nat, j: nat)
    requires GoodHash(h) && WorldOk(w) && Sim(h, w, m) && Live(m, i) && Live(m, j)
    requires m.nps[i].spec.Key() == m.nps[j].spec.Key() || m.nps[i].group == m.nps[j].group
    ensures i == j
  {
    var a, b := w.policies[i], w.policies[j];
    assert NpSim(h, a, m.nps[i]) && NpSim(h, b, m.nps[j]);
    assert PolicyOk(w, a) && PolicyOk(w, b);
    if m.nps[i].group == m.nps[j].group {
      ReadableGroupInjective(a.spec, b.spec);
    }
  }
}
