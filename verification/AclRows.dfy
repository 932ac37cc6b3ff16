/** ACL rows of the northbound database, for both back-ends: the rows a rule is compiled to, and
    the find, create, set and remove commands that look rows up by external-ids or by the text of
    their match. */
module AclRows {
  import opened Acl
  import opened Gress
  import opened PolicyWorld

  /** Where a row applies: to a whole port group, or to one logical port of a switch. */
  datatype At = Everywhere | OnPort(sw: string, port: string)

  /** What a row is found by: its external-ids and, for the per-port except rows, which carry no
      rule number, the blocks in its match. */
  datatype Ids =
    | AllowIds(l4: L4Match, cidr: bool, key: (string, string), rid: RuleId, at: At)
    | ExceptIds(key: (string, string), rid: RuleId)
    | PortExceptIds(dir: Direction, key: (string, string), at: At, except: seq<string>)
    | DenyIds(dir: Direction)
    | PortDenyIds(dir: Direction, ns: string, at: At)

  /** A row and the port group or logical switch that refers to it; an ACL row nothing refers to
      disappears. */
  datatype Row = Row(acl: Acl, ids: Ids, owner: string)

  datatype Table = Table(rows: map<nat, Row>, next: nat)

  datatype Kind = ExceptKind | CidrKind(l4: L4Match) | PeersKind(l4: L4Match)

  /** Whose rows these are: the policy's key, the ports they match, and what refers to them. */
  datatype Owner = Owner(key: (string, string), lport: LPortMatch, ref: string, at: At)

  /** How a match is printed; lookups see only this text. */
  type Printer = AclMatch -> string

  /** Distinct well-formed matches have distinct texts. */
  ghost predicate GoodPrinter(txt: Printer) {
    forall m, n | WellFormedAllow(m) && WellFormedAllow(n) :: txt(m) == txt(n) ==> m == n
  }

  lemma MatchTextIsGood()
    ensures GoodPrinter(MatchText)
  {
    forall m, n | WellFormedAllow(m) && WellFormedAllow(n) && MatchText(m) == MatchText(n) ensures m == n {
      MatchTextInjective(m, n);
    }
  }

  function AllowAction(dir: Direction): Action { if dir == Ingress then AllowRelated else Allow }

  function PeersMatch(o: Owner, rid: RuleId, peers: seq<string>, l4: L4Match): AclMatch {
    AclMatch(rid.dir, PeersL3(peers), l4, o.lport)
  }

  /** The ACL of one kind that a rule is compiled to, for the ports `lport` stands for. */
  function AclOf(rid: RuleId, r: Rule, k: Kind, lport: LPortMatch): Acl {
    match k
    case ExceptKind => Acl(IP_BLOCK_DENY_PRIORITY, Drop, AclMatch(rid.dir, Blocks(r.except), NoneMatch, lport))
    case CidrKind(l4) => Acl(DEFAULT_ALLOW_PRIORITY, AllowAction(rid.dir),
                             AclMatch(rid.dir, Blocks([r.cidr]), l4, lport))
    case PeersKind(l4) => Acl(DEFAULT_ALLOW_PRIORITY, AllowAction(rid.dir),
                              AclMatch(rid.dir, PeersL3(r.peers), l4, lport))
  }

  function RowOf(o: Owner, rid: RuleId, r: Rule, k: Kind): Row {
    Row(AclOf(rid, r, k, o.lport),
        match k
        case ExceptKind => if o.at.Everywhere? then ExceptIds(o.key, rid)
                           else PortExceptIds(rid.dir, o.key, o.at, r.except)
        case CidrKind(l4) => AllowIds(l4, true, o.key, rid, o.at)
        case PeersKind(l4) => AllowIds(l4, false, o.key, rid, o.at),
        o.ref)
  }

  predicate HasKind(r: Rule, k: Kind) {
    match k
    case ExceptKind => r.cidr != "" && r.except != []
    case CidrKind(l4) => r.cidr != "" && l4 in L4Matches(r.ports)
    case PeersKind(l4) => l4 in L4Matches(r.ports)
  }

  /** The kinds of row a rule gets, in the order they are created. */
  function KindList(r: Rule): seq<Kind> {
    (if HasKind(r, ExceptKind) then [ExceptKind] else []) + PortKinds(r, L4Matches(r.ports))
  }

  function PortKinds(r: Rule, l4s: seq<L4Match>): seq<Kind> {
    if l4s == [] then []
    else (if r.cidr != "" then [CidrKind(l4s[0])] else []) + [PeersKind(l4s[0])] + PortKinds(r, l4s[1..])
  }

  function KindRows(o: Owner, rid: RuleId, r: Rule, kinds: seq<Kind>): seq<Row> {
    seq(|kinds|, i requires 0 <= i < |kinds| => RowOf(o, rid, r, kinds[i]))
  }

  function RowList(o: Owner, rid: RuleId, r: Rule): seq<Row> { KindRows(o, rid, r, KindList(r)) }

  lemma {:induction false} PortKindsElements(r: Rule, l4s: seq<L4Match>, k: Kind)
    ensures k in PortKinds(r, l4s) <==> !k.ExceptKind? && k.l4 in l4s && (k.CidrKind? ==> r.cidr != "")
  {
    if l4s != [] {
      PortKindsElements(r, l4s[1..], k);
      assert forall l4 :: l4 in l4s <==> l4 == l4s[0] || l4 in l4s[1..];
    }
  }

  lemma RowListElements(o: Owner, rid: RuleId, r: Rule, row: Row)
    ensures row in RowList(o, rid, r) <==> exists k :: HasKind(r, k) && row == RowOf(o, rid, r, k)
  {
    forall k ensures k in KindList(r) <==> HasKind(r, k) {
      PortKindsElements(r, L4Matches(r.ports), k);
    }
    if k :| HasKind(r, k) && row == RowOf(o, rid, r, k) {
      assert k in KindList(r);
      var i :| 0 <= i < |KindList(r)| && KindList(r)[i] == k;
      assert RowList(o, rid, r)[i] == row;
    }
  }

  // ------------------------------------------------------- database commands

  /** The rows a find by external-ids returns; drop rows are also looked up by their match. */
  function Find(t: Table, row: Row): set<nat> {
    set i | i in t.rows && t.rows[i].ids == row.ids && (row.ids.AllowIds? || t.rows[i].acl.match_ == row.acl.match_)
  }

  /** find, then create unless something was found. */
  function AddRow(t: Table, row: Row): Table {
    if Find(t, row) != {} then t else Table(t.rows[t.next := row], t.next + 1)
  }

  function AddRows(t: Table, rows: seq<Row>): Table
    decreases |rows|
  {
    if rows == [] then t else AddRows(AddRow(t, rows[0]), rows[1..])
  }

  /** find, then remove from the switch; several ids in the find output are not a row id, and the
      remove then fails. */
  function DeleteRow(t: Table, row: Row): Table {
    if |Find(t, row)| != 1 then t else t.(rows := t.rows - Find(t, row))
  }

  function DeleteRows(t: Table, rows: seq<Row>): Table
    decreases |rows|
  {
    if rows == [] then t else DeleteRows(DeleteRow(t, rows[0]), rows[1..])
  }

  /** The external-ids in a lookup by match: policy, rule and, per port, the logical port. */
  predicate Concerns(o: Owner, rid: RuleId, ids: Ids) {
    && ids.AllowIds? && ids.key == o.key && ids.rid == rid
    && (o.at.OnPort? ==> ids.at.OnPort? && ids.at.port == o.at.port)
  }

  /** find ACL by match text and external-ids. */
  function FindByMatch(txt: Printer, t: Table, text: string, o: Owner, rid: RuleId): set<nat> {
    set i | i in t.rows && txt(t.rows[i].acl.match_) == text && Concerns(o, rid, t.rows[i].ids)
  }

  /** modifyACLAllow: several ids in the find output are not a row id, and set then fails. */
  function ModifyRow(txt: Printer, t: Table, old_: AclMatch, new_: AclMatch, o: Owner, rid: RuleId): Table {
    var found := FindByMatch(txt, t, txt(old_), o, rid);
    if |found| != 1 then t
    else t.(rows := map i | i in t.rows ::
              if i in found then t.rows[i].(acl := t.rows[i].acl.(match_ := new_)) else t.rows[i])
  }

  /** handlePeerNamespaceSelectorModify. */
  function ModifyRows(txt: Printer, t: Table, o: Owner, rid: RuleId, oldPeers: seq<string>, newPeers: seq<string>,
                      l4s: seq<L4Match>): Table
    decreases |l4s|
  {
    if l4s == [] then t
    else ModifyRows(txt,
                    ModifyRow(txt, t, PeersMatch(o, rid, oldPeers, l4s[0]), PeersMatch(o, rid, newPeers, l4s[0]), o,
                              rid),
                    o, rid, oldPeers, newPeers, l4s[1..])
  }

  // ------------------------------------------------------- a table holding exactly a set of rows

  ghost predicate TableOk(t: Table, e: iset<Row>) {
    && (forall i | i in t.rows :: i < t.next && t.rows[i] in e)
    && (forall r | r in e :: exists i | i in t.rows :: t.rows[i] == r)
    && (forall i, j | i in t.rows && j in t.rows :: t.rows[i].ids == t.rows[j].ids ==> i == j)
  }

  ghost predicate SameIdsSameRow(e: iset<Row>) { forall r, s | r in e && s in e :: r.ids == s.ids ==> r == s }

  lemma FindOne(t: Table, e: iset<Row>, row: Row)
    requires TableOk(t, e) && SameIdsSameRow(e + iset{row})
    ensures row !in e ==> Find(t, row) == {} && forall i | i in t.rows :: t.rows[i].ids != row.ids
    ensures row in e ==> exists i :: Find(t, row) == {i} && t.rows[i] == row
  {
    forall i | i in t.rows && t.rows[i].ids == row.ids ensures t.rows[i] == row {
      assert t.rows[i] in e + iset{row};
    }
    if row in e {
      var i :| i in t.rows && t.rows[i] == row;
      assert Find(t, row) == {i};
    }
  }

  lemma AddRowOk(t: Table, e: iset<Row>, row: Row)
    requires TableOk(t, e) && SameIdsSameRow(e + iset{row})
    ensures TableOk(AddRow(t, row), e + iset{row})
  {
    FindOne(t, e, row);
    var t' := AddRow(t, row);
    if row in e {
      assert e + iset{row} == e;
    } else {
      forall r | r in e + iset{row} ensures exists i | i in t'.rows :: t'.rows[i] == r {
        if r in e {
          var i :| i in t.rows && t.rows[i] == r;
          assert t'.rows[i] == r;
        } else {
          assert t'.rows[t.next] == r;
        }
      }
    }
  }

  ghost function Rows(rows: seq<Row>): iset<Row> { iset r | r in rows }

  lemma {:induction false} AddRowsOk(t: Table, e: iset<Row>, rows: seq<Row>)
    requires TableOk(t, e) && SameIdsSameRow(e + Rows(rows))
    ensures TableOk(AddRows(t, rows), e + Rows(rows))
    decreases |rows|
  {
    if rows == [] {
      assert e + Rows(rows) == e;
    } else {
      assert rows[0] in Rows(rows);
      AddRowOk(t, e, rows[0]);
      assert (e + iset{rows[0]}) + Rows(rows[1..]) == e + Rows(rows) by {
        assert forall r :: r in rows <==> r == rows[0] || r in rows[1..];
      }
      AddRowsOk(AddRow(t, rows[0]), e + iset{rows[0]}, rows[1..]);
    }
  }

  lemma DeleteRowOk(t: Table, e: iset<Row>, row: Row)
    requires TableOk(t, e) && SameIdsSameRow(e + iset{row})
    ensures TableOk(DeleteRow(t, row), e - iset{row})
  {
    FindOne(t, e, row);
    var t', e' := DeleteRow(t, row), e - iset{row};
    if row in e {
      var n :| Find(t, row) == {n} && t.rows[n] == row;
      forall r | r in e' ensures exists i | i in t'.rows :: t'.rows[i] == r {
        var i :| i in t.rows && t.rows[i] == r;
        assert t'.rows[i] == r;
      }
    } else {
      assert e' == e;
    }
  }

  lemma {:induction false} DeleteRowsOk(t: Table, e: iset<Row>, rows: seq<Row>)
    requires TableOk(t, e) && SameIdsSameRow(e + Rows(rows))
    ensures TableOk(DeleteRows(t, rows), e - Rows(rows))
    decreases |rows|
  {
    if rows == [] {
      assert e - Rows(rows) == e;
    } else {
      assert rows[0] in Rows(rows);
      DeleteRowOk(t, e, rows[0]);
      assert (e - iset{rows[0]}) - Rows(rows[1..]) == e - Rows(rows) by {
        assert forall r :: r in rows <==> r == rows[0] || r in rows[1..];
      }
      DeleteRowsOk(DeleteRow(t, rows[0]), e - iset{rows[0]}, rows[1..]);
    }
  }

  /** Mapping every row by an ids-preserving function maps the set of rows. */
  lemma MapTableOk(t: Table, t': Table, f: Row -> Row, e: iset<Row>, e': iset<Row>)
    requires TableOk(t, e) && t'.next == t.next && t'.rows.Keys == t.rows.Keys
    requires forall i | i in t.rows :: t'.rows[i] == f(t.rows[i])
    requires forall r | r in e :: f(r) in e' && f(r).ids == r.ids
    requires forall r' | r' in e' :: exists r | r in e :: f(r) == r'
    ensures TableOk(t', e')
  {
    forall i | i in t'.rows ensures t'.rows[i] in e' && t'.rows[i].ids == t.rows[i].ids {
      assert t.rows[i] in e;
    }
    forall r' | r' in e' ensures exists i | i in t'.rows :: t'.rows[i] == r' {
      var r :| r in e && f(r) == r';
      var i :| i in t.rows && t.rows[i] == r;
      assert t'.rows[i] == r';
    }
  }

  // ------------------------------------------------------- rewriting the matches of a rule

  ghost predicate PlainRule(r: Rule) { PlainName(r.cidr) && forall n | n in r.peers :: PlainName(n) }

  /** Whether a row is the peers row of a rule for one of the given port clauses. */
  predicate IsPeersRow(row: Row, o: Owner, rid: RuleId, l4s: seq<L4Match>) {
    row.ids.AllowIds? && !row.ids.cidr && row.ids.key == o.key && row.ids.rid == rid && row.ids.at == o.at
    && row.ids.l4 in l4s
  }

  function RewriteRow(row: Row, o: Owner, rid: RuleId, l4s: seq<L4Match>, l3: L3Match): Row {
    if IsPeersRow(row, o, rid, l4s) then row.(acl := row.acl.(match_ := row.acl.match_.(l3 := l3))) else row
  }

  function Rewrite(t: Table, o: Owner, rid: RuleId, l4s: seq<L4Match>, l3: L3Match): Table {
    t.(rows := map i | i in t.rows :: RewriteRow(t.rows[i], o, rid, l4s, l3))
  }

  ghost predicate RuleRowsAre(t: Table, o: Owner, rid: RuleId, r: Rule, done: seq<L4Match>, newPeers: seq<string>) {
    && (forall i | i in t.rows && Concerns(o, rid, t.rows[i].ids) ::
          var l4 := t.rows[i].ids.l4;
          t.rows[i] == RowOf(o, rid, if l4 in done then r.(peers := newPeers) else r,
                             if t.rows[i].ids.cidr then CidrKind(l4) else PeersKind(l4))
          && (t.rows[i].ids.cidr ==> r.cidr != ""))
    && (forall l4 | l4 in L4Matches(r.ports) ::
          exists i | i in t.rows :: t.rows[i].ids == AllowIds(l4, false, o.key, rid, o.at))
    && (forall i, j | i in t.rows && j in t.rows :: t.rows[i].ids == t.rows[j].ids ==> i == j)
  }

  /** One lookup by old text finds exactly the row of that rule and port clause, unless that row
      was rewritten already. */
  lemma FindExactly(txt: Printer, t: Table, o: Owner, rid: RuleId, r: Rule, done: seq<L4Match>, newPeers: seq<string>,
                    l4: L4Match, i: nat)
    requires GoodPrinter(txt) && RuleRowsAre(t, o, rid, r, done, newPeers) && PlainRule(r)
             && PlainRule(r.(peers := newPeers))
    requires r.peers != [] && newPeers != [] && r.peers != newPeers && i in t.rows
    ensures i in FindByMatch(txt, t, txt(PeersMatch(o, rid, r.peers, l4)), o, rid)
       <==> t.rows[i].ids == AllowIds(l4, false, o.key, rid, o.at) && l4 !in done
  {
    var row := t.rows[i];
    if Concerns(o, rid, row.ids) {
      var old_ := PeersMatch(o, rid, r.peers, l4);
      assert WellFormedAllow(old_);
      assert WellFormedAllow(row.acl.match_);
      assert txt(row.acl.match_) == txt(old_) ==> row.acl.match_ == old_;
    }
  }

  lemma ModifyRowOk(txt: Printer, t: Table, o: Owner, rid: RuleId, r: Rule, done: seq<L4Match>, newPeers: seq<string>,
                    l4: L4Match)
    requires GoodPrinter(txt) && RuleRowsAre(t, o, rid, r, done, newPeers) && PlainRule(r)
             && PlainRule(r.(peers := newPeers))
    requires r.peers != [] && newPeers != [] && r.peers != newPeers && l4 in L4Matches(r.ports)
    ensures var t' := ModifyRow(txt, t, PeersMatch(o, rid, r.peers, l4), PeersMatch(o, rid, newPeers, l4), o, rid);
            t' == Rewrite(t, o, rid, [l4], PeersL3(newPeers)) && RuleRowsAre(t', o, rid, r, done + [l4], newPeers)
  {
    var old_, new_ := PeersMatch(o, rid, r.peers, l4), PeersMatch(o, rid, newPeers, l4);
    var t' := ModifyRow(txt, t, old_, new_, o, rid);
    var n :| n in t.rows && t.rows[n].ids == AllowIds(l4, false, o.key, rid, o.at);
    forall i | i in t.rows ensures i in FindByMatch(txt, t, txt(old_), o, rid) <==> i == n && l4 !in done {
      FindExactly(txt, t, o, rid, r, done, newPeers, l4, i);
    }
    var found := FindByMatch(txt, t, txt(old_), o, rid);
    assert found == if l4 in done then {} else {n};
    forall i | i in t.rows ensures t'.rows[i] == Rewrite(t, o, rid, [l4], PeersL3(newPeers)).rows[i] {
      assert IsPeersRow(t.rows[i], o, rid, [l4]) <==> i == n;
    }
    assert t' == Rewrite(t, o, rid, [l4], PeersL3(newPeers));
    RewriteKeeps(t, t', o, rid, r, done, newPeers, l4);
  }

  lemma RewriteKeeps(t: Table, t': Table, o: Owner, rid: RuleId, r: Rule, done: seq<L4Match>, newPeers: seq<string>,
                     l4: L4Match)
    requires RuleRowsAre(t, o, rid, r, done, newPeers)
    requires t' == Rewrite(t, o, rid, [l4], PeersL3(newPeers))
    ensures RuleRowsAre(t', o, rid, r, done + [l4], newPeers)
  {
    assert forall i | i in t.rows :: t'.rows[i].ids == t.rows[i].ids;
    forall m | m in L4Matches(r.ports)
      ensures exists i | i in t'.rows :: t'.rows[i].ids == AllowIds(m, false, o.key, rid, o.at)
    {
      var i :| i in t.rows && t.rows[i].ids == AllowIds(m, false, o.key, rid, o.at);
      assert t'.rows[i].ids == AllowIds(m, false, o.key, rid, o.at);
    }
  }

  /** The whole update rewrites every peers row of the rule and nothing else. */
  lemma {:induction false} ModifyRowsOk(txt: Printer, t: Table, o: Owner, rid: RuleId, r: Rule, done: seq<L4Match>,
                                        newPeers: seq<string>, l4s: seq<L4Match>)
    requires GoodPrinter(txt) && RuleRowsAre(t, o, rid, r, done, newPeers) && PlainRule(r)
             && PlainRule(r.(peers := newPeers))
    requires r.peers != [] && newPeers != [] && r.peers != newPeers && forall l4 | l4 in l4s :: l4 in L4Matches(r.ports)
    decreases |l4s|
    ensures ModifyRows(txt, t, o, rid, r.peers, newPeers, l4s) == Rewrite(t, o, rid, l4s, PeersL3(newPeers))
  {
    if l4s == [] {
      assert Rewrite(t, o, rid, l4s, PeersL3(newPeers)).rows == t.rows;
    } else {
      ModifyRowOk(txt, t, o, rid, r, done, newPeers, l4s[0]);
      var t' := Rewrite(t, o, rid, [l4s[0]], PeersL3(newPeers));
      ModifyRowsOk(txt, t', o, rid, r, done + [l4s[0]], newPeers, l4s[1..]);
      RewriteTwice(t, o, rid, l4s, PeersL3(newPeers));
    }
  }

  lemma RewriteTwice(t: Table, o: Owner, rid: RuleId, l4s: seq<L4Match>, l3: L3Match)
    requires l4s != []
    ensures Rewrite(Rewrite(t, o, rid, [l4s[0]], l3), o, rid, l4s[1..], l3) == Rewrite(t, o, rid, l4s, l3)
  {
    assert forall l4 :: l4 in l4s <==> l4 in [l4s[0]] || l4 in l4s[1..];
    assert Rewrite(Rewrite(t, o, rid, [l4s[0]], l3), o, rid, l4s[1..], l3).rows == Rewrite(t, o, rid, l4s, l3).rows;
  }
}
