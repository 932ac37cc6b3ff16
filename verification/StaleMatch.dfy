/** What a failed database command does to a stored match: the next update looks the row up by a
    match that was never stored (modifyACLAllow in policy.go). */
module StaleMatch {
  import opened Acl
  import opened PolicyWorld
  import opened AclRows

  /** A change of a rule's peer list, and whether the set command succeeds. */
  datatype Update = Update(peers: seq<string>, ok: bool)

  ghost predicate Printable(peers: seq<string>) { peers != [] && forall n | n in peers :: PlainName(n) }

  /** Row n is the rule's row for the port clause, printed from `peers`; the rule's other rows are
      for other clauses or for its block. */
  ghost predicate Stored(t: Table, o: Owner, rid: RuleId, l4: L4Match, n: nat, peers: seq<string>) {
    && n in t.rows && Concerns(o, rid, t.rows[n].ids) && t.rows[n].acl.match_ == PeersMatch(o, rid, peers, l4)
    && Printable(peers)
    && forall i | i in t.rows && i != n && Concerns(o, rid, t.rows[i].ids) ::
         WellFormedAllow(t.rows[i].acl.match_) && (t.rows[i].acl.match_.l3.Blocks? || t.rows[i].acl.match_.l4 != l4)
  }

  /** The update of one row, from the list the controller holds; a failed set changes nothing. */
  function Apply(txt: Printer, t: Table, o: Owner, rid: RuleId, l4: L4Match, held: seq<string>, u: Update): Table {
    if u.ok then ModifyRow(txt, t, PeersMatch(o, rid, held, l4), PeersMatch(o, rid, u.peers, l4), o, rid) else t
  }

  /** The lookup finds the row exactly when the stored list is the one the controller holds. */
  lemma LookupIffCurrent(txt: Printer, t: Table, o: Owner, rid: RuleId, l4: L4Match, n: nat, peers: seq<string>,
                         held: seq<string>)
    requires GoodPrinter(txt) && Stored(t, o, rid, l4, n, peers) && Printable(held)
    ensures FindByMatch(txt, t, txt(PeersMatch(o, rid, held, l4)), o, rid) == if peers == held then {n} else {}
  {
    var m := PeersMatch(o, rid, held, l4);
    assert WellFormedAllow(m) && WellFormedAllow(PeersMatch(o, rid, peers, l4));
    forall i | i in t.rows && Concerns(o, rid, t.rows[i].ids)
      ensures txt(t.rows[i].acl.match_) == txt(m) <==> i == n && peers == held
    {
      assert txt(t.rows[i].acl.match_) == txt(m) ==> t.rows[i].acl.match_ == m;
    }
  }

  lemma UpdateExactly(txt: Printer, t: Table, o: Owner, rid: RuleId, l4: L4Match, n: nat, peers: seq<string>,
                      held: seq<string>, u: Update)
    requires GoodPrinter(txt) && Stored(t, o, rid, l4, n, peers) && Printable(held) && Printable(u.peers)
    ensures Stored(Apply(txt, t, o, rid, l4, held, u), o, rid, l4, n, if u.ok && peers == held then u.peers else peers)
  {
    LookupIffCurrent(txt, t, o, rid, l4, n, peers, held);
  }

  // ------------------------------------------------------- runs of updates

  function ApplyAll(txt: Printer, t: Table, o: Owner, rid: RuleId, l4: L4Match, held: seq<string>,
                    us: seq<Update>): Table
    decreases |us|
  {
    if us == [] then t else ApplyAll(txt, Apply(txt, t, o, rid, l4, held, us[0]), o, rid, l4, us[0].peers, us[1..])
  }

  /** The list the row is printed from after the updates. */
  function StoredAfter(peers: seq<string>, held: seq<string>, us: seq<Update>): seq<string>
    decreases |us|
  {
    if us == [] then peers
    else StoredAfter(if us[0].ok && peers == held then us[0].peers else peers, us[0].peers, us[1..])
  }

  function HeldAfter(held: seq<string>, us: seq<Update>): seq<string> { if us == [] then held else us[|us| - 1].peers }

  lemma {:induction false} RunExactly(txt: Printer, t: Table, o: Owner, rid: RuleId, l4: L4Match, n: nat,
                                      peers: seq<string>, held: seq<string>, us: seq<Update>)
    requires GoodPrinter(txt) && Stored(t, o, rid, l4, n, peers) && Printable(held)
             && forall u | u in us :: Printable(u.peers)
    ensures Stored(ApplyAll(txt, t, o, rid, l4, held, us), o, rid, l4, n, StoredAfter(peers, held, us))
    decreases |us|
  {
    if us != [] {
      UpdateExactly(txt, t, o, rid, l4, n, peers, held, us[0]);
      assert us[0] in us && forall u | u in us[1..] :: u in us;
      RunExactly(txt, Apply(txt, t, o, rid, l4, held, us[0]), o, rid, l4, n,
                 if us[0].ok && peers == held then us[0].peers else peers, us[0].peers, us[1..]);
    }
  }

  /** A stale row stays as it is until the peer list returns to what it was printed from. */
  lemma {:induction false} StaleUntilReturn(peers: seq<string>, held: seq<string>, us: seq<Update>)
    requires peers != held && forall i | 0 <= i < |us| - 1 :: us[i].peers != peers
    ensures StoredAfter(peers, held, us) == peers
    decreases |us|
  {
    if us != [] {
      assert forall i | 0 <= i < |us[1..]| - 1 :: us[1..][i] == us[i + 1];
      if |us| > 1 {
        assert us[0].peers != peers;
        StaleUntilReturn(peers, us[0].peers, us[1..]);
      }
    }
  }

  /** While every command succeeds, the row is current after any updates. */
  lemma {:induction false} AllSucceed(peers: seq<string>, us: seq<Update>)
    requires forall u | u in us :: u.ok
    ensures StoredAfter(peers, peers, us) == HeldAfter(peers, us)
    decreases |us|
  {
    if us != [] {
      assert us[0] in us && forall u | u in us[1..] :: u in us;
      AllSucceed(us[0].peers, us[1..]);
    }
  }

  /** An update leaves the row current exactly when the row was current and the command succeeds,
      or the new list happens to be the one the row was printed from. */
  lemma CurrentExactly(peers: seq<string>, held: seq<string>, u: Update)
    requires u.peers != held
    ensures StoredAfter(peers, held, [u]) == u.peers <==> (u.ok && peers == held) || u.peers == peers
  {
    assert [u][1..] == [];
  }

  /** After a single failure the stored match stays the old one, whatever updates follow and
      whether or not they succeed, until the list returns. */
  lemma FailureSticks(txt: Printer, t: Table, o: Owner, rid: RuleId, l4: L4Match, n: nat, peers: seq<string>,
                      first: seq<string>, us: seq<Update>)
    requires GoodPrinter(txt) && Stored(t, o, rid, l4, n, peers) && Printable(first) && first != peers
             && forall u | u in us :: Printable(u.peers) && u.peers != peers
    ensures Stored(ApplyAll(txt, t, o, rid, l4, peers, [Update(first, false)] + us), o, rid, l4, n, peers)
  {
    var all := [Update(first, false)] + us;
    assert all[0] == Update(first, false) && all[1..] == us;
    RunExactly(txt, t, o, rid, l4, n, peers, peers, all);
    forall i | 0 <= i < |us| - 1 ensures us[i].peers != peers {
      assert us[i] in us;
    }
    StaleUntilReturn(peers, first, us);
  }
}
