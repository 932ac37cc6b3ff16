/** What the port-group back-end's database means: priority evaluation of the stored ACLs gives
    every packet the verdict the policies call for, after every run. */
module PortGroupMeaning {
  import opened Acl
  import opened MatchReader
  import opened Gress
  import opened PolicyWorld
  import opened PolicyMemory
  import opened AclRows
  import opened AclTable
  import opened PortGroupBackend
  import opened PolicyMeaning

  /** The ACLs of one direction. */
  ghost function DirAcls(t: Table, dir: Direction): iset<Acl> {
    iset i | i in t.rows && t.rows[i].acl.match_.dir == dir :: t.rows[i].acl
  }

  ghost predicate IsRuleAcl(nps: map<nat, Np>, id: nat, rid: RuleId, k: Kind, dir: Direction, a: Acl) {
    && id in nps && !nps[id].deleted && rid in nps[id].rules && rid.dir == dir && HasKind(nps[id].rules[rid], k)
    && a == AclOf(rid, nps[id].rules[rid], k, GroupPort(nps[id].group))
  }

  ghost predicate IsDirAcl(nps: map<nat, Np>, ready: bool, dir: Direction, a: Acl) {
    (exists id: nat, rid, k :: IsRuleAcl(nps, id, rid, k, dir, a)) || (ready && a == DenyRow(dir).acl)
  }

  /** Of a direction, exactly the ACLs the policies call for are stored. */
  ghost predicate AclsAre(acls: iset<Acl>, nps: map<nat, Np>, ready: bool, dir: Direction) {
    forall a :: a in acls <==> IsDirAcl(nps, ready, dir, a)
  }

  lemma AclIsExpected(nps: map<nat, Np>, ready: bool, dir: Direction, a: Acl) returns (row: Row)
    requires IsDirAcl(nps, ready, dir, a)
    ensures IsExpected(nps, ready, row) && row.acl == a && a.match_.dir == dir
  {
    row := DenyRow(dir);
    if id: nat, rid, k :| IsRuleAcl(nps, id, rid, k, dir, a) {
      row := RowOf(OwnerOf(nps[id]), rid, nps[id].rules[rid], k);
      assert IsRuleRow(nps, id, rid, k, row);
    }
  }

  lemma ExpectedAcl(nps: map<nat, Np>, ready: bool, row: Row)
    requires IsExpected(nps, ready, row)
    ensures IsDirAcl(nps, ready, row.acl.match_.dir, row.acl)
  {
    if id: nat, rid, k :| IsRuleRow(nps, id, rid, k, row) {
      assert IsRuleAcl(nps, id, rid, k, rid.dir, row.acl);
    }
  }

  lemma RowStored(t: Table, e: iset<Row>, row: Row)
    requires TableOk(t, e) && row in e
    ensures row.acl in DirAcls(t, row.acl.match_.dir)
  {
  }

  lemma AllowActions(acls: iset<Acl>, nps: map<nat, Np>, ready: bool, dir: Direction)
    requires AclsAre(acls, nps, ready, dir)
    ensures forall a | a in acls && a.action != Drop :: a.action == AllowRelated <==> dir == Ingress
  {
  }

  lemma StoredAcls(t: Table, nps: map<nat, Np>, ready: bool, dir: Direction)
    requires TableOk(t, Expected(nps, ready))
    ensures AclsAre(DirAcls(t, dir), nps, ready, dir)
    ensures forall a | a in DirAcls(t, dir) && a.action != Drop :: a.action == AllowRelated <==> dir == Ingress
  {
    forall a | a in DirAcls(t, dir) ensures IsDirAcl(nps, ready, dir, a) {
      var i :| i in t.rows && t.rows[i].acl.match_.dir == dir && t.rows[i].acl == a;
      ExpectedAcl(nps, ready, t.rows[i]);
    }
    forall a | IsDirAcl(nps, ready, dir, a) ensures a in DirAcls(t, dir) {
      var row := AclIsExpected(nps, ready, dir, a);
      RowStored(t, Expected(nps, ready), row);
    }
    AllowActions(DirAcls(t, dir), nps, ready, dir);
  }

  /** A policy's group holds, of the ports that exist, exactly the policy's local pods. */
  ghost predicate GroupsHold(nps: map<nat, Np>, port: string, env: Env) {
    forall id | id in nps && !nps[id].deleted ::
      LPortHolds(GroupPort(nps[id].group), port, env) <==> port in nps[id].localPods
  }

  lemma RuleAclMatches(nps: map<nat, Np>, id: nat, rid: RuleId, k: Kind, dir: Direction, pkt: Packet, env: Env, a: Acl)
    requires GroupsHold(nps, LocalPort(dir, pkt), env) && IsRuleAcl(nps, id, rid, k, dir, a)
    ensures Matches(a.match_, pkt, env) <==> KindHit(nps, id, rid, k, dir, pkt, env)
  {
  }

  lemma AclHit(acls: iset<Acl>, nps: map<nat, Np>, ready: bool, dir: Direction, pkt: Packet, env: Env, priority: nat)
    requires AclsAre(acls, nps, ready, dir) && GroupsHold(nps, LocalPort(dir, pkt), env)
    requires Hit(acls, priority, pkt, env) && priority != DEFAULT_DENY_PRIORITY
    ensures exists id: nat, rid, k ::
              (IsAllow(k) <==> priority == DEFAULT_ALLOW_PRIORITY) && KindHit(nps, id, rid, k, dir, pkt, env)
  {
    var a :| a in acls && a.priority == priority && Matches(a.match_, pkt, env);
    var id: nat, rid, k :| IsRuleAcl(nps, id, rid, k, dir, a);
    RuleAclMatches(nps, id, rid, k, dir, pkt, env, a);
  }

  lemma KindIsHit(acls: iset<Acl>, nps: map<nat, Np>, ready: bool, dir: Direction, pkt: Packet, env: Env, id: nat,
                  rid: RuleId, k: Kind)
    requires AclsAre(acls, nps, ready, dir) && GroupsHold(nps, LocalPort(dir, pkt), env)
             && KindHit(nps, id, rid, k, dir, pkt, env)
    ensures Hit(acls, if IsAllow(k) then DEFAULT_ALLOW_PRIORITY else IP_BLOCK_DENY_PRIORITY, pkt, env)
  {
    var a := AclOf(rid, nps[id].rules[rid], k, GroupPort(nps[id].group));
    assert IsRuleAcl(nps, id, rid, k, dir, a);
    RuleAclMatches(nps, id, rid, k, dir, pkt, env, a);
    assert a in acls;
  }

  lemma AllTiered(acls: iset<Acl>, nps: map<nat, Np>, ready: bool, dir: Direction)
    requires AclsAre(acls, nps, ready, dir)
    ensures forall a | a in acls :: Tiered(a)
  {
  }

  lemma DenyTierHit(acls: iset<Acl>, nps: map<nat, Np>, ready: bool, dir: Direction, pkt: Packet, env: Env)
    requires AclsAre(acls, nps, ready, dir)
    ensures Hit(acls, DEFAULT_DENY_PRIORITY, pkt, env)
        <==> ready && LPortHolds(GroupPort(DenyGroup(dir)), LocalPort(dir, pkt), env)
  {
    assert ready ==> DenyRow(dir).acl in acls;
  }

  lemma GroupAclsRepresent(acls: iset<Acl>, nps: map<nat, Np>, ready: bool, dir: Direction, pkt: Packet, env: Env)
    requires AclsAre(acls, nps, ready, dir) && GroupsHold(nps, LocalPort(dir, pkt), env)
    ensures Represents(acls, nps, dir, pkt, env, ready
                       && LPortHolds(GroupPort(DenyGroup(dir)), LocalPort(dir, pkt), env))
  {
    AllTiered(acls, nps, ready, dir);
    DenyTierHit(acls, nps, ready, dir, pkt, env);
    if Hit(acls, IP_BLOCK_DENY_PRIORITY, pkt, env) {
      AclHit(acls, nps, ready, dir, pkt, env, IP_BLOCK_DENY_PRIORITY);
    }
    if Hit(acls, DEFAULT_ALLOW_PRIORITY, pkt, env) {
      AclHit(acls, nps, ready, dir, pkt, env, DEFAULT_ALLOW_PRIORITY);
    }
    if id: nat, rid :| KindHit(nps, id, rid, ExceptKind, dir, pkt, env) {
      KindIsHit(acls, nps, ready, dir, pkt, env, id, rid, ExceptKind);
    }
    if id: nat, rid, k :| IsAllow(k) && KindHit(nps, id, rid, k, dir, pkt, env) {
      KindIsHit(acls, nps, ready, dir, pkt, env, id, rid, k);
    }
  }

  function EnvOf(db: Db, inBlock: (string, Ip) -> bool): Env { Env(db.sets, db.groups, inBlock) }

  lemma DenyAgrees(h: string -> string, w: World, m: Mem, db: Db, dir: Direction, pkt: Packet,
                   inBlock: (string, Ip) -> bool)
    requires Sim(h, w, m) && GroupsOk(m, db.groups, db.ready) && LocalPort(dir, pkt) in w.alive
    ensures db.ready && LPortHolds(GroupPort(DenyGroup(dir)), LocalPort(dir, pkt), EnvOf(db, inBlock))
       <==> Holders(w.policies, dir, LocalPort(dir, pkt)) != {}
  {
    assert Count(m, dir, LocalPort(dir, pkt)) == |Holders(w.policies, dir, LocalPort(dir, pkt))|;
  }

  lemma GroupsHoldOf(m: Mem, db: Db, port: string, inBlock: (string, Ip) -> bool)
    requires PolicyGroupsOk(m, db.groups) && port in m.lsps
    ensures GroupsHold(m.nps, port, EnvOf(db, inBlock))
  {
  }

  // ------------------------------------------------------- the text of the columns

  /** The except blocks the rules keep hold no punctuation of the match syntax. */
  ghost predicate PlainExcepts(w: World) {
    forall id, rid, e | HasRule(w, id, rid) && e in LastBlock(w.policies[id].rules[rid].spec.peers).except ::
      PlainName(e)
  }

  predicate PlainPort(m: LPortMatch) {
    match m case GroupPort(g) => '&' !in g case LogicalPort(p) => '&' !in p
  }

  lemma AclReadable(rid: RuleId, r: Rule, k: Kind, lport: LPortMatch)
    requires PlainRule(r) && (forall e | e in r.except :: PlainName(e)) && HasKind(r, k) && PlainPort(lport)
    ensures ReadableAcl(AclOf(rid, r, k, lport))
  {
  }

  lemma ExceptsPlain(h: string -> string, w: World, m: Mem, id: nat, rid: RuleId)
    requires Sim(h, w, m) && PlainExcepts(w) && Live(m, id) && rid in m.nps[id].rules
    ensures forall e | e in m.nps[id].rules[rid].except :: PlainName(e)
  {
    assert NpSim(h, w.policies[id], m.nps[id]);
    assert HasRule(w, id, rid);
  }

  lemma RuleAclReadable(h: string -> string, w: World, m: Mem, id: nat, rid: RuleId, k: Kind, lport: LPortMatch)
    requires GoodHash(h) && WorldOk(w) && Sim(h, w, m) && PlainExcepts(w) && PlainPort(lport)
    requires Live(m, id) && rid in m.nps[id].rules && HasKind(m.nps[id].rules[rid], k)
    ensures ReadableAcl(AclOf(rid, m.nps[id].rules[rid], k, lport))
  {
    MemOkOf(h, w, m);
    assert NpOk(m.nps[id]);
    ExceptsPlain(h, w, m, id, rid);
    AclReadable(rid, m.nps[id].rules[rid], k, lport);
  }

  lemma GroupIsPlain(h: string -> string, w: World, m: Mem, id: nat)
    requires GoodHash(h) && Sim(h, w, m) && Live(m, id)
    ensures PlainPort(GroupPort(m.nps[id].group))
  {
    assert NpSim(h, w.policies[id], m.nps[id]);
  }

  lemma DenyReadable(dir: Direction)
    ensures ReadableAcl(DenyRow(dir).acl)
  {
  }

  lemma StoredReadable(h: string -> string, w: World, m: Mem, acls: iset<Acl>, ready: bool, dir: Direction)
    requires GoodHash(h) && WorldOk(w) && Sim(h, w, m) && PlainExcepts(w) && AclsAre(acls, m.nps, ready, dir)
    ensures AllReadable(acls)
  {
    forall a | a in acls ensures ReadableAcl(a) {
      if id: nat, rid, k :| IsRuleAcl(m.nps, id, rid, k, dir, a) {
        GroupIsPlain(h, w, m, id);
        RuleAclReadable(h, w, m, id, rid, k, GroupPort(m.nps[id].group));
      } else {
        DenyReadable(dir);
      }
    }
  }

  lemma StateMeaning(h: string -> string, w: World, m: Mem, db: Db, dir: Direction, pkt: Packet,
                     inBlock: (string, Ip) -> bool)
    requires GoodHash(h) && WorldOk(w) && Sim(h, w, m) && DbOk(h, m, db) && LocalPort(dir, pkt) in w.alive
    ensures MayDrop(DirAcls(db.acls, dir), pkt, EnvOf(db, inBlock)) <==> Dropped(w, dir, pkt, inBlock)
    ensures MayPass(DirAcls(db.acls, dir), pkt, EnvOf(db, inBlock)) <==> !Dropped(w, dir, pkt, inBlock)
    ensures PlainExcepts(w) ==>
            && (TextDrops(DirAcls(db.acls, dir), pkt, EnvOf(db, inBlock)) <==> Dropped(w, dir, pkt, inBlock))
            && (TextPasses(DirAcls(db.acls, dir), pkt, EnvOf(db, inBlock)) <==> !Dropped(w, dir, pkt, inBlock))
  {
    var acls, env := DirAcls(db.acls, dir), EnvOf(db, inBlock);
    StoredAcls(db.acls, m.nps, db.ready, dir);
    GroupsHoldOf(m, db, LocalPort(dir, pkt), inBlock);
    GroupAclsRepresent(acls, m.nps, db.ready, dir, pkt, env);
    DenyAgrees(h, w, m, db, dir, pkt, inBlock);
    RulesAgreeOf(h, w, m, db.sets);
    Verdict(h, w, m.nps, acls, dir, pkt, env);
    if PlainExcepts(w) {
      StoredReadable(h, w, m, acls, db.ready, dir);
      ReadAlike(acls, pkt, env);
    }
  }

  /** Compilation preserves meaning: after every run, for every packet at a live pod's port, the
      stored ACLs of a direction drop it exactly when the policies do, and never both drop and
      pass it. The texts in their match columns, read as OVN reads them, say the same. */
  lemma CompilationPreservesMeaning(h: string -> string, evs: seq<Event>, dir: Direction, pkt: Packet,
                                    inBlock: (string, Ip) -> bool)
    requires GoodHash(h) && LegalRun(evs) && LocalPort(dir, pkt) in Run(evs).alive
    ensures var db := DbRun(h, MatchText, evs);
            && (MayDrop(DirAcls(db.acls, dir), pkt, EnvOf(db, inBlock)) <==> Dropped(Run(evs), dir, pkt, inBlock))
            && (MayPass(DirAcls(db.acls, dir), pkt, EnvOf(db, inBlock)) <==> !Dropped(Run(evs), dir, pkt, inBlock))
    ensures PlainExcepts(Run(evs)) ==>
            var db := DbRun(h, MatchText, evs);
            && (TextDrops(DirAcls(db.acls, dir), pkt, EnvOf(db, inBlock)) <==> Dropped(Run(evs), dir, pkt, inBlock))
            && (TextPasses(DirAcls(db.acls, dir), pkt, EnvOf(db, inBlock)) <==> !Dropped(Run(evs), dir, pkt, inBlock))
  {
    MemoryMirrorsWorld(h, evs);
    DatabaseMirrorsMemory(h, evs);
    StateMeaning(h, Run(evs), MemRun(h, evs), DbRun(h, MatchText, evs), dir, pkt, inBlock);
  }
}
