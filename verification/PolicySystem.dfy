/** The imperative controller over whole runs: whatever events it is given, the database it leaves
    behind means what the policies say. */
module PolicySystem {
  import opened Acl
  import opened PolicyWorld
  import opened PolicyMemory
  import opened PortGroupBackend
  import opened PortGroupMeaning
  import opened PolicyController

  /** The addresses of a set in some order, as a list of pods would give them. */
  method Listed(ips: set<Ip>) returns (r: seq<Ip>)
    ensures Addresses(r) == ips
  {
    r := [];
    var left := ips;
    while left != {}
      invariant left <= ips && Addresses(r) == ips - left
      decreases |left|
    {
      var ip :| ip in left;
      assert Addresses(r + [ip]) == Addresses(r) + {ip};
      r := r + [ip];
      left := left - {ip};
    }
  }

  /** One watch event reaches the controller. */
  method Handle(c: Controller, ev: Event)
    requires ev.PolicyDelete? && (ev.ns, ev.name) in c.byKey && c.byKey[(ev.ns, ev.name)] in c.nps ==>
             RulesInRange(c.nps[c.byKey[(ev.ns, ev.name)]])
    modifies c
    ensures c.Memory() == MemStep(c.hash, old(c.Memory()), ev)
    ensures c.Database() == DbStep(c.hash, MatchText, old(c.Memory()), old(c.Database()), ev)
  {
    match ev
    case PolicyAdd(id, spec) => c.AddNetworkPolicy(id, spec);
    case RuleAdd(id, rid) => c.AddRule(id, rid);
    case PolicyDelete(ns, name) => c.DeleteNetworkPolicy(ns, name);
    case PeerNsAdd(id, rid, ns) => c.HandlePeerNamespaceAdd(id, rid, ns);
    case PeerNsDel(id, rid, ns) => c.HandlePeerNamespaceDel(id, rid, ns);
    case PeerPodAdd(id, rid, ip) => c.HandlePeerPodAdd(id, rid, ip);
    case PeerPodDel(id, rid, ip) => c.HandlePeerPodDel(id, rid, ip);
    case LocalPodAdd(id, port) => c.HandleLocalPodSelectorAdd(id, port);
    case LocalPodDel(id, port) => c.HandleLocalPodSelectorDel(id, port);
    case PodUp(port, pod) => c.AddLogicalPort(port, pod);
    case PodDown(port) => c.DeleteLogicalPort(port);
    case NamespaceAdd(ns, ips) =>
      var list := Listed(ips);
      c.AddNamespace(ns, list);
    case NamespaceDel(ns) => c.DeleteNamespace(ns);
    case NamespacePodAdd(ns, ip) => c.AddPodToNamespaceAddressSet(ns, ip);
    case NamespacePodDel(ns, ip) => c.DeletePodFromNamespaceAddressSet(ns, ip);
  }

  lemma Snoc(h: string -> string, evs: seq<Event>, i: nat)
    requires i < |evs|
    ensures MemRun(h, evs[..i + 1]) == MemStep(h, MemRun(h, evs[..i]), evs[i])
    ensures DbRun(h, MatchText, evs[..i + 1])
         == DbStep(h, MatchText, MemRun(h, evs[..i]), DbRun(h, MatchText, evs[..i]), evs[i])
  {
    assert evs[..i + 1][..i] == evs[..i];
  }

  lemma DeletableAt(h: string -> string, evs: seq<Event>, i: nat, key: (string, string))
    requires GoodHash(h) && LegalRun(evs) && i <= |evs|
    ensures var m := MemRun(h, evs[..i]); key in m.byKey && m.byKey[key] in m.nps ==> RulesInRange(m.nps[m.byKey[key]])
  {
    LegalPrefix(evs, i);
    MemoryMirrorsWorld(h, evs[..i]);
    var w, m := Run(evs[..i]), MemRun(h, evs[..i]);
    if key in m.byKey && m.byKey[key] in m.nps {
      PodParts(h, w, m, m.byKey[key]);
      RulesInRangeOf(h, w, m, m.byKey[key]);
    }
  }

  /** A new controller that is given the events of any legal run ends with exactly the database of
      the specification. */
  method RunController(hash: string -> string, evs: seq<Event>) returns (c: Controller)
    requires GoodHash(hash) && LegalRun(evs)
    ensures fresh(c) && c.Memory() == MemRun(hash, evs) && c.Database() == DbRun(hash, MatchText, evs)
    ensures forall dir, pkt, inBlock: (string, Ip) -> bool | LocalPort(dir, pkt) in Run(evs).alive ::
              MayDrop(DirAcls(c.acls, dir), pkt, Env(c.sets, c.groups, inBlock))
              <==> Dropped(Run(evs), dir, pkt, inBlock)
  {
    c := new Controller(hash);
    var i := 0;
    while i < |evs|
      invariant 0 <= i <= |evs| && fresh(c) && c.hash == hash
      invariant c.Memory() == MemRun(hash, evs[..i]) && c.Database() == DbRun(hash, MatchText, evs[..i])
    {
      if evs[i].PolicyDelete? {
        DeletableAt(hash, evs, i, (evs[i].ns, evs[i].name));
      }
      Snoc(hash, evs, i);
      Handle(c, evs[i]);
      i := i + 1;
    }
    assert evs[..i] == evs;
    forall dir, pkt, inBlock: (string, Ip) -> bool | LocalPort(dir, pkt) in Run(evs).alive
      ensures MayDrop(DirAcls(c.acls, dir), pkt, Env(c.sets, c.groups, inBlock))
          <==> Dropped(Run(evs), dir, pkt, inBlock)
    {
      CompilationPreservesMeaning(hash, evs, dir, pkt, inBlock);
    }
  }
}
