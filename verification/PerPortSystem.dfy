/** The imperative per-port controller over whole runs. */
module PerPortSystem {
  import opened Acl
  import opened PolicyWorld
  import opened PolicyMemory
  import opened AclRows
  import opened PortGroupBackend
  import opened PerPortBackend
  import opened PerPortRuns
  import opened PerPortController

  ghost function PortAcls(t: Table, w: World, dir: Direction, pkt: Packet): iset<Acl>
    requires LocalPort(dir, pkt) in w.alive
  {
    SwitchAcls(t, w.alive[LocalPort(dir, pkt)].node, dir)
  }

  /** The ACLs on every live port's switch drop what the policies drop. */
  ghost predicate MeanPolicies(t: Table, sets: map<string, set<Ip>>, w: World) {
    forall dir, pkt, inBlock: (string, Ip) -> bool | LocalPort(dir, pkt) in w.alive ::
      MayDrop(PortAcls(t, w, dir, pkt), pkt, Env(sets, map[], inBlock)) <==> Dropped(w, dir, pkt, inBlock)
  }

  /** A new controller that is given the events of any legal run, with any pod objects, ends with the
      memory and table of the specification, for the orders its loops happened to take, and when the
      pod objects name the right switches those ACLs mean what the policies say. */
  method RunController(hash: string -> string, evs: seq<Event>, pods: seq<Pod>)
    returns (c: PerPortController, ghost pes: seq<PortEvent>)
    requires GoodHash(hash) && LegalRun(evs) && |pods| == |evs|
    ensures fresh(c) && PortLegal(hash, pes) && Events(pes) == evs
    ensures c.mem == PortMemRun(hash, pes) && c.acls == PortRun(hash, MatchText, pes)
    ensures AllMeet(hash, pes) ==> MeanPolicies(c.acls, DbRun(hash, MatchText, evs).sets, Run(evs))
  {
    c := new PerPortController(hash);
    pes := [];
    var i := 0;
    while i < |evs|
      invariant 0 <= i <= |evs| && fresh(c) && c.hash == hash && PortLegal(hash, pes) && Events(pes) == evs[..i]
      invariant c.mem == PortMemRun(hash, pes) && c.acls == PortRun(hash, MatchText, pes)
    {
      ghost var order := c.Handle(evs[i], pods[i]);
      LegalAt(evs, i);
      assert evs[..i + 1] == evs[..i] + [evs[i]];
      SnocPort(hash, pes, PortEvent(evs[i], pods[i], order));
      pes := pes + [PortEvent(evs[i], pods[i], order)];
      i := i + 1;
    }
    assert evs[..i] == evs;
    if AllMeet(hash, pes) {
      forall dir, pkt, inBlock: (string, Ip) -> bool | LocalPort(dir, pkt) in Run(evs).alive
        ensures MayDrop(PortAcls(c.acls, Run(evs), dir, pkt), pkt,
                        Env(DbRun(hash, MatchText, evs).sets, map[], inBlock))
            <==> Dropped(Run(evs), dir, pkt, inBlock)
      {
        PerPortPreservesMeaning(hash, pes, dir, pkt, inBlock);
      }
    }
  }
}
