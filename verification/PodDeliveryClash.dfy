/** An interleaving of the watch factory that delivers an illegal run: a pod stops matching a policy's
    selector between the snapshot and the registration of the policy's handler, so that the policy
    selects it and is never told to let go. */
module PodDeliveryClash {
  import opened Acl
  import opened PolicyWorld
  import opened PodDelivery
  import W = WatchFactory

  const PORT := "ns_p"
  const WEB := W.Obj("ns", map["app" := "web"], Some(1))
  const BARE := W.Obj("ns", map[], Some(1))
  const SPEC := PolicySpec("ns", "web", [Ingress], [], [])

  predicate AllPods(o: W.Obj) { true }

  predicate WebPods(o: W.Obj) { o.ns == "ns" && "app" in o.labels }

  function OnNode(o: W.Obj): string { "n" }

  function InNs(key: string): string { "ns" }

  function I(st: W.Step): Move { Informer(st, []) }

  // ------------------------------------------------------- running moves

  function RunSys(c: Sys, moves: seq<Move>): Sys
    decreases |moves|
  {
    if moves == [] then c else RunSys(Next(OnNode, c, moves[0]), moves[1..])
  }

  ghost predicate Leads(c: Sys, moves: seq<Move>, c': Sys) {
    ProperRun(OnNode, InNs, c, moves) && RunSys(c, moves) == c'
  }

  lemma LeadsOne(c: Sys, mv: Move)
    requires Proper(OnNode, InNs, c, mv)
    ensures Leads(c, [mv], Next(OnNode, c, mv))
  {
    assert [mv][1..] == [];
  }

  lemma {:induction false} LeadsOn(c: Sys, a: seq<Move>, c': Sys, b: seq<Move>, c'': Sys)
    requires Leads(c, a, c') && Leads(c', b, c'')
    ensures Leads(c, a + b, c'')
    decreases |a|
  {
    if a == [] {
      assert a + b == b;
    } else {
      assert (a + b)[0] == a[0] && (a + b)[1..] == a[1..] + b;
      LeadsOn(Next(OnNode, c, a[0]), a[1..], c', b, c'');
    }
  }

  lemma {:induction false} ClashAtEnd(c: Sys, moves: seq<Move>, c': Sys, mv: Move)
    requires Leads(c, moves, c') && Clashes(OnNode, c', mv)
    ensures !NeverClashes(OnNode, c, moves + [mv])
    decreases |moves|
  {
    if moves == [] {
      assert moves + [mv] == [mv];
    } else {
      assert (moves + [mv])[0] == moves[0] && (moves + [mv])[1..] == moves[1..] + [mv];
      ClashAtEnd(Next(OnNode, c, moves[0]), moves[1..], c', mv);
    }
  }

  // ------------------------------------------------------- one informer step

  lemma Quietly(c: Sys, st: W.Step)
    requires st.Begin? || st.Check? || st.End?
    ensures Leads(c, [I(st)], Sys(W.Apply(c.s, st), c.w))
  {
    LeadsOne(c, I(st));
  }

  lemma Calling(c: Sys)
    requires CanCall(c.s)
    ensures var id, e := c.s.dispatch.calling.value, c.s.log[c.s.done];
            var evs := if id == 0 then PortCall(OnNode, e) else PolicyCall(OnNode, id, c.s.handlers[id].filter, e);
            Leads(c, [I(W.Call)], Sys(W.Apply(c.s, W.Call), RunOn(c.w, evs)))
  {
    LeadsOne(c, I(W.Call));
  }

  /** A live handler is found and called. */
  lemma Told(c: Sys, id: nat) returns (c': Sys)
    requires c.s.dispatch.Serving? && c.s.dispatch.calling == None && c.s.done < |c.s.log|
    requires id in c.s.handlers && c.s.handlers[id].present && !c.s.handlers[id].dead && id !in c.s.dispatch.served
    ensures var e := c.s.log[c.s.done];
            var evs := if id == 0 then PortCall(OnNode, e) else PolicyCall(OnNode, id, c.s.handlers[id].filter, e);
            && c' == Sys(c.s.(dispatch := W.Serving(c.s.dispatch.served + {id}, None),
                              handlers := c.s.handlers[id := W.Serve(c.s.handlers[id], e, c.s.done + 1)]),
                         RunOn(c.w, evs))
            && Leads(c, [I(W.Check(id))] + [I(W.Call)], c')
  {
    var found := Sys(W.Apply(c.s, W.Check(id)), c.w);
    Quietly(c, W.Check(id));
    Calling(found);
    W.VisitOne(c.s, id);
    var e := c.s.log[c.s.done];
    var evs := if id == 0 then PortCall(OnNode, e) else PolicyCall(OnNode, id, c.s.handlers[id].filter, e);
    c' := Sys(W.Apply(found.s, W.Call), RunOn(c.w, evs));
    LeadsOn(c, [I(W.Check(id))], found, [I(W.Call)], c');
  }

  /** A dispatch to the port handler alone. */
  lemma ToldPort(c: Sys) returns (moves: seq<Move>, c': Sys)
    requires c.s.dispatch == W.Idle && c.s.done < |c.s.log|
    requires c.s.handlers.Keys == {0} && c.s.handlers[0].present && !c.s.handlers[0].dead
    ensures Leads(c, moves, c')
    ensures c' == Sys(c.s.(done := c.s.done + 1,
                           handlers := c.s.handlers[0 := W.Serve(c.s.handlers[0], c.s.log[c.s.done], c.s.done + 1)]),
                      RunOn(c.w, PortCall(OnNode, c.s.log[c.s.done])))
  {
    var begun := Sys(W.Apply(c.s, W.Begin), c.w);
    Quietly(c, W.Begin);
    var told := Told(begun, 0);
    c' := Sys(W.Apply(told.s, W.End), told.w);
    Quietly(told, W.End);
    LeadsOn(begun, [I(W.Check(0))] + [I(W.Call)], told, [I(W.End)], c');
    LeadsOn(c, [I(W.Begin)], begun, [I(W.Check(0))] + [I(W.Call)] + [I(W.End)], c');
    moves := [I(W.Begin)] + ([I(W.Check(0))] + [I(W.Call)] + [I(W.End)]);
  }

  /** A dispatch to the port handler and then to the policy's. */
  lemma ToldBoth(c: Sys) returns (moves: seq<Move>, c': Sys)
    requires c.s.dispatch == W.Idle && c.s.done < |c.s.log| && c.s.handlers.Keys == {0, 1}
    requires forall id | id in c.s.handlers :: c.s.handlers[id].present && !c.s.handlers[id].dead
    ensures Leads(c, moves, c')
    ensures var e := c.s.log[c.s.done];
            c' == Sys(c.s.(done := c.s.done + 1,
                           handlers := c.s.handlers[0 := W.Serve(c.s.handlers[0], e, c.s.done + 1)]
                                                   [1 := W.Serve(c.s.handlers[1], e, c.s.done + 1)]),
                      RunOn(RunOn(c.w, PortCall(OnNode, e)), PolicyCall(OnNode, 1, c.s.handlers[1].filter, e)))
  {
    var begun := Sys(W.Apply(c.s, W.Begin), c.w);
    Quietly(c, W.Begin);
    var one := Told(begun, 0);
    var both := Told(one, 1);
    c' := Sys(W.Apply(both.s, W.End), both.w);
    Quietly(both, W.End);
    var a, b := [I(W.Check(0))] + [I(W.Call)], [I(W.Check(1))] + [I(W.Call)];
    LeadsOn(one, b, both, [I(W.End)], c');
    LeadsOn(begun, a, one, b + [I(W.End)], c');
    LeadsOn(c, [I(W.Begin)], begun, a + (b + [I(W.End)]), c');
    moves := [I(W.Begin)] + (a + (b + [I(W.End)]));
  }

  // ------------------------------------------------------- the run

  const Added := W.Change(PORT, None, Some(WEB))
  const Relabelled := W.Change(PORT, Some(WEB), Some(BARE))
  const Deleted := W.Change(PORT, Some(BARE), None)

  function PortHandler(seen: nat, view: map<string, W.Obj>): W.Handler {
    W.Handler(AllPods, 0, 0, false, true, 0, seen, view)
  }

  function PolicyHandler(seen: nat): W.Handler { W.Handler(WebPods, 1, 2, false, true, 0, seen, map[PORT := WEB]) }

  function PolicyWith(pods: map<string, string>): map<nat, Policy> { map[1 := Policy(SPEC, map[], pods)] }

  function WorldWith(pods: map<string, string>, alive: map<string, Pod>): World {
    World(PolicyWith(pods), {1}, alive, map["ns" := {}])
  }

  const POD := Pod("ns", "n")

  /** A policy is added, and then a pod that matches it; the handler's snapshot is taken. */
  const Snapshotted := Sys(W.State([Added], 1, W.Idle, map[1 := W.Snapshot(WebPods, 1)],
                                   map[0 := PortHandler(1, map[PORT := WEB])]),
                           WorldWith(map[], map[PORT := POD]))

  /** The pod loses the label, and the handler is registered. */
  const Registered := Sys(W.State([Added, Relabelled], 2, W.Idle, map[],
                                  map[0 := PortHandler(2, map[PORT := BARE]), 1 := PolicyHandler(2)]),
                          WorldWith(map[PORT := "n"], map[PORT := POD]))

  /** The pod is deleted. */
  const Gone := Sys(W.State([Added, Relabelled, Deleted], 3, W.Idle, map[],
                            map[0 := PortHandler(3, map[]), 1 := PolicyHandler(3)]),
                    WorldWith(map[PORT := "n"], map[]))

  /** Another pod of the name is added, and its port is about to be created. */
  const Again := Sys(W.State([Added, Relabelled, Deleted, Added], 3, W.Serving({}, Some(0)), map[],
                             map[0 := PortHandler(3, map[]), 1 := PolicyHandler(3)]),
                     WorldWith(map[PORT := "n"], map[]))

  lemma Stores()
    ensures W.Store([Added], 0) == map[] && W.Store([Added], 1) == map[PORT := WEB]
    ensures W.Store([Added, Relabelled], 1) == map[PORT := WEB] && W.Store([Added, Relabelled], 2) == map[PORT := BARE]
    ensures W.Store([Added, Relabelled, Deleted], 3) == map[]
  {
    assert W.Store([Added], 0) == map[];
    assert W.Store([Added, Relabelled], 0) == map[];
    assert W.Store([Added, Relabelled], 1) == map[PORT := WEB];
    assert W.Store([Added, Relabelled, Deleted], 0) == map[];
    assert W.Store([Added, Relabelled, Deleted], 1) == map[PORT := WEB];
    assert W.Store([Added, Relabelled, Deleted], 2) == map[PORT := BARE];
  }

  lemma Stored(c: Sys, new_: Option<W.Obj>) returns (c': Sys)
    requires new_.Some? ==> new_.value.ns == "ns"
    ensures c' == Sys(c.s.(log := c.s.log + [W.Change(PORT, W.At(W.Store(c.s.log, |c.s.log|), PORT), new_)]), c.w)
    ensures Leads(c, [I(W.StoreChange(PORT, new_))], c')
  {
    LeadsOne(c, I(W.StoreChange(PORT, new_)));
    c' := Next(OnNode, c, I(W.StoreChange(PORT, new_)));
  }

  lemma Happens(c: Sys, ev: Event)
    requires Proper(OnNode, InNs, c, Other(ev))
    ensures Leads(c, [Other(ev)], Sys(c.s, WorldStep(c.w, ev)))
  {
    LeadsOne(c, Other(ev));
    assert RunOn(c.w, [ev]) == WorldStep(c.w, ev) by { assert [ev][1..] == []; }
  }

  lemma WithPolicy() returns (moves: seq<Move>)
    ensures Leads(Begun(AllPods), moves, Sys(Begun(AllPods).s, WorldWith(map[], map[])))
  {
    var c := Begun(AllPods);
    var one := Sys(c.s, WorldStep(Empty, NamespaceAdd("ns", {})));
    var two := Sys(c.s, WorldStep(one.w, PolicyAdd(1, SPEC)));
    assert Label("ns") && SpecOk(SPEC);
    Happens(c, NamespaceAdd("ns", {}));
    Happens(one, PolicyAdd(1, SPEC));
    assert two.w == WorldWith(map[], map[]);
    LeadsOn(c, [Other(NamespaceAdd("ns", {}))], one, [Other(PolicyAdd(1, SPEC))], two);
    moves := [Other(NamespaceAdd("ns", {}))] + [Other(PolicyAdd(1, SPEC))];
  }

  lemma ToSnapshotted() returns (moves: seq<Move>)
    ensures Leads(Sys(Begun(AllPods).s, WorldWith(map[], map[])), moves, Snapshotted)
  {
    Stores();
    var c := Sys(Begun(AllPods).s, WorldWith(map[], map[]));
    var stored := Stored(c, Some(WEB));
    assert stored.s.log == [Added];
    var m, told := ToldPort(stored);
    assert told.s.handlers == map[0 := PortHandler(1, map[PORT := WEB])];
    assert told.w == WorldWith(map[], map[PORT := POD]);
    LeadsOne(told, I(W.TakeSnapshot(1, WebPods)));
    LeadsOn(stored, m, told, [I(W.TakeSnapshot(1, WebPods))], Snapshotted);
    moves := [I(W.StoreChange(PORT, Some(WEB)))] + (m + [I(W.TakeSnapshot(1, WebPods))]);
    LeadsOn(c, [I(W.StoreChange(PORT, Some(WEB)))], stored, m + [I(W.TakeSnapshot(1, WebPods))], Snapshotted);
  }

  /** The replay selects the pod, whose port exists, although it no longer matches. */
  lemma Registers(c: Sys)
    requires c == Sys(W.State([Added, Relabelled], 2, W.Idle, map[1 := W.Snapshot(WebPods, 1)],
                              map[0 := PortHandler(2, map[PORT := BARE])]),
                      WorldWith(map[], map[PORT := POD]))
    ensures Leads(c, [Informer(W.Register(1), [PORT])], Registered)
  {
    Stores();
    var mv := Informer(W.Register(1), [PORT]);
    assert WebPods(WEB);
    assert Replays(OnNode, c.s.log, c.s.waiting[1], [PORT]);
    LeadsOne(c, mv);
    assert Adds(1, [PORT]) == [LocalPodAdd(1, PORT)] by { assert [PORT][1..] == []; }
    assert RunOn(c.w, [LocalPodAdd(1, PORT)]) == Registered.w by {
      assert [LocalPodAdd(1, PORT)][1..] == [];
      assert WorldStep(c.w, LocalPodAdd(1, PORT)) == Registered.w;
    }
    assert W.Filtered(WebPods, W.Store(c.s.log, 1)) == map[PORT := WEB];
    assert W.Apply(c.s, mv.st) == Registered.s;
  }

  lemma ToRegistered() returns (moves: seq<Move>)
    ensures Leads(Snapshotted, moves, Registered)
  {
    Stores();
    var c := Snapshotted;
    var stored := Stored(c, Some(BARE));
    assert stored.s.log == [Added, Relabelled];
    var m, told := ToldPort(stored);
    assert told.s.handlers == map[0 := PortHandler(2, map[PORT := BARE])];
    Registers(told);
    LeadsOn(stored, m, told, [Informer(W.Register(1), [PORT])], Registered);
    moves := [I(W.StoreChange(PORT, Some(BARE)))] + (m + [Informer(W.Register(1), [PORT])]);
    LeadsOn(c, [I(W.StoreChange(PORT, Some(BARE)))], stored, m + [Informer(W.Register(1), [PORT])], Registered);
  }

  /** The deletion carries the unlabelled pod, so the policy's handler is not told. */
  lemma ToGone() returns (moves: seq<Move>)
    ensures Leads(Registered, moves, Gone)
  {
    Stores();
    var c := Registered;
    var stored := Stored(c, None);
    assert stored.s.log == [Added, Relabelled, Deleted];
    var m, told := ToldBoth(stored);
    assert !WebPods(BARE) && PolicyCall(OnNode, 1, WebPods, Deleted) == [];
    assert RunOn(c.w, PortCall(OnNode, Deleted)) == Gone.w by {
      assert PortCall(OnNode, Deleted) == [PodDown(PORT)] && [PodDown(PORT)][1..] == [];
      assert WorldStep(c.w, PodDown(PORT)) == Gone.w;
    }
    assert told.s.handlers == Gone.s.handlers;
    moves := [I(W.StoreChange(PORT, None))] + m;
    LeadsOn(c, [I(W.StoreChange(PORT, None))], stored, m, Gone);
  }

  lemma ToAgain() returns (moves: seq<Move>)
    ensures Leads(Gone, moves, Again)
  {
    Stores();
    var stored := Stored(Gone, Some(WEB));
    assert stored.s.log == [Added, Relabelled, Deleted, Added];
    var begun := Sys(W.Apply(stored.s, W.Begin), stored.w);
    Quietly(stored, W.Begin);
    Quietly(begun, W.Check(0));
    LeadsOn(stored, [I(W.Begin)], begun, [I(W.Check(0))], Again);
    moves := [I(W.StoreChange(PORT, Some(WEB)))] + ([I(W.Begin)] + [I(W.Check(0))]);
    LeadsOn(Gone, [I(W.StoreChange(PORT, Some(WEB)))], stored, [I(W.Begin)] + [I(W.Check(0))], Again);
  }

  lemma AgainClashes()
    ensures Clashes(OnNode, Again, I(W.Call)) && Proper(OnNode, InNs, Again, I(W.Call))
  {
    var log, h := Again.s.log, PolicyHandler(3);
    assert W.Store(log, 0) == map[];
    assert W.Store(log, 1) == map[PORT := WEB];
    assert W.Store(log, 2) == map[PORT := BARE];
    assert WebPods(WEB) && !WebPods(BARE);
    assert W.View(WebPods, log, 1, 2, 2) == map[PORT := WEB];
    assert W.View(WebPods, log, 1, 2, 3) == map[PORT := WEB];
    assert W.HandlerOk(log, h);
    assert Replayed(OnNode, log, h, PORT);
    assert log[2] == Deleted && log[3] == Added;
    assert Kept(OnNode, log, h, 3, PORT);
    assert Keeps(OnNode, Again, 1, PORT);
  }

  /** The factory does deliver illegal runs. */
  lemma LostLabelClashes() returns (moves: seq<Move>)
    ensures ProperRun(OnNode, InNs, Begun(AllPods), moves) && !LegalRun(AllEvents(OnNode, Begun(AllPods), moves))
  {
    var a := WithPolicy();
    var b := ToSnapshotted();
    var c := ToRegistered();
    var d := ToGone();
    var e := ToAgain();
    var start, policy := Begun(AllPods), Sys(Begun(AllPods).s, WorldWith(map[], map[]));
    LeadsOn(Registered, d, Gone, e, Again);
    LeadsOn(Snapshotted, c, Registered, d + e, Again);
    LeadsOn(policy, b, Snapshotted, c + (d + e), Again);
    LeadsOn(start, a, policy, b + (c + (d + e)), Again);
    var before := a + (b + (c + (d + e)));
    AgainClashes();
    LeadsOne(Again, I(W.Call));
    LeadsOn(start, before, Again, [I(W.Call)], Next(OnNode, Again, I(W.Call)));
    ClashAtEnd(start, before, Again, I(W.Call));
    moves := before + [I(W.Call)];
    DeliveredRuns(OnNode, InNs, AllPods, moves);
  }
}
