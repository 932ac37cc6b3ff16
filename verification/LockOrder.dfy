/** Locks of the watch factory and the policy code (factory.go, policy.go, pods.go, namespace.go):
    the threads take them in one order, so some thread can always go on. */
module LockOrder {
  datatype Informer = Namespaces | Pods

  datatype Lock = PolicyInformer | Informer(inf: Informer) | Np(id: nat) | NamespaceMutex(ns: string) | LspMutex

  function Rank(l: Lock): nat {
    match l
    case PolicyInformer => 0
    case Informer(_) => 1
    case Np(_) => 2
    case NamespaceMutex(_) => 3
    case LspMutex => 3
  }

  datatype Op = Acq(l: Lock) | Rel(l: Lock)

  // ------------------------------------------------------- programs

  /** Calls of watch handlers. */
  datatype Call =
    | LocalPod(id: nat)
    | Peer(id: nat)
    | PodAdded(ns: string)
    | PodDeleted(ns: string)
    | NamespaceChanged(ns: string)

  function CallOps(c: Call): seq<Op> {
    match c
    case LocalPod(id) => [Acq(Np(id)), Acq(LspMutex), Rel(LspMutex), Rel(Np(id))]
    case Peer(id) => [Acq(Np(id)), Rel(Np(id))]
    case PodAdded(ns) => [Acq(NamespaceMutex(ns)), Rel(NamespaceMutex(ns))]
    case PodDeleted(ns) => [Acq(LspMutex), Rel(LspMutex)] + [Acq(NamespaceMutex(ns)), Rel(NamespaceMutex(ns))]
    case NamespaceChanged(ns) => [Acq(NamespaceMutex(ns)), Rel(NamespaceMutex(ns))]
  }

  function Calls(cs: seq<Call>): seq<Op> { if cs == [] then [] else CallOps(cs[0]) + Calls(cs[1..]) }

  /** What the policy handlers do: register a watch handler, which replays the existing objects
      into it, or delete a policy with so many local pods. */
  datatype Work = Register(inf: Informer, replay: seq<Call>) | DeletePolicy(id: nat, pods: nat)

  function Denies(pods: nat): seq<Op> { if pods == 0 then [] else [Acq(LspMutex), Rel(LspMutex)] + Denies(pods - 1) }

  function WorkOps(w: Work): seq<Op> {
    match w
    case Register(inf, replay) => [Acq(Informer(inf))] + (Calls(replay) + [Rel(Informer(inf))])
    case DeletePolicy(id, pods) => [Acq(Np(id))] + (Denies(pods) + [Rel(Np(id))])
  }

  function Works(ws: seq<Work>): seq<Op> { if ws == [] then [] else WorkOps(ws[0]) + Works(ws[1..]) }

  /** The goroutines: an informer's dispatch of one event, the late registration of an egress
      namespace selector, and the deferred removal of a handler. */
  datatype Goroutine =
    | PolicyDispatch(works: seq<Work>)
    | Dispatch(inf: Informer, calls: seq<Call>)
    | LateRegister(replay: seq<Call>)
    | RemoveHandler(inf: Informer)

  function Program(g: Goroutine): seq<Op> {
    match g
    case PolicyDispatch(works) => [Acq(PolicyInformer)] + (Works(works) + [Rel(PolicyInformer)])
    case Dispatch(inf, calls) => WorkOps(Register(inf, calls))
    case LateRegister(replay) => WorkOps(Register(Namespaces, replay))
    case RemoveHandler(inf) => WorkOps(Register(inf, []))
  }

  // ------------------------------------------------------- programs in rank order

  predicate Below(held: set<Lock>, rank: nat) { forall h | h in held :: Rank(h) < rank }

  /** Running `p` with `held` in hand takes locks in increasing rank and ends with `after`. */
  predicate Ordered(p: seq<Op>, held: set<Lock>, after: set<Lock>)
    decreases |p|
  {
    if p == [] then held == after
    else match p[0]
         case Acq(l) => Below(held, Rank(l)) && Ordered(p[1..], held + {l}, after)
         case Rel(l) => l in held && Ordered(p[1..], held - {l}, after)
  }

  lemma {:induction false} OrderedConcat(p: seq<Op>, q: seq<Op>, held: set<Lock>, mid: set<Lock>, after: set<Lock>)
    requires Ordered(p, held, mid) && Ordered(q, mid, after)
    ensures Ordered(p + q, held, after)
    decreases |p|
  {
    if p == [] {
      assert p + q == q;
    } else {
      assert (p + q)[0] == p[0] && (p + q)[1..] == p[1..] + q;
      OrderedConcat(p[1..], q, if p[0].Acq? then held + {p[0].l} else held - {p[0].l}, mid, after);
    }
  }

  /** A body in rank order, wrapped in a lock of lower rank. */
  lemma Wrapped(l: Lock, body: seq<Op>, held: set<Lock>)
    requires Below(held, Rank(l)) && Ordered(body, held + {l}, held + {l})
    ensures Ordered([Acq(l)] + (body + [Rel(l)]), held, held)
  {
    assert held + {l} - {l} == held;
    assert [Rel(l)][1..] == [];
    OrderedConcat(body, [Rel(l)], held + {l}, held + {l}, held);
    var p := [Acq(l)] + (body + [Rel(l)]);
    assert p[0] == Acq(l) && p[1..] == body + [Rel(l)];
  }

  lemma OneLock(l: Lock, held: set<Lock>)
    requires Below(held, Rank(l))
    ensures Ordered([Acq(l), Rel(l)], held, held)
  {
  }

  lemma CallOrdered(c: Call, held: set<Lock>)
    requires Below(held, 2)
    ensures Ordered(CallOps(c), held, held)
  {
    match c
    case LocalPod(id) =>
      OneLock(LspMutex, held + {Np(id)});
      assert CallOps(c) == [Acq(Np(id))] + ([Acq(LspMutex), Rel(LspMutex)] + [Rel(Np(id))]);
      Wrapped(Np(id), [Acq(LspMutex), Rel(LspMutex)], held);
    case Peer(id) => OneLock(Np(id), held);
    case PodAdded(ns) => OneLock(NamespaceMutex(ns), held);
    case PodDeleted(ns) =>
      OneLock(LspMutex, held);
      OneLock(NamespaceMutex(ns), held);
      OrderedConcat([Acq(LspMutex), Rel(LspMutex)], [Acq(NamespaceMutex(ns)), Rel(NamespaceMutex(ns))], held, held,
                    held);
    case NamespaceChanged(ns) => OneLock(NamespaceMutex(ns), held);
  }

  lemma {:induction false} CallsOrdered(cs: seq<Call>, held: set<Lock>)
    requires Below(held, 2)
    ensures Ordered(Calls(cs), held, held)
  {
    if cs != [] {
      CallOrdered(cs[0], held);
      CallsOrdered(cs[1..], held);
      OrderedConcat(CallOps(cs[0]), Calls(cs[1..]), held, held, held);
    }
  }

  lemma {:induction false} DeniesOrdered(pods: nat, held: set<Lock>)
    requires Below(held, 3)
    ensures Ordered(Denies(pods), held, held)
  {
    if pods > 0 {
      OneLock(LspMutex, held);
      DeniesOrdered(pods - 1, held);
      OrderedConcat([Acq(LspMutex), Rel(LspMutex)], Denies(pods - 1), held, held, held);
    }
  }

  lemma WorkOrdered(w: Work, held: set<Lock>)
    requires Below(held, 1)
    ensures Ordered(WorkOps(w), held, held)
  {
    match w
    case Register(inf, replay) =>
      CallsOrdered(replay, held + {Informer(inf)});
      Wrapped(Informer(inf), Calls(replay), held);
    case DeletePolicy(id, pods) =>
      DeniesOrdered(pods, held + {Np(id)});
      Wrapped(Np(id), Denies(pods), held);
  }

  lemma {:induction false} WorksOrdered(ws: seq<Work>, held: set<Lock>)
    requires Below(held, 1)
    ensures Ordered(Works(ws), held, held)
  {
    if ws != [] {
      WorkOrdered(ws[0], held);
      WorksOrdered(ws[1..], held);
      OrderedConcat(WorkOps(ws[0]), Works(ws[1..]), held, held, held);
    }
  }

  /** Every goroutine, whatever it registers, replays or deletes, takes its locks in the order
      policy informer, namespace or pod informer, policy, then lsp or namespace mutex. */
  lemma ProgramOrdered(g: Goroutine)
    ensures Ordered(Program(g), {}, {})
  {
    match g
    case PolicyDispatch(works) =>
      WorksOrdered(works, {PolicyInformer});
      assert {} + {PolicyInformer} == {PolicyInformer};
      Wrapped(PolicyInformer, Works(works), {});
    case Dispatch(inf, calls) => WorkOrdered(Register(inf, calls), {});
    case LateRegister(replay) => WorkOrdered(Register(Namespaces, replay), {});
    case RemoveHandler(inf) => WorkOrdered(Register(inf, []), {});
  }

  // ------------------------------------------------------- threads

  datatype Thread = Thread(todo: seq<Op>, held: set<Lock>)

  predicate Free(ts: seq<Thread>, l: Lock) { forall i | 0 <= i < |ts| :: l !in ts[i].held }

  predicate Enabled(ts: seq<Thread>, i: nat) {
    i < |ts| && ts[i].todo != [] && (ts[i].todo[0].Acq? ==> Free(ts, ts[i].todo[0].l))
  }

  function Go(ts: seq<Thread>, i: nat): seq<Thread>
    requires Enabled(ts, i)
  {
    var op, t := ts[i].todo[0], ts[i];
    ts[i := Thread(t.todo[1..], if op.Acq? then t.held + {op.l} else t.held - {op.l})]
  }

  /** Any schedule; a thread that cannot go waits. */
  function RunThreads(ts: seq<Thread>, schedule: seq<nat>): seq<Thread>
    decreases |schedule|
  {
    if schedule == [] then ts
    else RunThreads(if Enabled(ts, schedule[0]) then Go(ts, schedule[0]) else ts, schedule[1..])
  }

  predicate Inv(ts: seq<Thread>) {
    && (forall i | 0 <= i < |ts| :: Ordered(ts[i].todo, ts[i].held, {}))
    && (forall i, j | 0 <= i < j < |ts| :: ts[i].held !! ts[j].held)
  }

  lemma GoKeeps(ts: seq<Thread>, i: nat)
    requires Inv(ts) && Enabled(ts, i)
    ensures Inv(Go(ts, i))
  {
  }

  lemma {:induction false} RunKeeps(ts: seq<Thread>, schedule: seq<nat>)
    requires Inv(ts)
    ensures Inv(RunThreads(ts, schedule))
    decreases |schedule|
  {
    if schedule != [] {
      var i := schedule[0];
      if Enabled(ts, i) {
        GoKeeps(ts, i);
      }
      RunKeeps(if Enabled(ts, i) then Go(ts, i) else ts, schedule[1..]);
    }
  }

  predicate WaitsFor(ts: seq<Thread>, i: nat, j: nat) {
    i < |ts| && j < |ts| && ts[i].todo != [] && ts[i].todo[0].Acq? && ts[i].todo[0].l in ts[j].held
  }

  function Wanted(ts: seq<Thread>, i: nat): nat
    requires i < |ts|
  {
    if ts[i].todo != [] && ts[i].todo[0].Acq? then Rank(ts[i].todo[0].l) else 4
  }

  /** Whoever is waited for wants nothing, or a lock of higher rank. */
  lemma WaitingClimbs(ts: seq<Thread>, i: nat, j: nat)
    requires Inv(ts) && WaitsFor(ts, i, j)
    ensures ts[j].todo != [] && Wanted(ts, i) < Wanted(ts, j)
  {
  }

  lemma {:induction false} SomeoneCanGo(ts: seq<Thread>, i: nat) returns (j: nat)
    requires Inv(ts) && i < |ts| && ts[i].todo != []
    ensures Enabled(ts, j)
    decreases 4 - Wanted(ts, i)
  {
    if Enabled(ts, i) {
      j := i;
    } else {
      var k :| 0 <= k < |ts| && ts[i].todo[0].l in ts[k].held;
      WaitingClimbs(ts, i, k);
      j := SomeoneCanGo(ts, k);
    }
  }

  /** A chain of threads, each waiting for the next, never comes back to its start. */
  lemma {:induction false} NoCycle(ts: seq<Thread>, chain: seq<nat>)
    requires Inv(ts) && |chain| >= 2 && forall k | 0 <= k < |chain| - 1 :: WaitsFor(ts, chain[k], chain[k + 1])
    ensures chain[0] < |ts| && chain[|chain| - 1] < |ts| && Wanted(ts, chain[0]) < Wanted(ts, chain[|chain| - 1])
    ensures chain[0] != chain[|chain| - 1]
    decreases |chain|
  {
    var n := |chain| - 1;
    assert WaitsFor(ts, chain[n - 1], chain[n]);
    WaitingClimbs(ts, chain[n - 1], chain[n]);
    if n > 1 {
      NoCycle(ts, chain[..n]);
    }
  }

  function Started(gs: seq<Goroutine>): seq<Thread> {
    seq(|gs|, i requires 0 <= i < |gs| => Thread(Program(gs[i]), {}))
  }

  lemma StartedOk(gs: seq<Goroutine>)
    ensures Inv(Started(gs))
  {
    forall i | 0 <= i < |gs| ensures Ordered(Started(gs)[i].todo, {}, {}) {
      ProgramOrdered(gs[i]);
    }
  }

  /** Lock ordering rules out deadlock: in every state that any number of these goroutines reach
      under any schedule, if one of them is not finished then one of them can take a step, and no
      threads wait for each other in a cycle. */
  lemma NoDeadlock(gs: seq<Goroutine>, schedule: seq<nat>)
    ensures var ts := RunThreads(Started(gs), schedule);
            && Inv(ts)
            && ((exists i | 0 <= i < |ts| :: ts[i].todo != []) ==> exists j: nat :: Enabled(ts, j))
            && (forall chain: seq<nat> | |chain| >= 2
                && (forall k | 0 <= k < |chain| - 1 :: WaitsFor(ts, chain[k], chain[k + 1])) ::
                  chain[0] != chain[|chain| - 1])
  {
    var ts := RunThreads(Started(gs), schedule);
    StartedOk(gs);
    RunKeeps(Started(gs), schedule);
    if i :| 0 <= i < |ts| && ts[i].todo != [] {
      var j := SomeoneCanGo(ts, i);
      assert Enabled(ts, j);
    }
    forall chain: seq<nat> | |chain| >= 2 && (forall k | 0 <= k < |chain| - 1 :: WaitsFor(ts, chain[k], chain[k + 1]))
      ensures chain[0] != chain[|chain| - 1]
    {
      NoCycle(ts, chain);
    }
  }

  // ------------------------------------------------------- the nested selector path

  /** A replayed pod reaches the policy lock unless it has no address or its address is known. */
  predicate Reaches(known: set<string>, ip: string) { ip != "" && ip !in known }

  function NestedReplay(id: nat, known: set<string>, ips: seq<string>): seq<Op> {
    if ips == [] then []
    else (if Reaches(known, ips[0]) then [Acq(Np(id)), Rel(Np(id))] else []) + NestedReplay(id, known, ips[1..])
  }

  function NestedEnd(id: nat): seq<Op> { [Rel(Np(id)), Rel(Informer(Namespaces))] }

  function NestedBody(id: nat, known: set<string>, ips: seq<string>): seq<Op> {
    [Acq(Informer(Pods))] + (NestedReplay(id, known, ips) + ([Rel(Informer(Pods))] + NestedEnd(id)))
  }

  /** handlePeerNamespaceAndPodSelector registers a pod handler while it holds the policy lock,
      and the replay of the pods with these addresses takes that lock again. */
  function NestedSelector(id: nat, deleted: bool, known: set<string>, ips: seq<string>): seq<Op> {
    [Acq(Informer(Namespaces))] + ([Acq(Np(id))] + (if deleted then NestedEnd(id) else NestedBody(id, known, ips)))
  }

  /** A thread with no other thread around never asks for a lock it holds. */
  predicate Solo(p: seq<Op>, held: set<Lock>)
    decreases |p|
  {
    p == [] || if p[0].Acq? then p[0].l !in held && Solo(p[1..], held + {p[0].l}) else Solo(p[1..], held - {p[0].l})
  }

  function Alone(p: seq<Op>, held: set<Lock>, schedule: seq<nat>): seq<Thread> {
    RunThreads([Thread(p, held)], schedule)
  }

  predicate Finished(ts: seq<Thread>) { forall t | t in ts :: t.todo == [] }

  lemma {:induction false} SoloFinishes(p: seq<Op>, held: set<Lock>)
    requires Solo(p, held)
    ensures Finished(Alone(p, held, seq(|p|, _ => 0)))
    decreases |p|
  {
    if p != [] {
      var held' := if p[0].Acq? then held + {p[0].l} else held - {p[0].l};
      SoloFinishes(p[1..], held');
      var zeros: seq<nat> := seq(|p|, _ => 0);
      assert zeros[1..] == seq(|p[1..]|, _ => 0);
      assert Go([Thread(p, held)], 0) == [Thread(p[1..], held')];
    }
  }

  lemma {:induction false} StuckStays(p: seq<Op>, held: set<Lock>, schedule: seq<nat>)
    requires !Solo(p, held)
    ensures !Finished(Alone(p, held, schedule))
    decreases |schedule|
  {
    if schedule == [] {
      assert Thread(p, held) in [Thread(p, held)];
    } else if Enabled([Thread(p, held)], schedule[0]) {
      var held' := if p[0].Acq? then held + {p[0].l} else held - {p[0].l};
      assert Go([Thread(p, held)], 0) == [Thread(p[1..], held')];
      StuckStays(p[1..], held', schedule[1..]);
    } else {
      StuckStays(p, held, schedule[1..]);
    }
  }

  lemma {:induction false} SoloReplay(id: nat, known: set<string>, ips: seq<string>, rest: seq<Op>, held: set<Lock>)
    requires Np(id) in held
    ensures Solo(NestedReplay(id, known, ips) + rest, held)
        <==> (forall ip | ip in ips :: !Reaches(known, ip)) && Solo(rest, held)
    decreases |ips|
  {
    if ips == [] {
      assert NestedReplay(id, known, ips) + rest == rest;
    } else if Reaches(known, ips[0]) {
      assert (NestedReplay(id, known, ips) + rest)[0] == Acq(Np(id));
    } else {
      assert NestedReplay(id, known, ips) == NestedReplay(id, known, ips[1..]);
      SoloReplay(id, known, ips[1..], rest, held);
      assert ips == [ips[0]] + ips[1..];
    }
  }

  lemma SoloAcq(l: Lock, rest: seq<Op>, held: set<Lock>)
    requires l !in held
    ensures Solo([Acq(l)] + rest, held) <==> Solo(rest, held + {l})
  {
    assert ([Acq(l)] + rest)[1..] == rest;
  }

  lemma SoloEnd(id: nat, held: set<Lock>)
    ensures Solo(NestedEnd(id), held)
  {
    var last := [Rel(Informer(Namespaces))];
    assert NestedEnd(id)[1..] == last && last[1..] == [];
    assert Solo(last, held - {Np(id)});
  }

  lemma SoloNested(id: nat, deleted: bool, known: set<string>, ips: seq<string>)
    ensures Solo(NestedSelector(id, deleted, known, ips), {})
        <==> deleted || forall ip | ip in ips :: !Reaches(known, ip)
  {
    var held := {} + {Informer(Namespaces)} + {Np(id)};
    var end := NestedEnd(id);
    var tail := [Rel(Informer(Pods))] + end;
    assert tail[1..] == end;
    SoloEnd(id, held);
    SoloEnd(id, held + {Informer(Pods)} - {Informer(Pods)});
    SoloReplay(id, known, ips, tail, held + {Informer(Pods)});
    SoloAcq(Informer(Pods), NestedReplay(id, known, ips) + tail, held);
    var rest := if deleted then end else NestedBody(id, known, ips);
    SoloAcq(Np(id), rest, {} + {Informer(Namespaces)});
    SoloAcq(Informer(Namespaces), [Acq(Np(id))] + rest, {});
  }

  /** With no other thread around, the nested selector's goroutine can end exactly when the
      policy is deleted or no replayed pod reaches the policy lock; otherwise it blocks itself. */
  lemma NestedSelectorBlocksItself(id: nat, deleted: bool, known: set<string>, ips: seq<string>)
    ensures (exists schedule: seq<nat> :: Finished(Alone(NestedSelector(id, deleted, known, ips), {}, schedule)))
        <==> deleted || forall ip | ip in ips :: !Reaches(known, ip)
  {
    var p := NestedSelector(id, deleted, known, ips);
    SoloNested(id, deleted, known, ips);
    if Solo(p, {}) {
      SoloFinishes(p, {});
    } else {
      forall schedule: seq<nat> ensures !Finished(Alone(p, {}, schedule)) {
        StuckStays(p, {}, schedule);
      }
    }
  }

  /** It is outside the order unless the policy is deleted, whatever is replayed. */
  lemma NestedSelectorOrdered(id: nat, deleted: bool, known: set<string>, ips: seq<string>)
    ensures Ordered(NestedSelector(id, deleted, known, ips), {}, {}) <==> deleted
  {
    var p := NestedSelector(id, deleted, known, ips);
    var rest := if deleted then NestedEnd(id) else NestedBody(id, known, ips);
    assert p[1..] == [Acq(Np(id))] + rest && p[1..][1..] == rest;
    var held := {} + {Informer(Namespaces)} + {Np(id)};
    assert Ordered(p, {}, {}) <==> Ordered(rest, held, {});
    if deleted {
      var last := [Rel(Informer(Namespaces))];
      assert rest[1..] == last && last[1..] == [];
      assert held - {Np(id)} - {Informer(Namespaces)} == {};
      assert Ordered(last, held - {Np(id)}, {});
    } else {
      assert Np(id) in held && rest[0] == Acq(Informer(Pods));
    }
  }

  /** Even when nothing is replayed it can deadlock with a dispatch to the same policy: one
      holds the policy lock and wants the pod informer, the other the reverse. */
  lemma NestedSelectorDeadlocks(id: nat, known: set<string>, ips: seq<string>, calls: seq<Call>)
    requires calls != [] && (calls[0] == Peer(id) || calls[0] == LocalPod(id))
    ensures var ts := RunThreads([Thread(NestedSelector(id, false, known, ips), {}),
                                  Thread(Program(Dispatch(Pods, calls)), {})],
                                 [0, 0, 1]);
            |ts| == 2 && WaitsFor(ts, 0, 1) && WaitsFor(ts, 1, 0) && forall i: nat :: !Enabled(ts, i)
  {
    var p, q := NestedSelector(id, false, known, ips), Program(Dispatch(Pods, calls));
    var rest := NestedBody(id, known, ips);
    assert p[1..] == [Acq(Np(id))] + rest && q[1..] == Calls(calls) + [Rel(Informer(Pods))];
    assert Calls(calls)[0] == CallOps(calls[0])[0] == Acq(Np(id));
    CrossedLocks(id, p, q);
  }

  /** One thread takes the policy lock and then wants the pod informer, the other the reverse. */
  lemma CrossedLocks(id: nat, p: seq<Op>, q: seq<Op>)
    requires |p| > 2 && p[0] == Acq(Informer(Namespaces)) && p[1] == Acq(Np(id)) && p[2] == Acq(Informer(Pods))
    requires |q| > 1 && q[0] == Acq(Informer(Pods)) && q[1] == Acq(Np(id))
    ensures var ts := RunThreads([Thread(p, {}), Thread(q, {})], [0, 0, 1]);
            |ts| == 2 && WaitsFor(ts, 0, 1) && WaitsFor(ts, 1, 0) && forall i: nat :: !Enabled(ts, i)
  {
    var t1 := Thread(p[1..], {} + {Informer(Namespaces)});
    var t2 := Thread(p[1..][1..], t1.held + {Np(id)});
    var u0, u1 := Thread(q, {}), Thread(q[1..], {} + {Informer(Pods)});
    assert Go([Thread(p, {}), u0], 0) == [t1, u0] && Go([t1, u0], 0) == [t2, u0] && Go([t2, u0], 1) == [t2, u1];
    var s3: seq<nat>, s2: seq<nat>, s1: seq<nat> := [0, 0, 1], [0, 1], [1];
    assert s3[1..] == s2 && s2[1..] == s1 && s1[1..] == [];
    assert RunThreads([t2, u0], s1) == [t2, u1];
    assert RunThreads([t1, u0], s2) == [t2, u1];
    assert t2.todo[0] == Acq(Informer(Pods)) && u1.todo[0] == Acq(Np(id));
  }
}
