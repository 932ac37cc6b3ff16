/** The watch factory feeding the policy code (factory.go, ovn.go, policy.go): the pod informer's steps
    are translated to the calls its handlers make, one handler for logical ports and one per policy
    for its local pods, and the runs that come out are compared with the legal ones. */
module PodDelivery {
  import opened Acl
  import opened PolicyWorld
  import W = WatchFactory

  /** The node a pod object names; the empty text before it is scheduled. */
  type Nodes = W.Obj -> string

  predicate Scheduled(node: Nodes, o: Option<W.Obj>) { o.Some? && node(o.value) != "" }

  /** The local pod handlers wait for the annotation and the node. */
  predicate Ready(node: Nodes, o: Option<W.Obj>) { Scheduled(node, o) && o.value.ip.Some? }

  // ------------------------------------------------------- what the handlers call

  /** WatchPods. */
  function PortCall(node: Nodes, c: W.Change): seq<Event> {
    if Scheduled(node, c.new_) && !Scheduled(node, c.old_) then [PodUp(c.key, Pod(c.new_.value.ns, node(c.new_.value)))]
    else if c.new_.None? then [PodDown(c.key)]
    else []
  }

  /** handleLocalPodSelector behind the filtering handler. */
  function PolicyCall(node: Nodes, id: nat, f: W.Filter, c: W.Change): seq<Event> {
    if W.Passes(f, c.new_) then (if Ready(node, c.new_) then [LocalPodAdd(id, c.key)] else [])
    else if W.Passes(f, c.old_) && Scheduled(node, c.old_) then [LocalPodDel(id, c.key)]
    else []
  }

  function Adds(id: nat, ports: seq<string>): seq<Event> {
    if ports == [] then [] else [LocalPodAdd(id, ports[0])] + Adds(id, ports[1..])
  }

  predicate CanCall(s: W.State) {
    s.dispatch.Serving? && s.dispatch.calling.Some? && s.dispatch.calling.value in s.handlers && s.done < |s.log|
  }

  predicate CanRegister(s: W.State, id: nat) {
    s.dispatch == W.Idle && id in s.waiting && s.waiting[id].snap <= |s.log|
  }

  /** The calls a step of the pod informer makes; `order` is the order of a replay. */
  function Calls(node: Nodes, s: W.State, st: W.Step, order: seq<string>): seq<Event> {
    match st
    case Call =>
      if !CanCall(s) then []
      else
        var id, c := s.dispatch.calling.value, s.log[s.done];
        if id == 0 then PortCall(node, c) else PolicyCall(node, id, s.handlers[id].filter, c)
    case Register(id) => if CanRegister(s, id) && id != 0 then Adds(id, order) else []
    case _ => []
  }

  // ------------------------------------------------------- the two machines together

  datatype Sys = Sys(s: W.State, w: World)

  /** A step of the pod informer, or an event of another kind. */
  datatype Move = Informer(st: W.Step, order: seq<string>) | Other(ev: Event)

  function EventsOf(node: Nodes, c: Sys, mv: Move): seq<Event> {
    match mv
    case Informer(st, order) => Calls(node, c.s, st, order)
    case Other(ev) => [ev]
  }

  function RunOn(w: World, evs: seq<Event>): World
    decreases |evs|
  {
    if evs == [] then w else RunOn(WorldStep(w, evs[0]), evs[1..])
  }

  ghost predicate LegalOn(w: World, evs: seq<Event>)
    decreases |evs|
  {
    evs == [] || (Legal(w, evs[0]) && LegalOn(WorldStep(w, evs[0]), evs[1..]))
  }

  function Next(node: Nodes, c: Sys, mv: Move): Sys {
    Sys(if mv.Informer? then W.Apply(c.s, mv.st) else c.s, RunOn(c.w, EventsOf(node, c, mv)))
  }

  predicate PodEvent(ev: Event) { ev.PodUp? || ev.PodDown? || ev.LocalPodAdd? || ev.LocalPodDel? }

  ghost predicate OfNamespace(f: W.Filter, ns: string) { forall o | f(o) :: o.ns == ns }

  /** A pod's key names its namespace, and a scheduled pod stays scheduled until it is deleted. */
  ghost predicate ObjectOk(node: Nodes, nsOf: string -> string, c: W.Change) {
    c.new_.Some? ==> c.new_.value.ns == nsOf(c.key) && (Scheduled(node, c.old_) ==> Scheduled(node, c.new_))
  }

  /** The replay covers what the snapshot has ready. */
  ghost predicate Replays(node: Nodes, log: seq<W.Change>, w: W.Snapshot, order: seq<string>)
    requires w.snap <= |log|
  {
    forall p :: p in order <==> Ready(node, W.Pass(w.filter, W.At(W.Store(log, w.snap), p)))
  }

  /** What the API server and the policy code see to: keys and nodes as above; a policy watches pods
      of its namespace, after it was added and until it is deleted; other events are legal. */
  ghost predicate Proper(node: Nodes, nsOf: string -> string, c: Sys, mv: Move) {
    match mv
    case Other(ev) =>
      && !PodEvent(ev) && Legal(c.w, ev)
      && (ev.PolicyAdd? ==> ev.id != 0 && ev.id !in c.s.handlers && ev.id !in c.s.waiting)
    case Informer(st, order) =>
      match st
      case StoreChange(key, new_) =>
        ObjectOk(node, nsOf, W.Change(key, W.At(W.Store(c.s.log, |c.s.log|), key), new_))
      case TakeSnapshot(id, f) => id in c.w.policies ==> OfNamespace(f, c.w.policies[id].spec.ns)
      case Register(id) => CanRegister(c.s, id) ==> Replays(node, c.s.log, c.s.waiting[id], order)
      case Remove(id) => id != 0 && id !in c.w.policies
      case Shutdown => false
      case _ => true
  }

  // ------------------------------------------------------- pods a policy cannot let go of

  /** The replay of the snapshot selected the pod: it was ready and passed the filter then, and its
      port existed at the registration. */
  predicate Replayed(node: Nodes, log: seq<W.Change>, h: W.Handler, p: string)
    requires h.snap <= |log| && h.reg <= |log|
  {
    && Ready(node, W.Pass(h.filter, W.At(W.Store(log, h.snap), p)))
    && Scheduled(node, W.At(W.Store(log, h.reg), p))
  }

  predicate TakesBack(node: Nodes, f: W.Filter, c: W.Change, p: string) {
    c.key == p && W.Passes(f, c.old_) && Scheduled(node, c.old_) && !W.Passes(f, c.new_)
  }

  /** The replay selected the pod and no call up to n took it back. */
  ghost predicate Kept(node: Nodes, log: seq<W.Change>, h: W.Handler, n: nat, p: string)
    requires h.snap <= |log| && h.reg <= n <= |log|
  {
    Replayed(node, log, h, p) && forall i | h.reg <= i < n :: !TakesBack(node, h.filter, log[i], p)
  }

  lemma KeptNext(node: Nodes, log: seq<W.Change>, h: W.Handler, n: nat, p: string)
    requires h.snap <= |log| && h.reg <= n < |log|
    ensures Kept(node, log, h, n + 1, p) <==> Kept(node, log, h, n, p) && !TakesBack(node, h.filter, log[n], p)
  {
  }

  // ------------------------------------------------------- the invariant

  ghost predicate LogFits(node: Nodes, nsOf: string -> string, log: seq<W.Change>) {
    forall i | 0 <= i < |log| :: ObjectOk(node, nsOf, log[i])
  }

  /** The ports that exist are those of the scheduled pods the port handler has been told of. */
  ghost predicate PortsOk(node: Nodes, nsOf: string -> string, c: Sys) {
    && 0 in c.s.handlers && !c.s.handlers[0].dead && c.s.handlers[0].seen <= |c.s.log|
    && (forall p :: p in c.w.alive <==> Scheduled(node, W.At(W.Store(c.s.log, c.s.handlers[0].seen), p)))
    && (forall p | p in c.w.alive :: c.w.alive[p].ns == nsOf(p))
  }

  ghost predicate PodOk(node: Nodes, log: seq<W.Change>, h: W.Handler, pods: map<string, string>, p: string)
    requires h.snap <= |log| && h.reg <= h.seen <= |log|
  {
    && (Kept(node, log, h, h.seen, p) ==> p in pods)
    && (p in pods ==> Kept(node, log, h, h.seen, p) || InSight(node, log, h, h.seen, p))
  }

  /** The pod passes the filter and has a node, as far as the handler has been told. */
  predicate InSight(node: Nodes, log: seq<W.Change>, h: W.Handler, n: nat, p: string)
    requires n <= |log|
  {
    W.Passes(h.filter, W.At(W.Store(log, n), p)) && Scheduled(node, W.At(W.Store(log, n), p))
  }

  /** A live policy's handler is alive, its namespace's, and its pods are as above. */
  ghost predicate WatchOk(node: Nodes, c: Sys, id: nat)
    requires id in c.w.policies
  {
    && id != 0 && (id in c.s.waiting ==> OfNamespace(c.s.waiting[id].filter, c.w.policies[id].spec.ns))
    && (id !in c.s.handlers ==> c.w.policies[id].pods == map[])
    && (id in c.s.handlers ==>
          var h := c.s.handlers[id];
          && !h.dead && OfNamespace(h.filter, c.w.policies[id].spec.ns) && W.HandlerOk(c.s.log, h) && h.reg <= c.s.done
          && forall p :: PodOk(node, c.s.log, h, c.w.policies[id].pods, p))
  }

  /** A change that will create a port is being dispatched and the port handler is still to come. */
  predicate PortPending(node: Nodes, s: W.State) {
    && s.dispatch.Serving? && 0 !in s.dispatch.served && s.done < |s.log|
    && Scheduled(node, s.log[s.done].new_) && !Scheduled(node, s.log[s.done].old_)
  }

  /** Then no policy has the pod unless it could not let go of an earlier one of the name. */
  ghost predicate PendingOk(node: Nodes, c: Sys, id: nat)
    requires id in c.w.policies
  {
    PortPending(node, c.s) && id in c.s.handlers && W.HandlerOk(c.s.log, c.s.handlers[id]) ==>
      var p := c.s.log[c.s.done].key;
      p in c.w.policies[id].pods ==> Kept(node, c.s.log, c.s.handlers[id], c.s.handlers[id].seen, p)
  }

  ghost predicate SysOk(node: Nodes, nsOf: string -> string, c: Sys) {
    && W.Inv(c.s) && LogFits(node, nsOf, c.s.log) && PortsOk(node, nsOf, c)
    && forall id | id in c.w.policies :: WatchOk(node, c, id) && PendingOk(node, c, id)
  }

  /** The policy's replay selected the pod, and no call up to now took it back. */
  ghost predicate Keeps(node: Nodes, c: Sys, id: nat, p: string) {
    && id in c.s.handlers && W.HandlerOk(c.s.log, c.s.handlers[id])
    && Kept(node, c.s.log, c.s.handlers[id], c.s.handlers[id].seen, p)
  }

  ghost predicate SomeoneKeeps(node: Nodes, c: Sys, p: string) {
    exists id | id in c.w.policies :: Keeps(node, c, id, p)
  }

  /** The port of a pod is about to be created while some live policy still has an earlier pod of
      that name: its replay selected it, and no later call took it back. */
  ghost predicate Clashes(node: Nodes, c: Sys, mv: Move) {
    && mv.Informer? && mv.st.Call? && CanCall(c.s) && c.s.dispatch.calling == Some(0) && PortPending(node, c.s)
    && SomeoneKeeps(node, c, c.s.log[c.s.done].key)
  }

  // ------------------------------------------------------- steps that call nobody

  /** The policy and what the factory knows of it stay as they are. */
  ghost predicate SameWatch(c: Sys, c': Sys, id: nat) {
    && id in c.w.policies && id in c'.w.policies
    && c'.w.policies[id].pods == c.w.policies[id].pods && c'.w.policies[id].spec == c.w.policies[id].spec
    && c'.s.log == c.s.log && (id in c'.s.handlers <==> id in c.s.handlers)
    && (id in c.s.handlers ==> c'.s.handlers[id] == c.s.handlers[id])
  }

  lemma WatchFrame(node: Nodes, c: Sys, c': Sys, id: nat)
    requires SameWatch(c, c', id) && WatchOk(node, c, id) && c.s.done <= c'.s.done
    requires id in c'.s.waiting ==> OfNamespace(c'.s.waiting[id].filter, c.w.policies[id].spec.ns)
    ensures WatchOk(node, c', id)
  {
  }

  lemma PendingFrame(node: Nodes, c: Sys, c': Sys, id: nat)
    requires SameWatch(c, c', id) && PendingOk(node, c, id)
    requires PortPending(node, c'.s) ==> PortPending(node, c.s) && c'.s.done == c.s.done
    ensures PendingOk(node, c', id)
  {
  }

  lemma PortsFrame(node: Nodes, nsOf: string -> string, c: Sys, c': Sys)
    requires PortsOk(node, nsOf, c) && c'.w.alive == c.w.alive && c'.s.log == c.s.log
    requires 0 in c'.s.handlers && c'.s.handlers[0] == c.s.handlers[0]
    ensures PortsOk(node, nsOf, c')
  {
  }

  /** Other events touch no pods: a policy keeps its own, and a new one has none. */
  lemma OtherPods(w: World, ev: Event, id: nat)
    requires !PodEvent(ev) && id in WorldStep(w, ev).policies
    ensures WorldStep(w, ev).alive == w.alive
    ensures if id in w.policies && !(ev.PolicyAdd? && ev.id == id)
            then var p, p' := w.policies[id], WorldStep(w, ev).policies[id]; p'.pods == p.pods && p'.spec == p.spec
            else ev.PolicyAdd? && ev.id == id && (id in w.policies || WorldStep(w, ev).policies[id].pods == map[])
  {
  }

  lemma AliveKept(w: World, ev: Event)
    requires !PodEvent(ev)
    ensures WorldStep(w, ev).alive == w.alive
  {
  }

  lemma OtherOk(node: Nodes, nsOf: string -> string, c: Sys, ev: Event)
    requires SysOk(node, nsOf, c) && Proper(node, nsOf, c, Other(ev)) && WorldOk(c.w)
    ensures LegalOn(c.w, [ev]) && SysOk(node, nsOf, Sys(c.s, WorldStep(c.w, ev)))
  {
    var c' := Sys(c.s, WorldStep(c.w, ev));
    assert [ev][1..] == [];
    AliveKept(c.w, ev);
    PortsFrame(node, nsOf, c, c');
    forall id | id in c'.w.policies ensures WatchOk(node, c', id) && PendingOk(node, c', id) {
      OtherPods(c.w, ev, id);
      if ev.PolicyAdd? && ev.id == id {
        assert id in c.w.policies ==> id in c.w.used;
      } else {
        WatchFrame(node, c, c', id);
        PendingFrame(node, c, c', id);
      }
    }
  }

  /** Steps of the informer that leave log, port handler and live policies' handlers alone. */
  predicate Quiet(st: W.Step) { st.TakeSnapshot? || st.Begin? || st.Check? || st.End? || st.Remove? || st.Purge? }

  lemma QuietHandlers(node: Nodes, nsOf: string -> string, c: Sys, st: W.Step, id: nat)
    requires SysOk(node, nsOf, c) && Quiet(st) && Proper(node, nsOf, c, Informer(st, []))
    requires id == 0 || id in c.w.policies
    ensures var s' := W.Apply(c.s, st);
            && s'.log == c.s.log && c.s.done <= s'.done && (id in s'.handlers <==> id in c.s.handlers)
            && (id in c.s.handlers ==> s'.handlers[id] == c.s.handlers[id])
            && (id in s'.waiting && id in c.w.policies ==> OfNamespace(s'.waiting[id].filter, c.w.policies[id].spec.ns))
            && (PortPending(node, s') && !st.Begin? ==> PortPending(node, c.s) && s'.done == c.s.done)
  {
    if id in c.w.policies {
      assert WatchOk(node, c, id);
    }
    QuietState(node, c.s, st, id);
  }

  lemma QuietState(node: Nodes, s: W.State, st: W.Step, id: nat)
    requires Quiet(st) && (id in s.handlers ==> !s.handlers[id].dead) && !(st.Remove? && st.id == id)
    ensures var s' := W.Apply(s, st);
            && s'.log == s.log && s.done <= s'.done && (id in s'.handlers <==> id in s.handlers)
            && (id in s.handlers ==> s'.handlers[id] == s.handlers[id])
            && (id in s'.waiting ==>
                  (id in s.waiting && s'.waiting[id] == s.waiting[id])
                  || (st.TakeSnapshot? && st.id == id && s'.waiting[id].filter == st.filter))
            && (PortPending(node, s') && !st.Begin? ==> PortPending(node, s) && s'.done == s.done)
  {
  }

  /** When a dispatch begins, all live handlers have been told the same. */
  lemma BeginPending(node: Nodes, nsOf: string -> string, c: Sys, c': Sys, id: nat)
    requires SysOk(node, nsOf, c) && c' == Sys(W.Apply(c.s, W.Begin), c.w) && id in c.w.policies
    ensures PendingOk(node, c', id)
  {
    assert WatchOk(node, c, id) && PendingOk(node, c, id);
    if PortPending(node, c'.s) && id in c.s.handlers && c.s.dispatch == W.Idle {
      var h, p := c.s.handlers[id], c.s.log[c.s.done].key;
      assert W.LiveOk(c.s, id, h) && W.ChangeOk(c.s.log, c.s.done);
      assert PodOk(node, c.s.log, h, c.w.policies[id].pods, p);
    }
  }

  lemma QuietOk(node: Nodes, nsOf: string -> string, c: Sys, st: W.Step)
    requires SysOk(node, nsOf, c) && Quiet(st) && Proper(node, nsOf, c, Informer(st, []))
    ensures SysOk(node, nsOf, Sys(W.Apply(c.s, st), c.w))
  {
    var c' := Sys(W.Apply(c.s, st), c.w);
    W.StepKeeps(c.s, st);
    QuietHandlers(node, nsOf, c, st, 0);
    PortsFrame(node, nsOf, c, c');
    forall id | id in c'.w.policies ensures WatchOk(node, c', id) && PendingOk(node, c', id) {
      QuietHandlers(node, nsOf, c, st, id);
      WatchFrame(node, c, c', id);
      if st.Begin? {
        BeginPending(node, nsOf, c, c', id);
      } else {
        PendingFrame(node, c, c', id);
      }
    }
  }

  // ------------------------------------------------------- the store changes

  lemma KeptExtends(node: Nodes, log: seq<W.Change>, e: W.Change, h: W.Handler, n: nat, p: string)
    requires h.snap <= |log| && h.reg <= n <= |log|
    ensures Kept(node, log + [e], h, n, p) <==> Kept(node, log, h, n, p)
    ensures InSight(node, log + [e], h, n, p) <==> InSight(node, log, h, n, p)
  {
    W.StoreExtends(log, e, h.snap);
    W.StoreExtends(log, e, h.reg);
    W.StoreExtends(log, e, n);
    assert forall i | 0 <= i < |log| :: (log + [e])[i] == log[i];
  }

  lemma StoreWatch(node: Nodes, c: Sys, c': Sys, e: W.Change, id: nat)
    requires id in c.w.policies && WatchOk(node, c, id) && PendingOk(node, c, id)
    requires c'.w == c.w && c'.s == c.s.(log := c.s.log + [e]) && W.Inv(c'.s) && W.Inv(c.s)
    ensures WatchOk(node, c', id) && PendingOk(node, c', id)
  {
    if id in c.s.handlers {
      var h := c.s.handlers[id];
      assert W.HandlerOk(c'.s.log, h);
      forall p ensures PodOk(node, c'.s.log, h, c.w.policies[id].pods, p) {
        assert PodOk(node, c.s.log, h, c.w.policies[id].pods, p);
        KeptExtends(node, c.s.log, e, h, h.seen, p);
      }
      if PortPending(node, c'.s) {
        assert c'.s.log[c.s.done] == c.s.log[c.s.done];
        KeptExtends(node, c.s.log, e, h, h.seen, c.s.log[c.s.done].key);
      }
    }
  }

  lemma StoreOk(node: Nodes, nsOf: string -> string, c: Sys, key: string, new_: Option<W.Obj>)
    requires SysOk(node, nsOf, c) && Proper(node, nsOf, c, Informer(W.StoreChange(key, new_), []))
    ensures SysOk(node, nsOf, Sys(W.Apply(c.s, W.StoreChange(key, new_)), c.w))
  {
    var c' := Sys(W.Apply(c.s, W.StoreChange(key, new_)), c.w);
    var e := W.Change(key, W.At(W.Store(c.s.log, |c.s.log|), key), new_);
    W.StepKeeps(c.s, W.StoreChange(key, new_));
    W.StoreExtends(c.s.log, e, c.s.handlers[0].seen);
    forall id | id in c'.w.policies ensures WatchOk(node, c', id) && PendingOk(node, c', id) {
      StoreWatch(node, c, c', e, id);
    }
  }

  // ------------------------------------------------------- calls

  lemma StoreNext(log: seq<W.Change>, n: nat, p: string)
    requires W.LogOk(log) && n < |log|
    ensures W.At(W.Store(log, n + 1), p) == if p == log[n].key then log[n].new_ else W.At(W.Store(log, n), p)
    ensures p == log[n].key ==> W.At(W.Store(log, n), p) == log[n].old_
  {
    assert W.ChangeOk(log, n);
  }

  /** What a local pod call does to the policy's pods. */
  predicate PodAfter(node: Nodes, f: W.Filter, e: W.Change, alive: map<string, Pod>, had: bool, p: string) {
    if e.key != p then had
    else if W.Passes(f, e.new_) then had || (Ready(node, e.new_) && p in alive)
    else had && !TakesBack(node, f, e, p)
  }

  lemma PodAfterCall(node: Nodes, nsOf: string -> string, log: seq<W.Change>, h: W.Handler, pods: map<string, string>,
                     alive: map<string, Pod>, h': W.Handler, pods': map<string, string>, p: string)
    requires W.LogOk(log) && LogFits(node, nsOf, log) && h.snap <= |log| && h.reg <= h.seen < |log|
    requires h'.filter == h.filter && h'.snap == h.snap && h'.reg == h.reg && h'.seen == h.seen + 1
    requires PodOk(node, log, h, pods, p)
    requires p in pods' <==> PodAfter(node, h.filter, log[h.seen], alive, p in pods, p)
    ensures PodOk(node, log, h', pods', p)
  {
    var n := h.seen;
    StoreNext(log, n, p);
    KeptNext(node, log, h, n, p);
    assert Kept(node, log, h', n + 1, p) <==> Kept(node, log, h, n + 1, p);
    assert InSight(node, log, h', n + 1, p) <==> InSight(node, log, h, n + 1, p);
    assert ObjectOk(node, nsOf, log[n]);
  }

  lemma LocalPodStep(node: Nodes, w: World, id: nat, f: W.Filter, e: W.Change, p: string)
    requires id in w.policies
    ensures var w' := RunOn(w, PolicyCall(node, id, f, e));
            && id in w'.policies && w'.alive == w.alive && w'.policies[id].spec == w.policies[id].spec
            && (p in w'.policies[id].pods <==> PodAfter(node, f, e, w.alive, p in w.policies[id].pods, p))
  {
  }

  /** A call of one policy's handler does not concern the others. */
  lemma LocalPodOthers(node: Nodes, w: World, id: nat, f: W.Filter, e: W.Change)
    ensures var w' := RunOn(w, PolicyCall(node, id, f, e));
            && w'.alive == w.alive && w'.policies.Keys == w.policies.Keys
            && forall j | j in w.policies && j != id :: w'.policies[j] == w.policies[j]
  {
  }

  lemma {:induction false} StoreNs(node: Nodes, nsOf: string -> string, log: seq<W.Change>, n: nat, p: string)
    requires LogFits(node, nsOf, log) && n <= |log|
    ensures p in W.Store(log, n) ==> W.Store(log, n)[p].ns == nsOf(p)
  {
    if n > 0 {
      StoreNs(node, nsOf, log, n - 1, p);
      assert ObjectOk(node, nsOf, log[n - 1]);
    }
  }

  /** Local pod calls are always legal. */
  lemma LocalPodLegal(node: Nodes, nsOf: string -> string, c: Sys, id: nat)
    requires SysOk(node, nsOf, c) && CanCall(c.s) && c.s.dispatch.calling == Some(id) && id != 0
    ensures LegalOn(c.w, PolicyCall(node, id, c.s.handlers[id].filter, c.s.log[c.s.done]))
  {
    var f, e := c.s.handlers[id].filter, c.s.log[c.s.done];
    assert ObjectOk(node, nsOf, e);
    if id in c.w.policies {
      assert WatchOk(node, c, id);
    }
  }

  /** The port handler still to come has been told as much as the dispatch before left it with. */
  lemma PortHandlerAt(node: Nodes, nsOf: string -> string, c: Sys)
    requires SysOk(node, nsOf, c) && (c.s.dispatch.Serving? ==> 0 !in c.s.dispatch.served)
    ensures c.s.handlers[0].seen == c.s.done
  {
    assert W.LiveOk(c.s, 0, c.s.handlers[0]);
  }

  lemma CalledPending(node: Nodes, nsOf: string -> string, c: Sys, c': Sys, id: nat)
    requires SysOk(node, nsOf, c) && CanCall(c.s) && c.s.dispatch.calling == Some(id) && id in c.w.policies
    requires c' == Sys(W.Apply(c.s, W.Call),
                       RunOn(c.w, PolicyCall(node, id, c.s.handlers[id].filter, c.s.log[c.s.done])))
    requires W.Inv(c'.s) && id in c'.w.policies
    ensures PendingOk(node, c', id)
  {
    if PortPending(node, c'.s) {
      assert WatchOk(node, c, id) && PendingOk(node, c, id);
      var h, h', e := c.s.handlers[id], c'.s.handlers[id], c.s.log[c.s.done];
      PortHandlerAt(node, nsOf, c);
      StoreNext(c.s.log, c.s.done, e.key);
      LocalPodStep(node, c.w, id, h.filter, e, e.key);
      PendingAfter(node, c.s.log, h, h', c.w.alive, e.key in c.w.policies[id].pods, e.key in c'.w.policies[id].pods);
    }
  }

  lemma PendingAfter(node: Nodes, log: seq<W.Change>, h: W.Handler, h': W.Handler, alive: map<string, Pod>, had: bool,
                     has: bool)
    requires h.snap <= |log| && h.reg <= h.seen < |log|
    requires h'.filter == h.filter && h'.snap == h.snap && h'.reg == h.reg && h'.seen == h.seen + 1
    requires var e := log[h.seen]; e.key !in alive && has == PodAfter(node, h.filter, e, alive, had, e.key)
    requires had ==> Kept(node, log, h, h.seen, log[h.seen].key)
    ensures has ==> Kept(node, log, h', h'.seen, log[h.seen].key)
  {
    KeptNext(node, log, h, h.seen, log[h.seen].key);
    assert Replayed(node, log, h', log[h.seen].key) == Replayed(node, log, h, log[h.seen].key);
  }

  lemma CalledWatch(node: Nodes, nsOf: string -> string, c: Sys, c': Sys, id: nat)
    requires SysOk(node, nsOf, c) && CanCall(c.s) && c.s.dispatch.calling == Some(id) && id in c.w.policies
    requires c' == Sys(W.Apply(c.s, W.Call),
                       RunOn(c.w, PolicyCall(node, id, c.s.handlers[id].filter, c.s.log[c.s.done])))
    requires W.Inv(c'.s)
    ensures id in c'.w.policies && WatchOk(node, c', id)
  {
    assert WatchOk(node, c, id);
    var h, e := c.s.handlers[id], c.s.log[c.s.done];
    LocalPodStep(node, c.w, id, h.filter, e, e.key);
    forall p ensures PodOk(node, c.s.log, c'.s.handlers[id], c'.w.policies[id].pods, p) {
      assert PodOk(node, c.s.log, h, c.w.policies[id].pods, p);
      LocalPodStep(node, c.w, id, h.filter, e, p);
      PodAfterCall(node, nsOf, c.s.log, h, c.w.policies[id].pods, c.w.alive, c'.s.handlers[id], c'.w.policies[id].pods,
                   p);
    }
  }

  lemma PolicyCallOk(node: Nodes, nsOf: string -> string, c: Sys, c': Sys, id: nat)
    requires SysOk(node, nsOf, c) && CanCall(c.s) && c.s.dispatch.calling == Some(id) && id != 0
    requires c' == Sys(W.Apply(c.s, W.Call),
                       RunOn(c.w, PolicyCall(node, id, c.s.handlers[id].filter, c.s.log[c.s.done])))
    ensures SysOk(node, nsOf, c')
  {
    W.StepKeeps(c.s, W.Call);
    LocalPodOthers(node, c.w, id, c.s.handlers[id].filter, c.s.log[c.s.done]);
    PortsFrame(node, nsOf, c, c');
    forall j | j in c'.w.policies ensures WatchOk(node, c', j) && PendingOk(node, c', j) {
      if j == id {
        CalledWatch(node, nsOf, c, c', id);
        CalledPending(node, nsOf, c, c', id);
      } else {
        assert WatchOk(node, c, j) && PendingOk(node, c, j);
        WatchFrame(node, c, c', j);
        PendingFrame(node, c, c', j);
      }
    }
  }

  /** What the port handler's call does to the ports. */
  lemma PortStep(node: Nodes, w: World, e: W.Change, p: string)
    ensures var w' := RunOn(w, PortCall(node, e));
            && w'.policies == w.policies
            && (p in w'.alive <==>
                  if e.key != p then p in w.alive
                  else if Scheduled(node, e.new_) && !Scheduled(node, e.old_) then true
                  else p in w.alive && e.new_.Some?)
            && (p in w'.alive && (p !in w.alive || w'.alive[p] != w.alive[p]) ==>
                  p == e.key && e.new_.Some? && w'.alive[p].ns == e.new_.value.ns)
  {
  }

  lemma PortAfter(node: Nodes, nsOf: string -> string, c: Sys, w': World, p: string)
    requires SysOk(node, nsOf, c) && CanCall(c.s) && c.s.dispatch.calling == Some(0)
    requires w' == RunOn(c.w, PortCall(node, c.s.log[c.s.done]))
    ensures p in w'.alive <==> Scheduled(node, W.At(W.Store(c.s.log, c.s.done + 1), p))
    ensures p in w'.alive ==> w'.alive[p].ns == nsOf(p)
  {
    var e := c.s.log[c.s.done];
    PortHandlerAt(node, nsOf, c);
    assert ObjectOk(node, nsOf, e);
    StoreNext(c.s.log, c.s.done, p);
    PortStep(node, c.w, e, p);
  }

  lemma AfterPortCall(node: Nodes, nsOf: string -> string, c: Sys, s': W.State)
    requires SysOk(node, nsOf, c) && CanCall(c.s) && c.s.dispatch.calling == Some(0) && s' == W.Apply(c.s, W.Call)
    ensures s'.log == c.s.log && 0 in s'.handlers && !s'.handlers[0].dead && s'.handlers[0].seen == c.s.done + 1
    ensures c.s.done < |c.s.log|
  {
    PortHandlerAt(node, nsOf, c);
  }

  lemma PortCallPorts(node: Nodes, nsOf: string -> string, c: Sys, s': W.State, w': World)
    requires SysOk(node, nsOf, c) && CanCall(c.s) && c.s.dispatch.calling == Some(0) && c.s.done < |c.s.log|
    requires s'.log == c.s.log && 0 in s'.handlers && !s'.handlers[0].dead && s'.handlers[0].seen == c.s.done + 1
    requires w' == RunOn(c.w, PortCall(node, c.s.log[c.s.done]))
    ensures PortsOk(node, nsOf, Sys(s', w'))
  {
    forall p
      ensures p in w'.alive <==> Scheduled(node, W.At(W.Store(c.s.log, c.s.done + 1), p))
      ensures p in w'.alive ==> w'.alive[p].ns == nsOf(p)
    {
      PortAfter(node, nsOf, c, w', p);
    }
  }

  lemma PortCallWatch(node: Nodes, nsOf: string -> string, c: Sys, c': Sys, j: nat)
    requires SysOk(node, nsOf, c) && CanCall(c.s) && c.s.dispatch.calling == Some(0) && j in c'.w.policies
    requires c' == Sys(W.Apply(c.s, W.Call), RunOn(c.w, PortCall(node, c.s.log[c.s.done])))
    ensures WatchOk(node, c', j) && PendingOk(node, c', j)
  {
    var e := c.s.log[c.s.done];
    PortHandlerAt(node, nsOf, c);
    PortStep(node, c.w, e, e.key);
    assert WatchOk(node, c, j);
    WatchFrame(node, c, c', j);
  }

  lemma PortCallOk(node: Nodes, nsOf: string -> string, c: Sys, c': Sys)
    requires SysOk(node, nsOf, c) && CanCall(c.s) && c.s.dispatch.calling == Some(0)
    requires c' == Sys(W.Apply(c.s, W.Call), RunOn(c.w, PortCall(node, c.s.log[c.s.done])))
    ensures SysOk(node, nsOf, c')
  {
    W.StepKeeps(c.s, W.Call);
    AfterPortCall(node, nsOf, c, c'.s);
    PortCallPorts(node, nsOf, c, c'.s, c'.w);
    forall j | j in c'.w.policies ensures WatchOk(node, c', j) && PendingOk(node, c', j) {
      PortCallWatch(node, nsOf, c, c', j);
    }
  }

  lemma HolderKeeps(node: Nodes, nsOf: string -> string, c: Sys, id: nat)
    requires SysOk(node, nsOf, c) && PortPending(node, c.s) && id in c.w.policies
    ensures var p := c.s.log[c.s.done].key;
            p in c.w.policies[id].pods <==> Keeps(node, c, id, p)
  {
    assert WatchOk(node, c, id) && PendingOk(node, c, id);
    if id in c.s.handlers {
      assert PodOk(node, c.s.log, c.s.handlers[id], c.w.policies[id].pods, c.s.log[c.s.done].key);
    }
  }

  /** The port handler's call is legal exactly when no policy keeps an earlier pod of the name. */
  lemma PortCallLegal(node: Nodes, nsOf: string -> string, c: Sys, mv: Move)
    requires SysOk(node, nsOf, c) && mv.Informer? && mv.st.Call? && CanCall(c.s) && c.s.dispatch.calling == Some(0)
    ensures LegalOn(c.w, PortCall(node, c.s.log[c.s.done])) <==> !Clashes(node, c, mv)
  {
    if PortPending(node, c.s) {
      UpLegal(node, nsOf, c);
    }
  }

  lemma UpLegal(node: Nodes, nsOf: string -> string, c: Sys)
    requires SysOk(node, nsOf, c) && PortPending(node, c.s)
    ensures LegalOn(c.w, PortCall(node, c.s.log[c.s.done])) <==> !SomeoneKeeps(node, c, c.s.log[c.s.done].key)
  {
    var e := c.s.log[c.s.done];
    PortHandlerAt(node, nsOf, c);
    StoreNext(c.s.log, c.s.done, e.key);
    forall id | id in c.w.policies ensures e.key in c.w.policies[id].pods <==> Keeps(node, c, id, e.key) {
      HolderKeeps(node, nsOf, c, id);
    }
    OneUp(c.w, PodUp(e.key, Pod(e.new_.value.ns, node(e.new_.value))));
  }

  lemma OneUp(w: World, ev: Event)
    ensures LegalOn(w, [ev]) <==> Legal(w, ev)
  {
    assert [ev][1..] == [];
  }

  // ------------------------------------------------------- a handler is registered

  lemma {:induction false} AddsRun(w: World, id: nat, ports: seq<string>)
    ensures var w' := RunOn(w, Adds(id, ports));
            && w'.alive == w.alive && w'.policies.Keys == w.policies.Keys
            && (forall j | j in w.policies && j != id :: w'.policies[j] == w.policies[j])
            && (id in w.policies ==> w'.policies[id].spec == w.policies[id].spec)
            && (id in w.policies ==>
                  forall p :: p in w'.policies[id].pods <==> p in w.policies[id].pods || (p in ports && p in w.alive))
    decreases |ports|
  {
    if ports != [] {
      assert Adds(id, ports)[1..] == Adds(id, ports[1..]);
      AddsRun(WorldStep(w, LocalPodAdd(id, ports[0])), id, ports[1..]);
      assert forall p :: p in ports <==> p == ports[0] || p in ports[1..];
    }
  }

  lemma {:induction false} AddsLegal(w: World, id: nat, ports: seq<string>)
    requires id in w.policies ==> forall p | p in ports && p in w.alive :: w.alive[p].ns == w.policies[id].spec.ns
    ensures LegalOn(w, Adds(id, ports))
    decreases |ports|
  {
    if ports != [] {
      assert Adds(id, ports)[1..] == Adds(id, ports[1..]);
      assert ports[0] in ports;
      AddsRun(w, id, [ports[0]]);
      AddsLegal(WorldStep(w, LocalPodAdd(id, ports[0])), id, ports[1..]);
    }
  }

  lemma RegisterLegal(node: Nodes, nsOf: string -> string, c: Sys, id: nat, order: seq<string>)
    requires SysOk(node, nsOf, c) && CanRegister(c.s, id) && Replays(node, c.s.log, c.s.waiting[id], order)
    ensures LegalOn(c.w, Adds(id, order))
  {
    if id in c.w.policies {
      assert WatchOk(node, c, id);
      var snap := c.s.waiting[id];
      forall p | p in order && p in c.w.alive ensures c.w.alive[p].ns == c.w.policies[id].spec.ns {
        StoreNs(node, nsOf, c.s.log, snap.snap, p);
        assert Ready(node, W.Pass(snap.filter, W.At(W.Store(c.s.log, snap.snap), p)));
      }
    }
    AddsLegal(c.w, id, order);
  }

  /** Right after the registration a policy has exactly the pods the replay selected. */
  lemma RegisteredWatch(node: Nodes, nsOf: string -> string, c: Sys, c': Sys, id: nat, order: seq<string>)
    requires SysOk(node, nsOf, c) && CanRegister(c.s, id) && Replays(node, c.s.log, c.s.waiting[id], order)
    requires c' == Sys(W.Apply(c.s, W.Register(id)), RunOn(c.w, Adds(id, order))) && W.Inv(c'.s)
    requires id in c.w.policies && id != 0
    ensures id in c'.w.policies && WatchOk(node, c', id)
  {
    assert WatchOk(node, c, id);
    AddsRun(c.w, id, order);
    PortHandlerAt(node, nsOf, c);
    var h := c'.s.handlers[id];
    forall p ensures PodOk(node, c.s.log, h, c'.w.policies[id].pods, p) {
      assert p in c'.w.policies[id].pods <==> p in order && p in c.w.alive;
      RegisteredPod(node, c.s.log, c.s.waiting[id], h, p);
    }
  }

  lemma RegisteredPod(node: Nodes, log: seq<W.Change>, snap: W.Snapshot, h: W.Handler, p: string)
    requires h.filter == snap.filter && h.snap == snap.snap <= |log| && h.reg == h.seen <= |log|
    ensures Kept(node, log, h, h.seen, p) <==>
            && Ready(node, W.Pass(snap.filter, W.At(W.Store(log, snap.snap), p)))
            && Scheduled(node, W.At(W.Store(log, h.reg), p))
  {
  }

  lemma RegisterOk(node: Nodes, nsOf: string -> string, c: Sys, c': Sys, id: nat, order: seq<string>)
    requires SysOk(node, nsOf, c) && CanRegister(c.s, id) && Replays(node, c.s.log, c.s.waiting[id], order)
    requires c' == Sys(W.Apply(c.s, W.Register(id)), RunOn(c.w, Adds(id, order))) && id != 0
    ensures SysOk(node, nsOf, c')
  {
    W.StepKeeps(c.s, W.Register(id));
    AddsRun(c.w, id, order);
    PortsFrame(node, nsOf, c, c');
    forall j | j in c'.w.policies ensures WatchOk(node, c', j) && PendingOk(node, c', j) {
      if j == id {
        RegisteredWatch(node, nsOf, c, c', id, order);
      } else {
        assert WatchOk(node, c, j);
        WatchFrame(node, c, c', j);
      }
    }
  }

  // ------------------------------------------------------- every step, every run

  lemma {:induction false} LegalKeepsOk(w: World, evs: seq<Event>)
    requires WorldOk(w) && LegalOn(w, evs)
    ensures WorldOk(RunOn(w, evs))
    decreases |evs|
  {
    if evs != [] {
      WorldStepOk(w, evs[0]);
      LegalKeepsOk(WorldStep(w, evs[0]), evs[1..]);
    }
  }

  lemma CallExact(node: Nodes, nsOf: string -> string, c: Sys, mv: Move)
    requires SysOk(node, nsOf, c) && mv.Informer? && mv.st == W.Call
    ensures LegalOn(c.w, EventsOf(node, c, mv)) <==> !Clashes(node, c, mv)
    ensures SysOk(node, nsOf, Next(node, c, mv))
  {
    if CanCall(c.s) {
      var id := c.s.dispatch.calling.value;
      if id == 0 {
        PortCallLegal(node, nsOf, c, mv);
        PortCallOk(node, nsOf, c, Next(node, c, mv));
      } else {
        LocalPodLegal(node, nsOf, c, id);
        PolicyCallOk(node, nsOf, c, Next(node, c, mv), id);
      }
    } else {
      assert W.Apply(c.s, W.Call) == c.s;
    }
  }

  lemma RegisterExact(node: Nodes, nsOf: string -> string, c: Sys, mv: Move)
    requires SysOk(node, nsOf, c) && mv.Informer? && mv.st.Register? && Proper(node, nsOf, c, mv)
    ensures LegalOn(c.w, EventsOf(node, c, mv)) && SysOk(node, nsOf, Next(node, c, mv))
  {
    var id := mv.st.id;
    if CanRegister(c.s, id) {
      assert id !in c.s.handlers;
      RegisterLegal(node, nsOf, c, id, mv.order);
      RegisterOk(node, nsOf, c, Next(node, c, mv), id, mv.order);
    } else {
      assert W.Apply(c.s, mv.st) == c.s;
    }
  }

  lemma OtherExact(node: Nodes, nsOf: string -> string, c: Sys, mv: Move)
    requires SysOk(node, nsOf, c) && WorldOk(c.w) && mv.Other? && Proper(node, nsOf, c, mv)
    ensures LegalOn(c.w, EventsOf(node, c, mv)) && SysOk(node, nsOf, Next(node, c, mv))
  {
    OtherOk(node, nsOf, c, mv.ev);
    assert RunOn(c.w, [mv.ev]) == WorldStep(c.w, mv.ev) by { assert [mv.ev][1..] == []; }
  }

  lemma SilentExact(node: Nodes, nsOf: string -> string, c: Sys, mv: Move)
    requires SysOk(node, nsOf, c) && mv.Informer? && !mv.st.Call? && !mv.st.Register? && Proper(node, nsOf, c, mv)
    ensures EventsOf(node, c, mv) == [] && SysOk(node, nsOf, Next(node, c, mv))
  {
    if mv.st.StoreChange? {
      StoreOk(node, nsOf, c, mv.st.key, mv.st.new_);
    } else {
      QuietOk(node, nsOf, c, mv.st);
    }
  }

  /** One step: the calls it makes are legal exactly when it does not create a port while a policy
      keeps an earlier pod of the name, and then everything goes on as it was. */
  lemma StepExact(node: Nodes, nsOf: string -> string, c: Sys, mv: Move)
    requires SysOk(node, nsOf, c) && WorldOk(c.w) && Proper(node, nsOf, c, mv)
    ensures LegalOn(c.w, EventsOf(node, c, mv)) <==> !Clashes(node, c, mv)
    ensures !Clashes(node, c, mv) ==> SysOk(node, nsOf, Next(node, c, mv)) && WorldOk(Next(node, c, mv).w)
  {
    if mv.Other? {
      OtherExact(node, nsOf, c, mv);
    } else if mv.st.Call? {
      CallExact(node, nsOf, c, mv);
    } else if mv.st.Register? {
      RegisterExact(node, nsOf, c, mv);
    } else {
      SilentExact(node, nsOf, c, mv);
    }
    if LegalOn(c.w, EventsOf(node, c, mv)) {
      LegalKeepsOk(c.w, EventsOf(node, c, mv));
    }
  }

  ghost predicate ProperRun(node: Nodes, nsOf: string -> string, c: Sys, moves: seq<Move>)
    decreases |moves|
  {
    moves == [] || (Proper(node, nsOf, c, moves[0]) && ProperRun(node, nsOf, Next(node, c, moves[0]), moves[1..]))
  }

  ghost predicate NeverClashes(node: Nodes, c: Sys, moves: seq<Move>)
    decreases |moves|
  {
    moves == [] || (!Clashes(node, c, moves[0]) && NeverClashes(node, Next(node, c, moves[0]), moves[1..]))
  }

  /** All the calls of a run, in order. */
  function AllEvents(node: Nodes, c: Sys, moves: seq<Move>): seq<Event>
    decreases |moves|
  {
    if moves == [] then [] else EventsOf(node, c, moves[0]) + AllEvents(node, Next(node, c, moves[0]), moves[1..])
  }

  lemma {:induction false} LegalConcat(w: World, a: seq<Event>, b: seq<Event>)
    ensures LegalOn(w, a + b) <==> LegalOn(w, a) && LegalOn(RunOn(w, a), b)
    decreases |a|
  {
    if a == [] {
      assert a + b == b;
    } else {
      assert (a + b)[0] == a[0] && (a + b)[1..] == a[1..] + b;
      LegalConcat(WorldStep(w, a[0]), a[1..], b);
    }
  }

  lemma {:induction false} RunLegal(node: Nodes, nsOf: string -> string, c: Sys, moves: seq<Move>)
    requires SysOk(node, nsOf, c) && WorldOk(c.w) && ProperRun(node, nsOf, c, moves)
    ensures LegalOn(c.w, AllEvents(node, c, moves)) <==> NeverClashes(node, c, moves)
    decreases |moves|
  {
    if moves != [] {
      var c' := Next(node, c, moves[0]);
      StepExact(node, nsOf, c, moves[0]);
      LegalConcat(c.w, EventsOf(node, c, moves[0]), AllEvents(node, c', moves[1..]));
      if !Clashes(node, c, moves[0]) {
        RunLegal(node, nsOf, c', moves[1..]);
      }
    }
  }

  lemma IllegalNext(pre: seq<Event>, evs: seq<Event>)
    requires evs != [] && !Legal(Run(pre), evs[0])
    ensures !LegalRun(pre + evs)
  {
    if LegalRun(pre + evs) {
      assert (pre + evs)[..|pre|] == pre && (pre + evs)[|pre|] == evs[0];
      LegalAt(pre + evs, |pre|);
    }
  }

  lemma {:induction false} LegalFromHere(pre: seq<Event>, evs: seq<Event>)
    requires LegalRun(pre)
    ensures LegalRun(pre + evs) <==> LegalOn(Run(pre), evs)
    decreases |evs|
  {
    if evs == [] {
      assert pre + evs == pre;
    } else {
      LegalSnoc(pre, evs[0]);
      if Legal(Run(pre), evs[0]) {
        assert pre + evs == pre + [evs[0]] + evs[1..];
        LegalFromHere(pre + [evs[0]], evs[1..]);
      } else {
        IllegalNext(pre, evs);
      }
    }
  }

  /** The pod handler for ports is registered before there are pods. */
  function Begun(all: W.Filter): Sys {
    Sys(W.State([], 0, W.Idle, map[], map[0 := W.Handler(all, 0, 0, false, true, 0, 0, map[])]), Empty)
  }

  lemma BegunOk(node: Nodes, nsOf: string -> string, all: W.Filter)
    ensures SysOk(node, nsOf, Begun(all)) && WorldOk(Empty)
  {
  }

  /** Which interleavings of the watch factory deliver a legal run to the policy code: exactly those
      in which no port is created while a live policy keeps an earlier pod of the same name, because
      the replay at its registration selected the pod and no later call took it back. */
  lemma DeliveredRuns(node: Nodes, nsOf: string -> string, all: W.Filter, moves: seq<Move>)
    requires ProperRun(node, nsOf, Begun(all), moves)
    ensures LegalRun(AllEvents(node, Begun(all), moves)) <==> NeverClashes(node, Begun(all), moves)
  {
    BegunOk(node, nsOf, all);
    RunLegal(node, nsOf, Begun(all), moves);
    LegalFromHere([], AllEvents(node, Begun(all), moves));
    assert [] + AllEvents(node, Begun(all), moves) == AllEvents(node, Begun(all), moves);
  }

  // ------------------------------------------------------- registrations that see things right

  /** What the replay selected still passes the filter at the registration. */
  ghost predicate RightAt(node: Nodes, log: seq<W.Change>, h: W.Handler)
    requires h.snap <= |log| && h.reg <= |log|
  {
    forall p | Replayed(node, log, h, p) :: InSight(node, log, h, h.reg, p)
  }

  lemma {:induction false} KeptInSight(node: Nodes, nsOf: string -> string, log: seq<W.Change>, h: W.Handler, n: nat,
                                       p: string)
    requires W.LogOk(log) && LogFits(node, nsOf, log) && h.reg <= n <= |log| && InSight(node, log, h, h.reg, p)
    requires forall i | h.reg <= i < n :: !TakesBack(node, h.filter, log[i], p)
    ensures InSight(node, log, h, n, p)
    decreases n - h.reg
  {
    if h.reg < n {
      var k := n - 1;
      KeptInSight(node, nsOf, log, h, k, p);
      SightNext(node, nsOf, log, h, k, p);
    }
  }

  lemma SightNext(node: Nodes, nsOf: string -> string, log: seq<W.Change>, h: W.Handler, n: nat, p: string)
    requires W.LogOk(log) && LogFits(node, nsOf, log) && n < |log|
    requires InSight(node, log, h, n, p) && !TakesBack(node, h.filter, log[n], p)
    ensures InSight(node, log, h, n + 1, p)
  {
    StoreNext(log, n, p);
    assert ObjectOk(node, nsOf, log[n]);
  }

  ghost predicate HandlerRight(node: Nodes, s: W.State, id: nat)
    requires id in s.handlers
  {
    W.HandlerOk(s.log, s.handlers[id]) && RightAt(node, s.log, s.handlers[id])
  }

  ghost predicate AllRight(node: Nodes, c: Sys) {
    forall id | id in c.w.policies && id in c.s.handlers :: HandlerRight(node, c.s, id)
  }

  lemma RightNoClash(node: Nodes, nsOf: string -> string, c: Sys, mv: Move)
    requires SysOk(node, nsOf, c) && AllRight(node, c)
    ensures !Clashes(node, c, mv)
  {
    if Clashes(node, c, mv) {
      var p, n := c.s.log[c.s.done].key, c.s.done;
      var id :| id in c.w.policies && Keeps(node, c, id, p);
      var h := c.s.handlers[id];
      assert WatchOk(node, c, id) && W.LiveOk(c.s, id, h) && HandlerRight(node, c.s, id);
      if h.seen == n + 1 {
        KeptNext(node, c.s.log, h, n, p);
      }
      assert Replayed(node, c.s.log, h, p);
      KeptInSight(node, nsOf, c.s.log, h, n, p);
      StoreNext(c.s.log, n, p);
    }
  }

  /** A registration at which nothing that the replay selects has stopped passing the filter. */
  ghost predicate RightMove(node: Nodes, c: Sys, mv: Move) {
    mv.Informer? && mv.st.Register? && CanRegister(c.s, mv.st.id) && mv.st.id in c.w.policies
    && c.s.done <= |c.s.log| ==>
      var snap := c.s.waiting[mv.st.id];
      forall p | && Ready(node, W.Pass(snap.filter, W.At(W.Store(c.s.log, snap.snap), p)))
                 && Scheduled(node, W.At(W.Store(c.s.log, c.s.done), p)) ::
        W.Passes(snap.filter, W.At(W.Store(c.s.log, c.s.done), p))
  }

  lemma RightSame(node: Nodes, log: seq<W.Change>, h: W.Handler, h': W.Handler)
    requires h.snap <= |log| && h.reg <= |log| && RightAt(node, log, h)
    requires h'.filter == h.filter && h'.snap == h.snap && h'.reg == h.reg
    ensures RightAt(node, log, h')
  {
    forall p | Replayed(node, log, h', p) ensures InSight(node, log, h', h'.reg, p) {
      assert Replayed(node, log, h, p);
    }
  }

  lemma RightExtends(node: Nodes, log: seq<W.Change>, e: W.Change, h: W.Handler)
    requires h.snap <= |log| && h.reg <= |log| && RightAt(node, log, h)
    ensures RightAt(node, log + [e], h)
  {
    W.StoreExtends(log, e, h.snap);
    W.StoreExtends(log, e, h.reg);
    forall p | Replayed(node, log + [e], h, p) ensures InSight(node, log + [e], h, h.reg, p) {
      assert Replayed(node, log, h, p);
    }
  }

  /** Only the log grows, and no handler's filter, snapshot or registration changes. */
  lemma HandlersKeep(s: W.State, st: W.Step, id: nat)
    requires id in W.Apply(s, st).handlers && !(st.Register? && st.id == id)
    ensures var s' := W.Apply(s, st);
            && id in s.handlers && s'.handlers[id].filter == s.handlers[id].filter
            && s'.handlers[id].snap == s.handlers[id].snap && s'.handlers[id].reg == s.handlers[id].reg
            && (!st.StoreChange? ==> s'.log == s.log)
            && (st.StoreChange?
              ==> s'.log == s.log + [W.Change(st.key, W.At(W.Store(s.log, |s.log|), st.key), st.new_)])
  {
  }

  lemma {:induction false} CallsKeepPolicies(w: World, evs: seq<Event>, id: nat)
    requires forall ev | ev in evs :: PodEvent(ev)
    ensures id in RunOn(w, evs).policies <==> id in w.policies
    decreases |evs|
  {
    if evs != [] {
      assert evs[0] in evs;
      CallsKeepPolicies(WorldStep(w, evs[0]), evs[1..], id);
    }
  }

  lemma {:induction false} AddsArePods(id: nat, ports: seq<string>)
    ensures forall ev | ev in Adds(id, ports) :: PodEvent(ev)
  {
    if ports != [] {
      AddsArePods(id, ports[1..]);
    }
  }

  lemma InformerPolicies(node: Nodes, c: Sys, mv: Move, id: nat)
    requires mv.Informer?
    ensures id in Next(node, c, mv).w.policies <==> id in c.w.policies
  {
    if mv.st.Register? {
      AddsArePods(mv.st.id, mv.order);
    }
    CallsKeepPolicies(c.w, EventsOf(node, c, mv), id);
  }

  lemma RightNext(node: Nodes, nsOf: string -> string, c: Sys, mv: Move, id: nat)
    requires SysOk(node, nsOf, c) && AllRight(node, c) && Proper(node, nsOf, c, mv) && RightMove(node, c, mv)
    requires SysOk(node, nsOf, Next(node, c, mv))
    requires var c' := Next(node, c, mv); id in c'.w.policies && id in c'.s.handlers
    ensures HandlerRight(node, Next(node, c, mv).s, id)
  {
    var c' := Next(node, c, mv);
    assert WatchOk(node, c', id);
    if mv.Other? {
      assert RunOn(c.w, [mv.ev]) == WorldStep(c.w, mv.ev) by { assert [mv.ev][1..] == []; }
      OtherPods(c.w, mv.ev, id);
      assert HandlerRight(node, c.s, id);
    } else {
      InformerPolicies(node, c, mv, id);
      if mv.st.Register? && mv.st.id == id && CanRegister(c.s, id) {
        assert id !in c.s.handlers;
      } else {
        RightCarries(node, c.s, mv.st, id);
      }
    }
  }

  lemma RightCarries(node: Nodes, s: W.State, st: W.Step, id: nat)
    requires id in W.Apply(s, st).handlers && W.HandlerOk(W.Apply(s, st).log, W.Apply(s, st).handlers[id])
    requires id in s.handlers && HandlerRight(node, s, id) && !(st.Register? && st.id == id && CanRegister(s, id))
    ensures HandlerRight(node, W.Apply(s, st), id)
  {
    var s' := W.Apply(s, st);
    if st.Register? && st.id == id {
      assert s' == s;
    } else {
      HandlersKeep(s, st, id);
      if st.StoreChange? {
        RightExtends(node, s.log, s'.log[|s.log|], s.handlers[id]);
      }
      RightSame(node, s'.log, s.handlers[id], s'.handlers[id]);
    }
  }

  ghost predicate RightRun(node: Nodes, c: Sys, moves: seq<Move>)
    decreases |moves|
  {
    moves == [] || (RightMove(node, c, moves[0]) && RightRun(node, Next(node, c, moves[0]), moves[1..]))
  }

  lemma {:induction false} RightRunNeverClashes(node: Nodes, nsOf: string -> string, c: Sys, moves: seq<Move>)
    requires SysOk(node, nsOf, c) && WorldOk(c.w) && AllRight(node, c)
    requires ProperRun(node, nsOf, c, moves) && RightRun(node, c, moves)
    ensures NeverClashes(node, c, moves)
    decreases |moves|
  {
    if moves != [] {
      var c' := Next(node, c, moves[0]);
      RightNoClash(node, nsOf, c, moves[0]);
      StepExact(node, nsOf, c, moves[0]);
      forall id | id in c'.w.policies && id in c'.s.handlers ensures HandlerRight(node, c'.s, id) {
        RightNext(node, nsOf, c, moves[0], id);
      }
      RightRunNeverClashes(node, nsOf, c', moves[1..]);
    }
  }

  /** The factory delivers a legal run whenever no pod that a replay selects has stopped matching the
      policy's selector between the snapshot and the registration. */
  lemma RightRunsAreLegal(node: Nodes, nsOf: string -> string, all: W.Filter, moves: seq<Move>)
    requires ProperRun(node, nsOf, Begun(all), moves) && RightRun(node, Begun(all), moves)
    ensures LegalRun(AllEvents(node, Begun(all), moves))
  {
    BegunOk(node, nsOf, all);
    RightRunNeverClashes(node, nsOf, Begun(all), moves);
    DeliveredRuns(node, nsOf, all, moves);
  }
}
