/** The shared-informer watch factory (factory.go): one event stream is dispatched to handlers that
    come and go while it runs. The store may be ahead of the dispatch, a handler's snapshot of the
    store and its registration are separate steps, and removal marks a tombstone first and takes
    the handler out of the map later. */
module WatchFactory {
  import opened Acl

  /** An object's namespace, labels and, for pods, the address in its annotation. */
  datatype Obj = Obj(ns: string, labels: map<string, string>, ip: Option<nat>)

  type Filter = Obj -> bool

  /** One store change of one object: added, updated or deleted. */
  datatype Change = Change(key: string, old_: Option<Obj>, new_: Option<Obj>)

  function Put(m: map<string, Obj>, key: string, o: Option<Obj>): map<string, Obj> {
    if o.Some? then m[key := o.value] else m - {key}
  }

  function At(m: map<string, Obj>, key: string): Option<Obj> { if key in m then Some(m[key]) else None }

  /** The store after the first n changes. */
  function Store(log: seq<Change>, n: nat): map<string, Obj>
    requires n <= |log|
  {
    if n == 0 then map[] else Put(Store(log, n - 1), log[n - 1].key, log[n - 1].new_)
  }

  /** Every change starts from what the store held. */
  ghost predicate LogOk(log: seq<Change>) {
    forall i: nat | i < |log| :: ChangeOk(log, i)
  }

  ghost predicate ChangeOk(log: seq<Change>, i: nat)
    requires i < |log|
  {
    log[i].old_ == At(Store(log, i), log[i].key)
  }

  function Filtered(f: Filter, m: map<string, Obj>): map<string, Obj> { map k | k in m && f(m[k]) :: m[k] }

  predicate Passes(f: Filter, o: Option<Obj>) { o.Some? && f(o.value) }

  function Pass(f: Filter, o: Option<Obj>): Option<Obj> { if Passes(f, o) then o else None }

  /** One call of the handler's filtering wrapper: an update that starts to pass the filter is an
      add, one that stops passing is a delete, and the view is the replay of those calls. */
  function Deliver(f: Filter, view: map<string, Obj>, c: Change): map<string, Obj> {
    if Passes(f, c.new_) then view[c.key := c.new_.value]
    else if Passes(f, c.old_) then view - {c.key}
    else view
  }

  /** The view of a handler whose snapshot was taken after `snap` changes, which was registered
      when `reg` changes had been dispatched and has since been given those up to `n`. */
  function View(f: Filter, log: seq<Change>, snap: nat, reg: nat, n: nat): map<string, Obj>
    requires snap <= |log| && reg <= n <= |log|
    decreases n
  {
    if n == reg then Filtered(f, Store(log, snap)) else Deliver(f, View(f, log, snap, reg, n - 1), log[n - 1])
  }

  // ------------------------------------------------------- one object

  predicate Touches(f: Filter, c: Change, key: string) { c.key == key && (Passes(f, c.old_) || Passes(f, c.new_)) }

  /** Some call about the object was made by the changes from `reg` to `n`. */
  ghost predicate Touched(f: Filter, log: seq<Change>, reg: nat, n: nat, key: string) {
    exists i | reg <= i < n && i < |log| :: Touches(f, log[i], key)
  }

  /** A touched object is seen as it is now, an untouched one as the snapshot had it. */
  lemma {:induction false} ViewOfOne(f: Filter, log: seq<Change>, snap: nat, reg: nat, n: nat, key: string)
    requires LogOk(log) && snap <= |log| && reg <= n <= |log|
    ensures At(View(f, log, snap, reg, n), key)
         == if Touched(f, log, reg, n, key) then Pass(f, At(Store(log, n), key)) else Pass(f, At(Store(log, snap), key))
    decreases n
  {
    if n > reg {
      ViewOfOne(f, log, snap, reg, n - 1, key);
      var c := log[n - 1];
      assert ChangeOk(log, n - 1);
      assert Touched(f, log, reg, n, key) <==> Touched(f, log, reg, n - 1, key) || Touches(f, c, key) by {
        if i :| reg <= i < n && Touches(f, log[i], key) {
          assert i == n - 1 || Touched(f, log, reg, n - 1, key);
        }
      }
    }
  }

  /** An object no call was made about did not pass the filter at any time in between. */
  lemma {:induction false} UntouchedIsAbsent(f: Filter, log: seq<Change>, from: nat, n: nat, key: string)
    requires LogOk(log) && from <= n <= |log| && !Touched(f, log, from, n, key)
    ensures Pass(f, At(Store(log, n), key)) == Pass(f, At(Store(log, from), key))
    decreases n
  {
    if n > from {
      assert !Touched(f, log, from, n - 1, key) by {
        if i :| from <= i < n - 1 && Touches(f, log[i], key) {
          assert Touched(f, log, from, n, key);
        }
      }
      UntouchedIsAbsent(f, log, from, n - 1, key);
      assert ChangeOk(log, n - 1) && !Touches(f, log[n - 1], key);
    }
  }

  /** Exactly when a handler's view of an object is right once everything up to `n` has been
      dispatched: registration came no later than the snapshot, or a later change involved the
      object, or nothing the handler would see of it changed from the snapshot to the registration. */
  lemma ViewExact(f: Filter, log: seq<Change>, snap: nat, reg: nat, n: nat, key: string)
    requires LogOk(log) && snap <= n && reg <= n <= |log|
    ensures At(View(f, log, snap, reg, n), key) == At(Filtered(f, Store(log, n)), key)
       <==> reg <= snap || Touched(f, log, reg, n, key)
            || Pass(f, At(Store(log, snap), key)) == Pass(f, At(Store(log, reg), key))
  {
    ViewOfOne(f, log, snap, reg, n, key);
    if !Touched(f, log, reg, n, key) {
      UntouchedIsAbsent(f, log, reg, n, key);
    }
    if reg <= snap && !Touched(f, log, reg, n, key) {
      if i :| snap <= i < n && Touches(f, log[i], key) {
        assert Touched(f, log, reg, n, key);
      }
      UntouchedIsAbsent(f, log, snap, n, key);
    }
  }

  ghost predicate NoChange(log: seq<Change>, from: nat, to: nat, key: string) {
    forall i | from <= i < to && i < |log| :: log[i].key != key
  }

  lemma {:induction false} SameObject(log: seq<Change>, from: nat, n: nat, key: string)
    requires from <= n <= |log| && NoChange(log, from, n, key)
    ensures At(Store(log, n), key) == At(Store(log, from), key)
    decreases n
  {
    if n > from {
      SameObject(log, from, n - 1, key);
    }
  }

  /** An object with no event dispatched between the snapshot and the registration is always seen
      right. */
  lemma ViewEqualsFilteredStore(f: Filter, log: seq<Change>, snap: nat, reg: nat, n: nat, key: string)
    requires LogOk(log) && snap <= n && reg <= n <= |log| && NoChange(log, snap, reg, key)
    ensures At(View(f, log, snap, reg, n), key) == At(Filtered(f, Store(log, n)), key)
  {
    ViewExact(f, log, snap, reg, n, key);
    if reg > snap {
      SameObject(log, snap, reg, key);
    }
  }

  /** An update dispatched in between is lost: the handler keeps the version it replayed. */
  lemma UpdateLostInBetween()
    ensures var a, b := Obj("ns", map["v" := "1"], None), Obj("ns", map["v" := "2"], None);
            var log := [Change("pod", None, Some(a)), Change("pod", Some(a), Some(b))];
            LogOk(log) && At(View(_ => true, log, 1, 2, 2), "pod") == Some(a)
            && At(Filtered(_ => true, Store(log, 2)), "pod") == Some(b)
  {
    var a, b := Obj("ns", map["v" := "1"], None), Obj("ns", map["v" := "2"], None);
    var log := [Change("pod", None, Some(a)), Change("pod", Some(a), Some(b))];
    var f: Filter := _ => true;
    assert a.labels["v"] != b.labels["v"];
    assert Store(log, 1) == map["pod" := a];
    assert Store(log, 2) == map["pod" := b];
    assert ChangeOk(log, 0) && ChangeOk(log, 1);
    assert View(f, log, 1, 2, 2) == Filtered(f, Store(log, 1));
  }

  // ------------------------------------------------------- the factory as it interleaves

  /** A handler: what it filters, when it was snapshotted and registered, its tombstone, whether
      it is still in the informer's map, how often it died, how far it has been served, and the
      replay of the calls it received. */
  datatype Handler = Handler(filter: Filter, snap: nat, reg: nat, dead: bool, present: bool, deaths: nat, seen: nat,
                             view: map<string, Obj>)

  /** Whether the informer lock is free, or a dispatch holds it: the handlers it is done with and
      the one whose tombstone it has found alive and is calling. */
  datatype Dispatch = Idle | Serving(served: set<nat>, calling: Option<nat>)

  datatype Snapshot = Snapshot(filter: Filter, snap: nat)

  datatype State = State(log: seq<Change>, done: nat, dispatch: Dispatch, waiting: map<nat, Snapshot>,
                         handlers: map<nat, Handler>)

  datatype Step =
    | StoreChange(key: string, new_: Option<Obj>)
    | TakeSnapshot(id: nat, filter: Filter)
    | Register(id: nat)
    | Begin
    | Check(id: nat)
    | Call
    | End
    | Remove(id: nat)
    | Purge(id: nat)
    | Shutdown

  function Served(s: State, served: set<nat>, id: nat): State
    requires id in s.handlers && s.done < |s.log|
  {
    var h := s.handlers[id];
    s.(dispatch := Serving(served + {id}, None),
       handlers := s.handlers[id := h.(seen := s.done + 1, view := Deliver(h.filter, h.view, s.log[s.done]))])
  }

  /** A compare-and-swap on the tombstone: only a live handler dies. */
  function Kill(h: Handler): Handler { if h.dead then h else h.(dead := true, deaths := h.deaths + 1) }

  /** What each step does; a step that cannot be taken changes nothing. */
  function Apply(s: State, st: Step): State {
    match st
    case StoreChange(key, new_) => s.(log := s.log + [Change(key, At(Store(s.log, |s.log|), key), new_)])
    case TakeSnapshot(id, f) => if id in s.waiting || id in s.handlers then s
                                else s.(waiting := s.waiting[id := Snapshot(f, |s.log|)])
    case Register(id) =>
      if s.dispatch != Idle || id !in s.waiting || s.waiting[id].snap > |s.log| then s
      else
        var w := s.waiting[id];
        s.(waiting := s.waiting - {id},
           handlers := s.handlers[id := Handler(w.filter, w.snap, s.done, false, true, 0, s.done,
                                                Filtered(w.filter, Store(s.log, w.snap)))])
    case Begin => if s.dispatch == Idle && s.done < |s.log| then s.(dispatch := Serving({}, None)) else s
    case Check(id) =>
      if s.dispatch.Serving? && s.dispatch.calling == None && id in s.handlers && s.handlers[id].present
      && id !in s.dispatch.served then
        s.(dispatch := if s.handlers[id].dead then Serving(s.dispatch.served + {id}, None)
                       else Serving(s.dispatch.served, Some(id)))
      else s
    case Call =>
      if s.dispatch.Serving? && s.dispatch.calling.Some? && s.dispatch.calling.value in s.handlers && s.done < |s.log|
      then Served(s, s.dispatch.served, s.dispatch.calling.value) else s
    case End =>
      if s.dispatch.Serving? && s.dispatch.calling == None
      && (forall id | id in s.handlers && s.handlers[id].present :: id in s.dispatch.served)
      then s.(dispatch := Idle, done := s.done + 1) else s
    case Remove(id) => if id in s.handlers then s.(handlers := s.handlers[id := Kill(s.handlers[id])]) else s
    case Purge(id) =>
      if s.dispatch == Idle && id in s.handlers && s.handlers[id].dead
      then s.(handlers := s.handlers[id := s.handlers[id].(present := false)]) else s
    case Shutdown =>
      if s.dispatch != Idle then s
      else s.(handlers := map id | id in s.handlers ::
                            if s.handlers[id].dead then s.handlers[id] else Kill(s.handlers[id]).(present := false))
  }

  const Start := State([], 0, Idle, map[], map[])

  function RunFrom(s: State, steps: seq<Step>): State
    decreases |steps|
  {
    if steps == [] then s else RunFrom(Apply(s, steps[0]), steps[1..])
  }

  function Run(steps: seq<Step>): State { RunFrom(Start, steps) }

  // ------------------------------------------------------- invariants

  /** How far a live handler has been served. */
  function Progress(s: State, id: nat): nat {
    if s.dispatch.Serving? && id in s.dispatch.served then s.done + 1 else s.done
  }

  ghost predicate HandlerOk(log: seq<Change>, h: Handler) {
    && h.snap <= |log| && h.reg <= h.seen <= |log| && h.view == View(h.filter, log, h.snap, h.reg, h.seen)
    && h.deaths == (if h.dead then 1 else 0)
  }

  ghost predicate LiveOk(s: State, id: nat, h: Handler) { !h.dead ==> h.present && h.seen == Progress(s, id) }

  ghost predicate DispatchOk(s: State) {
    && s.done <= |s.log| && (s.dispatch.Serving? ==> s.done < |s.log|)
    && (s.dispatch.Serving? && s.dispatch.calling.Some? ==>
          var id := s.dispatch.calling.value;
          id in s.handlers && id !in s.dispatch.served && s.handlers[id].seen == s.done)
  }

  ghost predicate Inv(s: State) {
    && LogOk(s.log) && DispatchOk(s)
    && (forall id | id in s.waiting :: s.waiting[id].snap <= |s.log| && id !in s.handlers)
    && (forall id | id in s.handlers :: HandlerOk(s.log, s.handlers[id]) && LiveOk(s, id, s.handlers[id]))
    && (s.dispatch.Serving? ==> forall id | id in s.dispatch.served :: id in s.handlers)
  }

  lemma {:induction false} StoreExtends(log: seq<Change>, c: Change, n: nat)
    requires n <= |log|
    ensures Store(log + [c], n) == Store(log, n)
  {
    if n > 0 {
      StoreExtends(log, c, n - 1);
    }
  }

  lemma {:induction false} ViewExtends(f: Filter, log: seq<Change>, c: Change, snap: nat, reg: nat, n: nat)
    requires snap <= |log| && reg <= n <= |log|
    ensures View(f, log + [c], snap, reg, n) == View(f, log, snap, reg, n)
    decreases n
  {
    StoreExtends(log, c, snap);
    if n > reg {
      ViewExtends(f, log, c, snap, reg, n - 1);
    }
  }

  lemma LogExtends(log: seq<Change>, key: string, new_: Option<Obj>)
    requires LogOk(log)
    ensures LogOk(log + [Change(key, At(Store(log, |log|), key), new_)])
  {
    var c := Change(key, At(Store(log, |log|), key), new_);
    forall i: nat | i < |log + [c]| ensures ChangeOk(log + [c], i) {
      assert i < |log| ==> ChangeOk(log, i);
      StoreExtends(log, c, i);
    }
  }

  lemma StoreChangeOk(s: State, key: string, new_: Option<Obj>)
    requires Inv(s)
    ensures Inv(Apply(s, StoreChange(key, new_)))
  {
    var s' := Apply(s, StoreChange(key, new_));
    LogExtends(s.log, key, new_);
    forall id | id in s'.handlers ensures HandlerOk(s'.log, s'.handlers[id]) && LiveOk(s', id, s'.handlers[id]) {
      var h := s.handlers[id];
      assert HandlerOk(s.log, h) && LiveOk(s, id, h);
      ViewExtends(h.filter, s.log, s'.log[|s.log|], h.snap, h.reg, h.seen);
    }
  }

  lemma CallOk(s: State)
    requires Inv(s)
    ensures Inv(Apply(s, Call))
  {
    var s' := Apply(s, Call);
    if s' != s {
      var id := s.dispatch.calling.value;
      forall j | j in s'.handlers ensures HandlerOk(s'.log, s'.handlers[j]) && LiveOk(s', j, s'.handlers[j]) {
        assert HandlerOk(s.log, s.handlers[j]) && LiveOk(s, j, s.handlers[j]);
      }
    }
  }

  lemma RegisterOk(s: State, id: nat)
    requires Inv(s)
    ensures Inv(Apply(s, Register(id)))
  {
    var s' := Apply(s, Register(id));
    forall j | j in s'.handlers ensures HandlerOk(s'.log, s'.handlers[j]) && LiveOk(s', j, s'.handlers[j]) {
      assert j in s.handlers ==> HandlerOk(s.log, s.handlers[j]) && LiveOk(s, j, s.handlers[j]);
    }
  }

  lemma DispatchStepOk(s: State, st: Step)
    requires Inv(s) && (st.TakeSnapshot? || st.Begin? || st.Check? || st.End?)
    ensures Inv(Apply(s, st))
  {
    var s' := Apply(s, st);
    forall id | id in s'.handlers ensures HandlerOk(s'.log, s'.handlers[id]) && LiveOk(s', id, s'.handlers[id]) {
      assert HandlerOk(s.log, s.handlers[id]) && LiveOk(s, id, s.handlers[id]);
    }
  }

  lemma RemovalStepOk(s: State, st: Step)
    requires Inv(s) && (st.Remove? || st.Purge? || st.Shutdown?)
    ensures Inv(Apply(s, st))
  {
    var s' := Apply(s, st);
    forall id | id in s'.handlers ensures HandlerOk(s'.log, s'.handlers[id]) && LiveOk(s', id, s'.handlers[id]) {
      assert HandlerOk(s.log, s.handlers[id]) && LiveOk(s, id, s.handlers[id]);
    }
  }

  /** Every step keeps the invariants. */
  lemma StepKeeps(s: State, st: Step)
    requires Inv(s)
    ensures Inv(Apply(s, st))
  {
    match st
    case StoreChange(key, new_) => StoreChangeOk(s, key, new_);
    case Register(id) => RegisterOk(s, id);
    case Call => CallOk(s);
    case Remove(_) => RemovalStepOk(s, st);
    case Purge(_) => RemovalStepOk(s, st);
    case Shutdown => RemovalStepOk(s, st);
    case _ => DispatchStepOk(s, st);
  }

  lemma {:induction false} RunKeeps(s: State, steps: seq<Step>)
    requires Inv(s)
    ensures Inv(RunFrom(s, steps))
    decreases |steps|
  {
    if steps != [] {
      StepKeeps(s, steps[0]);
      RunKeeps(Apply(s, steps[0]), steps[1..]);
    }
  }

  /** Handler view equals filtered store: in every reachable state where all changes have been
      dispatched, a live handler's view of an object is the stored object if it passes the
      filter, for every object with no change dispatched between the handler's snapshot and its
      registration; for any object it is so exactly under the condition of ViewExact. */
  lemma HandlerViewEqualsFilteredStore(steps: seq<Step>, id: nat, key: string)
    requires var s := Run(steps); s.dispatch == Idle && s.done == |s.log| && id in s.handlers && !s.handlers[id].dead
    ensures var s := Run(steps); var h := s.handlers[id];
            && h.snap <= |s.log| && h.reg <= |s.log|
            && (NoChange(s.log, h.snap, h.reg, key)
              ==> At(h.view, key) == At(Filtered(h.filter, Store(s.log, |s.log|)), key))
            && (At(h.view, key) == At(Filtered(h.filter, Store(s.log, |s.log|)), key) <==>
                h.reg <= h.snap || Touched(h.filter, s.log, h.reg, |s.log|, key)
                || Pass(h.filter, At(Store(s.log, h.snap), key)) == Pass(h.filter, At(Store(s.log, h.reg), key)))
  {
    RunKeeps(Start, steps);
    var s := Run(steps);
    var h := s.handlers[id];
    assert HandlerOk(s.log, h) && LiveOk(s, id, h);
    ViewExact(h.filter, s.log, h.snap, h.reg, |s.log|, key);
    if NoChange(s.log, h.snap, h.reg, key) {
      ViewEqualsFilteredStore(h.filter, s.log, h.snap, h.reg, |s.log|, key);
    }
  }

  // ------------------------------------------------------- removal

  ghost predicate BeingCalled(s: State, id: nat) { s.dispatch.Serving? && s.dispatch.calling == Some(id) }

  /** A dead handler that no dispatch found alive before it died. */
  ghost predicate Gone(s: State, id: nat) { id in s.handlers && s.handlers[id].dead && !BeingCalled(s, id) }

  lemma GoneStays(s: State, st: Step, id: nat)
    requires Inv(s) && Gone(s, id)
    ensures Gone(Apply(s, st), id)
    ensures Apply(s, st).handlers[id].view == s.handlers[id].view && Apply(s, st).handlers[id].deaths == 1
  {
    assert HandlerOk(s.log, s.handlers[id]);
  }

  lemma {:induction false} GoneForGood(s: State, steps: seq<Step>, id: nat)
    requires Inv(s) && Gone(s, id)
    ensures Gone(RunFrom(s, steps), id)
    ensures RunFrom(s, steps).handlers[id].view == s.handlers[id].view && RunFrom(s, steps).handlers[id].deaths == 1
    decreases |steps|
  {
    assert HandlerOk(s.log, s.handlers[id]);
    if steps != [] {
      StepKeeps(s, steps[0]);
      GoneStays(s, steps[0], id);
      GoneForGood(Apply(s, steps[0]), steps[1..], id);
    }
  }

  /** Each handler dies at most once, and once it is dead and no dispatch had found it alive
      before that, no later step of any run calls it. */
  lemma RemovalIsFinal(before: seq<Step>, after: seq<Step>, id: nat)
    requires Gone(Run(before), id)
    ensures Gone(RunFrom(Run(before), after), id)
    ensures RunFrom(Run(before), after).handlers[id].view == Run(before).handlers[id].view
    ensures RunFrom(Run(before), after).handlers[id].deaths == 1
  {
    RunKeeps(Start, before);
    GoneForGood(Run(before), after, id);
  }

  /** Shutting down waits for a dispatch to end; then every handler is gone for good. */
  lemma ShutdownStopsAll(before: seq<Step>, after: seq<Step>, id: nat)
    requires Run(before).dispatch == Idle && id in Run(before).handlers
    ensures var s := RunFrom(Apply(Run(before), Shutdown), after);
            Gone(s, id) && s.handlers[id].view == Run(before).handlers[id].view && s.handlers[id].deaths == 1
  {
    RunKeeps(Start, before);
    StepKeeps(Run(before), Shutdown);
    GoneForGood(Apply(Run(before), Shutdown), after, id);
  }

  /** A call in flight when its handler is removed is still made, once: the handler sees the change
      being dispatched, and afterwards it is gone for good. */
  lemma LastCall(steps: seq<Step>, id: nat)
    requires BeingCalled(Run(steps), id)
    ensures var s := Run(steps);
            var s' := Apply(Apply(s, Remove(id)), Call);
            && id in s.handlers && s.done < |s.log| && Gone(s', id)
            && s'.handlers[id].view == Deliver(s.handlers[id].filter, s.handlers[id].view, s.log[s.done])
            && s'.handlers[id].seen == s.handlers[id].seen + 1 == s.done + 1
  {
    RunKeeps(Start, steps);
  }

  /** Changes reach the handlers in order: while a change is being dispatched, every live handler
      has been given all earlier ones since its registration, and none a later one. */
  lemma DeliveredInOrder(steps: seq<Step>, id: nat)
    requires var s := Run(steps); id in s.handlers && !s.handlers[id].dead
    ensures var s := Run(steps); s.done <= s.handlers[id].seen <= s.done + 1
    ensures var s := Run(steps); s.dispatch == Idle ==> s.handlers[id].seen == s.done
  {
    RunKeeps(Start, steps);
    assert LiveOk(Run(steps), id, Run(steps).handlers[id]);
  }

  /** A registration may still replay an object whose deletion every other handler has seen: the
      snapshot was taken before. The new handler is given an add for an object that is gone, and
      never its deletion. */
  lemma ReplayOfDeleted(o: Obj, f: Filter)
    requires f(o)
    ensures var log := [Change("pod", None, Some(o)), Change("pod", Some(o), None)];
            LogOk(log) && Store(log, 2) == map[] && View(f, log, 1, 2, 2) == map["pod" := o]
  {
    var log := [Change("pod", None, Some(o)), Change("pod", Some(o), None)];
    assert Store(log, 1) == map["pod" := o];
    assert Store(log, 2) == map[];
    assert ChangeOk(log, 0) && ChangeOk(log, 1);
    assert View(f, log, 1, 2, 2) == Filtered(f, Store(log, 1));
  }

  /** And when the name is used again meanwhile, the new handler holds the replaced object, until
      the next change of the new one. */
  lemma ReplayOfReplaced(o: Obj, o': Obj, f: Filter)
    requires f(o)
    ensures var log := [Change("pod", None, Some(o)), Change("pod", Some(o), None), Change("pod", None, Some(o'))];
            LogOk(log) && Store(log, 3) == map["pod" := o'] && View(f, log, 1, 3, 3) == map["pod" := o]
  {
    var log := [Change("pod", None, Some(o)), Change("pod", Some(o), None), Change("pod", None, Some(o'))];
    assert Store(log, 1) == map["pod" := o];
    assert Store(log, 2) == map[];
    assert Store(log, 3) == map["pod" := o'];
    assert ChangeOk(log, 0) && ChangeOk(log, 1) && ChangeOk(log, 2);
    assert View(f, log, 1, 3, 3) == Filtered(f, Store(log, 1));
  }

  // ------------------------------------------------------- one dispatch as it runs

  function Serve(h: Handler, c: Change, next: nat): Handler {
    if h.dead || !h.present then h else h.(seen := next, view := Deliver(h.filter, h.view, c))
  }

  /** All handlers after a dispatch nothing interferes with. */
  function ServeAll(hs: map<nat, Handler>, c: Change, next: nat): map<nat, Handler> {
    map id | id in hs :: Serve(hs[id], c, next)
  }

  /** The steps of a dispatch that visits the handlers in the given order. */
  function Visits(order: seq<nat>): seq<Step> {
    if order == [] then [] else [Check(order[0]), Call] + Visits(order[1..])
  }

  lemma VisitOne(s: State, id: nat)
    requires s.dispatch.Serving? && s.dispatch.calling == None && s.done < |s.log|
    requires id in s.handlers && s.handlers[id].present && id !in s.dispatch.served
    ensures Apply(Apply(s, Check(id)), Call)
         == s.(dispatch := Serving(s.dispatch.served + {id}, None),
               handlers := s.handlers[id := Serve(s.handlers[id], s.log[s.done], s.done + 1)])
  {
    if s.handlers[id].dead {
      assert s.handlers[id := s.handlers[id]] == s.handlers;
    }
  }

  /** The handlers when those in `served` have been visited. */
  function ServeSome(hs: map<nat, Handler>, c: Change, next: nat, served: set<nat>): map<nat, Handler> {
    map id | id in hs :: if id in served then Serve(hs[id], c, next) else hs[id]
  }

  lemma {:induction false} VisitsServe(s: State, hs: map<nat, Handler>, order: seq<nat>)
    requires s.dispatch.Serving? && s.dispatch.calling == None && s.done < |s.log|
    requires s.handlers == ServeSome(hs, s.log[s.done], s.done + 1, s.dispatch.served)
    requires forall i | 0 <= i < |order| :: order[i] in hs && hs[order[i]].present && order[i] !in s.dispatch.served
    requires forall i, j | 0 <= i < j < |order| :: order[i] != order[j]
    ensures var all := s.dispatch.served + set id | id in order;
            RunFrom(s, Visits(order))
            == s.(dispatch := Serving(all, None), handlers := ServeSome(hs, s.log[s.done], s.done + 1, all))
    decreases |order|
  {
    if order == [] {
      assert s.dispatch.served + (set id | id in order) == s.dispatch.served;
    } else {
      var id, c, next := order[0], s.log[s.done], s.done + 1;
      VisitOne(s, id);
      var s' := Apply(Apply(s, Check(id)), Call);
      assert s'.handlers == ServeSome(hs, c, next, s'.dispatch.served);
      TwoSteps(s, Check(id), Call, Visits(order[1..]));
      VisitsServe(s', hs, order[1..]);
      assert s.dispatch.served + {id} + (set x | x in order[1..]) == s.dispatch.served + set x | x in order;
    }
  }

  lemma TwoSteps(s: State, a: Step, b: Step, rest: seq<Step>)
    ensures RunFrom(s, [a, b] + rest) == RunFrom(Apply(Apply(s, a), b), rest)
  {
    var steps := [a, b] + rest;
    assert steps[0] == a && steps[1..] == [b] + rest && ([b] + rest)[1..] == rest;
  }

  lemma {:induction false} RunConcat(s: State, a: seq<Step>, b: seq<Step>)
    ensures RunFrom(s, a + b) == RunFrom(RunFrom(s, a), b)
    decreases |a|
  {
    if a == [] {
      assert a + b == b;
    } else {
      assert (a + b)[0] == a[0] && (a + b)[1..] == a[1..] + b;
      RunConcat(Apply(s, a[0]), a[1..], b);
    }
  }

  lemma OneStep(s: State, st: Step)
    ensures RunFrom(s, [st]) == Apply(s, st)
  {
    assert [st][1..] == [];
    assert RunFrom(Apply(s, st), []) == Apply(s, st);
  }

  lemma EndServes(s: State, all: set<nat>)
    requires s.dispatch == Serving(all, None) && forall id | id in s.handlers && s.handlers[id].present :: id in all
    ensures Apply(s, End) == s.(dispatch := Idle, done := s.done + 1)
  {
  }

  lemma VisitsServeAll(s: State, order: seq<nat>)
    requires s.dispatch == Serving({}, None) && s.done < |s.log|
    requires forall id :: id in order <==> id in s.handlers && s.handlers[id].present
    requires forall i, j | 0 <= i < j < |order| :: order[i] != order[j]
    ensures var all := set id | id in order;
            RunFrom(s, Visits(order))
            == s.(dispatch := Serving(all, None), handlers := ServeAll(s.handlers, s.log[s.done], s.done + 1))
  {
    var all, c, next := (set id | id in order), s.log[s.done], s.done + 1;
    assert ServeSome(s.handlers, c, next, {}) == s.handlers;
    forall i | 0 <= i < |order| ensures order[i] in s.handlers && s.handlers[order[i]].present {
      assert order[i] in order;
    }
    VisitsServe(s, s.handlers, order);
    assert {} + all == all;
    assert ServeSome(s.handlers, c, next, all) == ServeAll(s.handlers, c, next);
  }

  /** A dispatch nothing interferes with, in any order of the handlers, is ForEachHandler. */
  lemma WholeDispatch(s: State, order: seq<nat>)
    requires s.dispatch == Idle && s.done < |s.log|
    requires forall id :: id in order <==> id in s.handlers && s.handlers[id].present
    requires forall i, j | 0 <= i < j < |order| :: order[i] != order[j]
    ensures RunFrom(s, [Begin] + Visits(order) + [End])
         == s.(done := s.done + 1, handlers := ServeAll(s.handlers, s.log[s.done], s.done + 1))
  {
    BeginServes(s);
    var begun := s.(dispatch := Serving({}, None));
    DispatchFrom(begun, order);
    var ended := begun.(dispatch := Idle, done := s.done + 1,
                        handlers := ServeAll(s.handlers, s.log[s.done], s.done + 1));
    Bracketed(s, Begin, Visits(order), End, begun, RunFrom(begun, Visits(order)), ended);
  }

  lemma BeginServes(s: State)
    requires s.dispatch == Idle && s.done < |s.log|
    ensures Apply(s, Begin) == s.(dispatch := Serving({}, None))
  {
  }

  lemma Bracketed(s: State, first: Step, steps: seq<Step>, last: Step, s1: State, s2: State, s3: State)
    requires Apply(s, first) == s1 && RunFrom(s1, steps) == s2 && Apply(s2, last) == s3
    ensures RunFrom(s, [first] + steps + [last]) == s3
  {
    RunConcat(s, [first] + steps, [last]);
    RunConcat(s, [first], steps);
    OneStep(s, first);
    OneStep(s2, last);
  }

  lemma DispatchFrom(s: State, order: seq<nat>)
    requires s.dispatch == Serving({}, None) && s.done < |s.log|
    requires forall id :: id in order <==> id in s.handlers && s.handlers[id].present
    requires forall i, j | 0 <= i < j < |order| :: order[i] != order[j]
    ensures Apply(RunFrom(s, Visits(order)), End)
         == s.(dispatch := Idle, done := s.done + 1, handlers := ServeAll(s.handlers, s.log[s.done], s.done + 1))
  {
    VisitsServeAll(s, order);
    EndServes(RunFrom(s, Visits(order)), set id | id in order);
  }

  /** forEachHandler, with the lock held throughout: every handler in the map whose tombstone is
      clear is called, once, in any order, and nothing else changes. */
  class Informer {
    var handlers: map<nat, Handler>

    constructor ()
      ensures handlers == map[]
    {
      handlers := map[];
    }

    method ForEachHandler(c: Change, next: nat)
      modifies this
      ensures handlers == ServeAll(old(handlers), c, next)
    {
      var left := handlers.Keys;
      while left != {}
        invariant left <= handlers.Keys == old(handlers).Keys
        invariant forall id | id in left :: handlers[id] == old(handlers)[id]
        invariant forall id | id in handlers && id !in left :: handlers[id] == Serve(old(handlers)[id], c, next)
        decreases |left|
      {
        var id :| id in left;
        var h := handlers[id];
        if !h.dead && h.present {
          handlers := handlers[id := h.(seen := next, view := Deliver(h.filter, h.view, c))];
        }
        left := left - {id};
      }
    }

    /** addHandler: the handler's add function is called for every snapshotted object; the wrapper
        passes on those that pass the filter. */
    method AddHandler(id: nat, filter: Filter, existing: map<string, Obj>, snap: nat, done: nat)
      requires id !in handlers
      modifies this
      ensures handlers == old(handlers)[id := Handler(filter, snap, done, false, true, 0, done,
                                                      Filtered(filter, existing))]
    {
      var view: map<string, Obj> := map[];
      var left := existing.Keys;
      while left != {}
        invariant left <= existing.Keys
        invariant view == map k | k in existing && k !in left && filter(existing[k]) :: existing[k]
        decreases |left|
      {
        var key :| key in left;
        view := Deliver(filter, view, Change(key, None, Some(existing[key])));
        left := left - {key};
      }
      assert view == Filtered(filter, existing);
      handlers := handlers[id := Handler(filter, snap, done, false, true, 0, done, view)];
    }

    /** removeHandler succeeds exactly for a handler that is still alive. */
    method RemoveHandler(id: nat) returns (ok: bool)
      requires id in handlers
      modifies this
      ensures ok <==> !old(handlers)[id].dead
      ensures handlers == old(handlers)[id := Kill(old(handlers)[id])]
    {
      ok := !handlers[id].dead;
      if ok {
        var h := handlers[id];
        handlers := handlers[id := h.(dead := true, deaths := h.deaths + 1)];
      }
    }
  }
}
