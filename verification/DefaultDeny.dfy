/** The default-deny counter of one logical port in one direction, step by step. A policy's
    deletion is not atomic: its handlers are shut down first and the loop over its local pods
    decrements the counters afterwards, while pods come and go (policy.go, pods.go). */
module DefaultDeny {
  /** `holders` are the live policies that hold the port and deny the direction, `leaving` those
      being deleted whose loop has not reached the port yet, and `stale` those of the latter that
      entered their deletion holding an earlier pod of the same name. */
  datatype Deny = Deny(alive: bool, count: nat, inGroup: bool, holders: set<nat>, leaving: set<nat>, stale: set<nat>)

  datatype Step =
    | Select(id: nat)
    | Deselect(id: nat)
    | BeginDelete(id: nat)
    | FinishDelete(id: nat)
    | PodDown
    | PodUp

  /** localPodAddDefaultDeny: the first holder puts the port into the group. */
  function Inc(d: Deny): Deny { d.(count := d.count + 1, inGroup := d.inGroup || d.count == 0) }

  /** localPodDelDefaultDeny: the last one takes it out, and a zero counter stays. */
  function Dec(d: Deny): Deny {
    if d.count == 0 then d else d.(count := d.count - 1, inGroup := d.inGroup && d.count != 1)
  }

  /** A pod is added anew only after every live handler has been given its deletion. */
  predicate Legal(d: Deny, st: Step) {
    match st
    case Select(id) => d.alive && id !in d.holders && id !in d.leaving
    case Deselect(id) => id in d.holders
    case BeginDelete(id) => id in d.holders
    case FinishDelete(id) => id in d.leaving
    case PodDown => d.alive
    case PodUp => !d.alive && d.holders == {}
  }

  function Apply(d: Deny, st: Step): Deny {
    match st
    case Select(id) => Inc(d).(holders := d.holders + {id})
    case Deselect(id) => Dec(d).(holders := d.holders - {id})
    case BeginDelete(id) => d.(holders := d.holders - {id}, leaving := d.leaving + {id},
                               stale := if d.alive then d.stale else d.stale + {id})
    case FinishDelete(id) => Dec(d).(leaving := d.leaving - {id}, stale := d.stale - {id})
    case PodDown => d.(alive := false, count := 0, inGroup := false, stale := d.leaving)
    case PodUp => d.(alive := true)
  }

  /** The counter of a live pod is the number of policies that still deny it, the group holds the
      port exactly when the counter is positive, and a pod that is gone has no counter. */
  ghost predicate Exact(d: Deny) {
    && d.holders !! d.leaving && d.stale <= d.leaving
    && d.count == (if d.alive then |d.holders| + |d.leaving - d.stale| else 0)
    && (d.inGroup <==> d.count > 0)
    && (!d.alive ==> d.stale == d.leaving)
  }

  /** The one step that goes wrong: the loop of a deletion reaches a port whose pod was replaced
      since, while some policy denies the new pod. */
  predicate HitsReplacedPod(d: Deny, st: Step) {
    st.FinishDelete? && st.id in d.stale && d.alive && d.count > 0
  }

  lemma Shrink(s: set<nat>, x: nat)
    requires x in s
    ensures |s - {x}| == |s| - 1
  {
  }

  lemma SelectExact(d: Deny, id: nat)
    requires Exact(d) && Legal(d, Select(id))
    ensures Exact(Apply(d, Select(id)))
  {
  }

  lemma BeginExact(d: Deny, id: nat)
    requires Exact(d) && Legal(d, BeginDelete(id))
    ensures Exact(Apply(d, BeginDelete(id)))
  {
  }

  lemma FinishExact(d: Deny, id: nat)
    requires Exact(d) && Legal(d, FinishDelete(id))
    ensures Exact(Apply(d, FinishDelete(id))) <==> !HitsReplacedPod(d, FinishDelete(id))
  {
    var d' := Apply(d, FinishDelete(id));
    if id in d.stale {
      assert d'.leaving - d'.stale == d.leaving - d.stale;
    } else {
      assert d'.leaving - d'.stale == (d.leaving - d.stale) - {id};
      Shrink(d.leaving - d.stale, id);
    }
  }

  /** Reference counting is exact through a step if and only if the step is not that one. */
  lemma CounterStaysExact(d: Deny, st: Step)
    requires Exact(d) && Legal(d, st)
    ensures Exact(Apply(d, st)) <==> !HitsReplacedPod(d, st)
  {
    match st
    case Select(id) => SelectExact(d, id);
    case Deselect(id) => Shrink(d.holders, id);
    case BeginDelete(id) => BeginExact(d, id);
    case FinishDelete(id) => FinishExact(d, id);
    case PodDown =>
    case PodUp => assert d.leaving - d.stale == {};
  }

  function Run(d: Deny, steps: seq<Step>): Deny
    decreases |steps|
  {
    if steps == [] then d else Run(Apply(d, steps[0]), steps[1..])
  }

  ghost predicate LegalRun(d: Deny, steps: seq<Step>)
    decreases |steps|
  {
    steps == [] || (Legal(d, steps[0]) && LegalRun(Apply(d, steps[0]), steps[1..]))
  }

  /** No step of the run is the bad one. */
  ghost predicate NeverHits(d: Deny, steps: seq<Step>)
    decreases |steps|
  {
    steps == [] || (!HitsReplacedPod(d, steps[0]) && NeverHits(Apply(d, steps[0]), steps[1..]))
  }

  lemma {:induction false} RunStaysExact(d: Deny, steps: seq<Step>)
    requires Exact(d) && LegalRun(d, steps) && NeverHits(d, steps)
    ensures Exact(Run(d, steps))
    decreases |steps|
  {
    if steps != [] {
      CounterStaysExact(d, steps[0]);
      RunStaysExact(Apply(d, steps[0]), steps[1..]);
    }
  }

  /** The counter is right now and after every step. */
  ghost predicate AlwaysExact(d: Deny, steps: seq<Step>)
    decreases |steps|
  {
    Exact(d) && (steps == [] || AlwaysExact(Apply(d, steps[0]), steps[1..]))
  }

  /** Over whole runs: the counter is right throughout exactly when no step is a late decrement on a
      replaced pod. */
  lemma {:induction false} RunExactly(d: Deny, steps: seq<Step>)
    requires Exact(d) && LegalRun(d, steps)
    ensures AlwaysExact(d, steps) <==> NeverHits(d, steps)
    decreases |steps|
  {
    if steps != [] {
      CounterStaysExact(d, steps[0]);
      if !HitsReplacedPod(d, steps[0]) {
        RunExactly(Apply(d, steps[0]), steps[1..]);
      }
    }
  }

  /** Pods are not replaced while a policy deletion that held them is under way. */
  ghost predicate NoReplacement(d: Deny, steps: seq<Step>)
    decreases |steps|
  {
    steps == [] || ((steps[0].PodUp? ==> d.leaving == {}) && NoReplacement(Apply(d, steps[0]), steps[1..]))
  }

  lemma {:induction false} NoReplacementNoHit(d: Deny, steps: seq<Step>)
    requires Exact(d) && LegalRun(d, steps) && NoReplacement(d, steps) && (d.alive ==> d.stale == {})
    ensures NeverHits(d, steps)
    decreases |steps|
  {
    if steps != [] {
      CounterStaysExact(d, steps[0]);
      NoReplacementNoHit(Apply(d, steps[0]), steps[1..]);
    }
  }

  const Fresh := Deny(true, 0, false, {}, {}, {})

  /** Default-deny reference counting, for every run from a new pod in which no pod is replaced
      during such a deletion, whichever order its deletion and the policies' handlers run in: the
      port is in the deny group exactly when some policy still denies it. */
  lemma CountingIsExact(steps: seq<Step>)
    requires LegalRun(Fresh, steps) && NoReplacement(Fresh, steps)
    ensures var d := Run(Fresh, steps);
            && (d.alive ==> d.count == |d.holders| + |d.leaving| && (d.inGroup <==> d.holders + d.leaving != {}))
            && (!d.alive ==> d.count == 0 && !d.inGroup)
  {
    NoReplacementNoHit(Fresh, steps);
    RunStaysExact(Fresh, steps);
    StaleOnlyDead(Fresh, steps);
    var d := Run(Fresh, steps);
    if d.alive {
      assert d.leaving - d.stale == d.leaving;
      assert d.holders + d.leaving == {} <==> d.holders == {} && d.leaving == {};
    }
  }

  lemma {:induction false} StaleOnlyDead(d: Deny, steps: seq<Step>)
    requires Exact(d) && LegalRun(d, steps) && NoReplacement(d, steps) && (d.alive ==> d.stale == {})
    ensures Run(d, steps).alive ==> Run(d, steps).stale == {}
    decreases |steps|
  {
    if steps != [] {
      CounterStaysExact(d, steps[0]);
      StaleOnlyDead(Apply(d, steps[0]), steps[1..]);
    }
  }

  /** Without that restriction it fails: policy 1 is deleted while its pod is replaced and policy
      2 selects the new pod; the late decrement takes the new pod out of the deny group. */
  lemma LateDecrementOpensThePort()
    ensures var steps := [Select(1), BeginDelete(1), PodDown, PodUp, Select(2), FinishDelete(1)];
            LegalRun(Fresh, steps) && Run(Fresh, steps) == Deny(true, 0, false, {2}, {}, {})
  {
    var d1 := Apply(Fresh, Select(1));
    var d2 := Apply(d1, BeginDelete(1));
    var d4 := Apply(Apply(d2, PodDown), PodUp);
    assert d4 == Deny(true, 0, false, {}, {1}, {1});
    var d6 := Apply(Apply(d4, Select(2)), FinishDelete(1));
    assert d6 == Deny(true, 0, false, {2}, {}, {});
    var s0 := [FinishDelete(1)];
    var s1 := [Select(2), FinishDelete(1)];
    var s2 := [PodUp, Select(2), FinishDelete(1)];
    var s3 := [PodDown, PodUp, Select(2), FinishDelete(1)];
    var s4 := [BeginDelete(1), PodDown, PodUp, Select(2), FinishDelete(1)];
    var steps := [Select(1), BeginDelete(1), PodDown, PodUp, Select(2), FinishDelete(1)];
    assert s0[1..] == [] && s1[1..] == s0 && s2[1..] == s1 && s3[1..] == s2 && s4[1..] == s3 && steps[1..] == s4;
    assert Run(d6, []) == d6 && Run(Apply(d4, Select(2)), s0) == d6 && Run(d4, s1) == d6;
    assert Run(Apply(d2, PodDown), s2) == d6 && Run(d2, s3) == d6 && Run(d1, s4) == d6;
    assert LegalRun(d4, s1) && LegalRun(Apply(d2, PodDown), s2) && LegalRun(d2, s3);
  }
}
