/** Join-switch addresses of gateway routers (gateway-init.go, net.go, master.go): every node takes
    a lock held in the northbound database, reads the addresses in use, adds its router port with
    the least free one and unlocks, and any of these steps may fail. */
module GatewayInit {
  import opened Acl
  import opened Net

  /** 100.64.0.0 and 100.64.255.255. */
  const BASE: nat := 100 * 0x100_0000 + 64 * 0x1_0000
  const LAST: nat := BASE + 65535

  // ------------------------------------------------------- the search

  /** Where the loop of generateGatewayIP stops when it has come as far as `v`. */
  function Search(used: set<nat>, v: nat): (r: nat)
    requires BASE <= v <= LAST
    ensures BASE <= r <= LAST
    decreases LAST - v
  {
    if v == LAST then v else if v + 1 in used then Search(used, v + 1) else v + 1
  }

  /** The join address the search picks. */
  function Pick(used: set<nat>): nat { Search(used, BASE) }

  predicate Exhausted(used: set<nat>) { forall a | BASE < a <= LAST :: a in used }

  lemma {:induction false} SearchStops(used: set<nat>, v: nat)
    requires BASE <= v <= LAST && forall a | BASE < a <= v :: a in used
    ensures var r := Search(used, v);
            if Exhausted(used) then r == LAST
            else BASE < r <= LAST && r !in used && forall a | BASE < a < r :: a in used
    decreases LAST - v
  {
    if v < LAST && v + 1 in used {
      SearchStops(used, v + 1);
    }
  }

  /** The search returns the least unused address of 100.64.0.1 to 100.64.255.255, or the last
      address when all are in use. */
  lemma PickIsLeastFree(used: set<nat>)
    ensures if Exhausted(used) then Pick(used) == LAST
            else BASE < Pick(used) <= LAST && Pick(used) !in used && forall a | BASE < a < Pick(used) :: a in used
  {
    SearchStops(used, BASE);
  }

  function Values(ips: seq<Option<nat>>): set<nat> { set o | o in ips && o.Some? :: o.value }

  lemma FourBytesInjective(v: nat, w: nat)
    requires v < MAX_IPV4 && w < MAX_IPV4 && FourBytes(v) == FourBytes(w)
    ensures v == w
  {
    FourBytesRoundTrip(v);
    FourBytesRoundTrip(w);
  }

  /** The inner loop: whether the address is one of the listed networks' addresses. An entry that
      does not parse never compares equal. */
  method IsListed(ip: seq<Byte>, ghost v: nat, ips: seq<Option<nat>>) returns (used: bool)
    requires v < MAX_IPV4 && ip == FourBytes(v) && forall i | 0 <= i < |ips| && ips[i].Some? :: ips[i].value < MAX_IPV4
    ensures used <==> v in Values(ips)
  {
    var i := 0;
    while i < |ips|
      invariant 0 <= i <= |ips| && Some(v) !in ips[..i]
    {
      if ips[i].Some? && ip == FourBytes(ips[i].value) {
        FourBytesInjective(v, ips[i].value);
        return true;
      }
      assert ips[..i + 1] == ips[..i] + [ips[i]];
      i := i + 1;
    }
    assert ips[..i] == ips;
    return false;
  }

  lemma JoinBytes(v: nat)
    requires BASE <= v <= LAST
    ensures v < MAX_IPV4 && |FourBytes(v)| == 4 && FourBytes(v)[0] == 100 && FourBytes(v)[1] == 64
  {
  }

  /** generateGatewayIP on address bytes, in at most 65535 turns. */
  method GenerateGatewayIP(ips: seq<Option<nat>>) returns (ip: seq<Byte>, ghost turns: nat)
    requires forall i | 0 <= i < |ips| && ips[i].Some? :: ips[i].value < MAX_IPV4
    ensures Pick(Values(ips)) < MAX_IPV4 && ip == FourBytes(Pick(Values(ips)))
    ensures |ip| == 4 && ip[0] == 100 && ip[1] == 64
    ensures turns == Pick(Values(ips)) - BASE <= 65535
  {
    ghost var v := BASE;
    JoinBytes(Pick(Values(ips)));
    turns := 0;
    ip := FourBytes(BASE);
    while ip != FourBytes(LAST)
      invariant BASE <= v <= LAST && ip == FourBytes(v) && turns == v - BASE
      invariant Search(Values(ips), v) == Pick(Values(ips))
      decreases LAST - v
    {
      NextIPExact(ip, v);
      ip := NextIP(ip);
      v := v + 1;
      turns := turns + 1;
      var used := IsListed(ip, v, ips);
      if !used {
        return;
      }
    }
    FourBytesInjective(v, LAST);
  }

  // ------------------------------------------------------- the protocol

  /** Where a node is: outside, holding the lock, holding an address it has picked (`full` when
      its search found the whole range in use), or about to unlock. */
  datatype Phase = Outside | Locked | Picked(ip: nat, full: bool) | Leaving

  /** The lock value, the join-switch router ports by node, and every node's place. Node 0 is the
      cluster router. */
  datatype State = State(lock: Option<nat>, ports: map<nat, nat>, phase: map<nat, Phase>)

  /** `ok` is whether the command succeeds; a failed command changes nothing. */
  datatype Step =
    | Lock(n: nat)
    | ReadUsed(n: nat, ok: bool)
    | AddPort(n: nat, ok: bool)
    | Unlock(n: nat, ok: bool)
    | Crash(n: nat)
    | Cleanup(n: nat)
    | ResetLock

  function At(s: State, n: nat): Phase { if n in s.phase then s.phase[n] else Outside }

  predicate Inside(s: State, n: nat) { At(s, n) != Outside }

  function Used(s: State): set<nat> { Addresses(s.ports) }

  function Addresses(ports: map<nat, nat>): set<nat> { set n | n in ports :: ports[n] }

  function Apply(s: State, st: Step): State {
    match st
    case Lock(n) =>
      if n == 0 || Inside(s, n) || n in s.ports || s.lock.Some? then s
      else s.(lock := Some(n), phase := s.phase[n := Locked])
    case ReadUsed(n, ok) =>
      if At(s, n) != Locked then s
      else s.(phase := s.phase[n := if ok then Picked(Pick(Used(s)), Exhausted(Used(s))) else Leaving])
    case AddPort(n, ok) =>
      if !At(s, n).Picked? then s
      else if !ok then s.(phase := s.phase[n := Leaving])
      else s.(ports := s.ports[n := At(s, n).ip], phase := s.phase[n := Leaving])
    case Unlock(n, ok) =>
      if At(s, n) != Leaving then s else s.(lock := if ok then None else s.lock, phase := s.phase[n := Outside])
    case Crash(n) => if Inside(s, n) then s.(phase := s.phase[n := Outside]) else s
    case Cleanup(n) => if n == 0 then s else s.(ports := s.ports - {n})
    case ResetLock => s.(lock := None)
  }

  /** After master set-up: the lock is free and the cluster router has 100.64.0.1. */
  const Start := State(None, map[0 := BASE + 1], map[])

  function Run(s: State, steps: seq<Step>): State
    decreases |steps|
  {
    if steps == [] then s else Run(Apply(s, steps[0]), steps[1..])
  }

  /** No node is in the critical section. */
  ghost predicate Quiet(s: State) { forall n: nat :: !Inside(s, n) }

  /** The master is only set up again while no node is in the critical section. */
  ghost predicate QuietResets(s: State, steps: seq<Step>)
    decreases |steps|
  {
    steps == [] || ((steps[0].ResetLock? ==> Quiet(s)) && QuietResets(Apply(s, steps[0]), steps[1..]))
  }

  ghost predicate PortsDistinct(s: State) {
    forall m, n | m in s.ports && n in s.ports && m != n :: s.ports[m] != s.ports[n]
  }

  /** A port is added whose search found the whole range in use, while the last address still is. */
  predicate Overflows(s: State, st: Step) {
    st.AddPort? && st.ok && At(s, st.n).Picked? && At(s, st.n).full && LAST in Used(s)
  }

  predicate NoOverflow(s: State, steps: seq<Step>)
    decreases |steps|
  {
    steps == [] || (!Overflows(s, steps[0]) && NoOverflow(Apply(s, steps[0]), steps[1..]))
  }

  /** Router ports differ now and after every step. */
  ghost predicate AlwaysDistinct(s: State, steps: seq<Step>)
    decreases |steps|
  {
    PortsDistinct(s) && (steps == [] || AlwaysDistinct(Apply(s, steps[0]), steps[1..]))
  }

  // ------------------------------------------------------- what every step keeps

  /** Whoever is inside holds the lock. */
  ghost predicate Exclusive(s: State) { forall n: nat | Inside(s, n) :: s.lock == Some(n) }

  /** A picked address is free, or it is the last one. */
  ghost predicate PickedOk(s: State) {
    forall n: nat | At(s, n).Picked? :: if At(s, n).full then At(s, n).ip == LAST else At(s, n).ip !in Used(s)
  }

  /** A node that has not added its port yet has none. */
  ghost predicate NoneYet(s: State) { forall n: nat | Inside(s, n) && At(s, n) != Leaving :: n !in s.ports }

  ghost predicate Inv(s: State) { Exclusive(s) && PickedOk(s) && NoneYet(s) }

  lemma OnlyOne(s: State, n: nat)
    requires Exclusive(s) && Inside(s, n)
    ensures forall m: nat | m != n :: At(s, m) == Outside
  {
    forall m: nat | m != n ensures At(s, m) == Outside {
      assert Inside(s, m) ==> s.lock == Some(m);
    }
  }

  lemma ExclusiveKeeps(s: State, st: Step)
    requires Exclusive(s) && (st.ResetLock? ==> Quiet(s))
    ensures Exclusive(Apply(s, st))
  {
    var s' := Apply(s, st);
    if st.Unlock? && Inside(s, st.n) {
      OnlyOne(s, st.n);
    }
    forall n: nat | Inside(s', n) ensures s'.lock == Some(n) {
      assert Inside(s, n) ==> s.lock == Some(n);
    }
  }

  lemma ReadKeeps(s: State, n: nat)
    requires Inv(s)
    ensures PickedOk(Apply(s, ReadUsed(n, true))) && NoneYet(Apply(s, ReadUsed(n, true)))
  {
    var s' := Apply(s, ReadUsed(n, true));
    PickIsLeastFree(Used(s));
    assert s'.ports == s.ports;
    forall m: nat | At(s', m).Picked?
      ensures if At(s', m).full then At(s', m).ip == LAST else At(s', m).ip !in Used(s')
    {
      assert At(s', m) == At(s, m) || At(s', m) == Picked(Pick(Used(s)), Exhausted(Used(s)));
    }
    forall m: nat | Inside(s', m) && At(s', m) != Leaving ensures m !in s'.ports {
      assert Inside(s, m) && At(s, m) != Leaving;
    }
  }

  lemma AddKeeps(s: State, n: nat)
    requires Inv(s)
    ensures PickedOk(Apply(s, AddPort(n, true))) && NoneYet(Apply(s, AddPort(n, true)))
  {
    var s' := Apply(s, AddPort(n, true));
    if At(s, n).Picked? {
      OnlyOne(s, n);
      forall m: nat ensures At(s', m) == if m == n then Leaving else Outside {
        assert m != n ==> At(s, m) == Outside;
      }
    }
  }

  /** Every other step leaves ports and picked addresses as they are, or removes some. */
  lemma OtherKeeps(s: State, st: Step)
    requires Inv(s) && !(st.ReadUsed? && st.ok) && !(st.AddPort? && st.ok)
    ensures PickedOk(Apply(s, st)) && NoneYet(Apply(s, st))
            && Apply(s, st).ports == s.ports - (if st.Cleanup? then {st.n} - {0} else {})
  {
    var s' := Apply(s, st);
    forall n | n in s'.ports ensures n in s.ports && s'.ports[n] == s.ports[n] {
    }
    forall ip | ip in Used(s') ensures ip in Used(s) {
      var n :| n in s'.ports && s'.ports[n] == ip;
      assert n in s.ports && s.ports[n] == ip;
    }
    forall n: nat | At(s', n).Picked?
      ensures if At(s', n).full then At(s', n).ip == LAST else At(s', n).ip !in Used(s')
    {
      assert At(s, n) == At(s', n);
    }
    forall n: nat | Inside(s', n) && At(s', n) != Leaving ensures n !in s'.ports {
      assert (Inside(s, n) && At(s, n) != Leaving) || st == Lock(n);
    }
  }

  lemma StepKeeps(s: State, st: Step)
    requires Inv(s) && (st.ResetLock? ==> Quiet(s))
    ensures Inv(Apply(s, st))
  {
    ExclusiveKeeps(s, st);
    if st.ReadUsed? && st.ok {
      ReadKeeps(s, st.n);
    } else if st.AddPort? && st.ok {
      AddKeeps(s, st.n);
    } else {
      OtherKeeps(s, st);
    }
  }

  /** A step makes two ports share an address exactly when it adds the port of a search that
      found the whole range in use while the last address still is. */
  lemma DuplicateExactly(s: State, st: Step)
    requires Inv(s) && PortsDistinct(s)
    ensures PortsDistinct(Apply(s, st)) <==> !Overflows(s, st)
  {
    var s' := Apply(s, st);
    if st.AddPort? && st.ok && At(s, st.n).Picked? {
      var ip := At(s, st.n).ip;
      assert forall a | a in s.ports :: s.ports[a] in Used(s);
      assert ip in Used(s) <==> Overflows(s, st);
      if ip in Used(s) {
        var a :| a in s.ports && s.ports[a] == ip;
        assert a in s'.ports && st.n in s'.ports && s'.ports[a] == s'.ports[st.n];
      }
    } else if !(st.ReadUsed? && st.ok) && !(st.AddPort? && st.ok) {
      OtherKeeps(s, st);
    }
  }

  lemma {:induction false} RunKeeps(s: State, steps: seq<Step>)
    requires Inv(s) && QuietResets(s, steps)
    ensures Inv(Run(s, steps))
    decreases |steps|
  {
    if steps != [] {
      StepKeeps(s, steps[0]);
      RunKeeps(Apply(s, steps[0]), steps[1..]);
    }
  }

  lemma {:induction false} RunDistinct(s: State, steps: seq<Step>)
    requires Inv(s) && PortsDistinct(s) && QuietResets(s, steps)
    ensures AlwaysDistinct(s, steps) <==> NoOverflow(s, steps)
    ensures NoOverflow(s, steps) ==> PortsDistinct(Run(s, steps))
    decreases |steps|
  {
    if steps != [] {
      StepKeeps(s, steps[0]);
      DuplicateExactly(s, steps[0]);
      if !Overflows(s, steps[0]) {
        RunDistinct(Apply(s, steps[0]), steps[1..]);
      }
    }
  }

  lemma StartOk()
    ensures Inv(Start) && PortsDistinct(Start)
  {
  }

  /** Gateway allocation: over every interleaving of any number of nodes, with any commands
      failing, nodes crashing, gateways being removed and the master being set up again while no
      node is in the critical section, at most one node is in it, and the join-switch router ports
      have different addresses throughout exactly when no port is added whose search found the
      whole range in use while the last address still is. */
  lemma AllocationIsSafe(steps: seq<Step>, m: nat, n: nat)
    requires QuietResets(Start, steps)
    ensures Inside(Run(Start, steps), m) && Inside(Run(Start, steps), n) ==> m == n
    ensures AlwaysDistinct(Start, steps) <==> NoOverflow(Start, steps)
  {
    StartOk();
    RunKeeps(Start, steps);
    RunDistinct(Start, steps);
    var s := Run(Start, steps);
    if Inside(s, m) && Inside(s, n) {
      assert s.lock == Some(m) && s.lock == Some(n);
    }
  }

  // ------------------------------------------------------- fewer nodes than addresses

  lemma {:induction false} SubsetSize(a: set<nat>, b: set<nat>)
    requires a <= b
    ensures |a| <= |b|
    decreases b
  {
    if b != {} {
      var x :| x in b;
      SubsetSize(a - {x}, b - {x});
    }
  }

  function FirstAddresses(k: nat): set<nat> { if k == 0 then {} else FirstAddresses(k - 1) + {BASE + k} }

  lemma {:induction false} FirstAre(k: nat)
    ensures |FirstAddresses(k)| == k && forall a | a in FirstAddresses(k) :: BASE < a <= BASE + k
  {
    if k > 0 {
      FirstAre(k - 1);
    }
  }

  lemma AddressesLess(ports: map<nat, nat>, k: nat)
    requires k in ports
    ensures Addresses(ports) <= Addresses(ports - {k}) + {ports[k]}
  {
    forall a | a in Addresses(ports) ensures a in Addresses(ports - {k}) + {ports[k]} {
      var n :| n in ports && ports[n] == a;
      assert n != k ==> n in ports - {k} && (ports - {k})[n] == a;
    }
  }

  lemma {:induction false} UsedSize(ports: map<nat, nat>)
    ensures |Addresses(ports)| <= |ports.Keys|
    decreases |ports.Keys|
  {
    if ports.Keys == {} {
      assert Addresses(ports) == {};
    } else {
      var k :| k in ports.Keys;
      var rest := ports - {k};
      assert rest.Keys == ports.Keys - {k};
      UsedSize(rest);
      AddressesLess(ports, k);
      SubsetSize(Addresses(ports), Addresses(rest) + {ports[k]});
    }
  }

  lemma NotExhausted(s: State, nodes: set<nat>)
    requires s.ports.Keys <= nodes && |nodes| < 65535
    ensures !Exhausted(Used(s))
  {
    UsedSize(s.ports);
    SubsetSize(s.ports.Keys, nodes);
    if Exhausted(Used(s)) {
      FirstAre(65535);
      SubsetSize(FirstAddresses(65535), Used(s));
    }
  }

  /** Only these nodes have ports or are inside, and no search found the range in use. */
  ghost predicate Within(s: State, nodes: set<nat>) {
    && s.ports.Keys <= nodes
    && (forall n: nat | Inside(s, n) :: n in nodes)
    && (forall n: nat | At(s, n).Picked? :: !At(s, n).full)
  }

  lemma StepWithin(s: State, st: Step, nodes: set<nat>)
    requires Within(s, nodes) && NoneYet(s) && |nodes| <= 65535 && (st.Lock? ==> st.n in nodes)
    ensures Within(Apply(s, st), nodes)
  {
    var s' := Apply(s, st);
    if st.ReadUsed? && At(s, st.n) == Locked {
      NotExhausted(s, nodes - {st.n});
    }
    forall n: nat ensures (Inside(s', n) ==> n in nodes) && (At(s', n).Picked? ==> !At(s', n).full) {
      assert At(s', n) == At(s, n) || st.ResetLock? || st.n == n;
      assert Inside(s', n) ==> Inside(s, n) || st == Lock(n);
    }
  }

  lemma {:induction false} WithinNoOverflow(s: State, steps: seq<Step>, nodes: set<nat>)
    requires Inv(s) && QuietResets(s, steps)
    requires Within(s, nodes) && |nodes| <= 65535 && forall st | st in steps && st.Lock? :: st.n in nodes
    ensures NoOverflow(s, steps)
    decreases |steps|
  {
    if steps != [] {
      assert steps[0] in steps;
      StepKeeps(s, steps[0]);
      StepWithin(s, steps[0], nodes);
      WithinNoOverflow(Apply(s, steps[0]), steps[1..], nodes);
    }
  }

  /** The range has an address for the cluster router and 65534 nodes: as long as no more than these
      ever lock, the addresses always differ. */
  lemma FewNodesNeverShare(steps: seq<Step>, nodes: set<nat>)
    requires QuietResets(Start, steps) && |nodes| <= 65534 && forall st | st in steps && st.Lock? :: st.n in nodes
    ensures AlwaysDistinct(Start, steps)
  {
    StartOk();
    WithinNoOverflow(Start, steps, nodes + {0});
    RunDistinct(Start, steps);
  }

  // ------------------------------------------------------- resetting the lock

  lemma {:induction false} RunConcat(s: State, a: seq<Step>, b: seq<Step>)
    ensures Run(s, a + b) == Run(Run(s, a), b)
    ensures NoOverflow(s, a) && NoOverflow(Run(s, a), b) ==> NoOverflow(s, a + b)
    decreases |a|
  {
    if a == [] {
      assert a + b == b;
    } else {
      assert (a + b)[0] == a[0] && (a + b)[1..] == a[1..] + b;
      RunConcat(Apply(s, a[0]), a[1..], b);
    }
  }

  lemma Two(s: State, a: Step, b: Step)
    ensures Run(s, [a, b]) == Apply(Apply(s, a), b)
    ensures NoOverflow(s, [a, b]) <==> !Overflows(s, a) && !Overflows(Apply(s, a), b)
  {
    assert [a, b][1..] == [b] && [b][1..] == [];
    assert Run(Apply(s, a), [b]) == Apply(Apply(s, a), b);
    assert NoOverflow(Apply(s, a), [b]) <==> !Overflows(Apply(s, a), b);
  }

  lemma One(s: State, a: Step)
    ensures Run(s, [a]) == Apply(s, a) && (NoOverflow(s, [a]) <==> !Overflows(s, a))
  {
    assert [a][1..] == [];
  }

  predicate Fresh(s: State, n: nat) { n != 0 && n !in s.ports && !Inside(s, n) }

  /** A free lock lets a new node in to pick an address. */
  lemma ComeIn(s: State, n: nat)
    requires s.lock.None? && Fresh(s, n) && !Exhausted(Used(s))
    ensures var steps := [Lock(n), ReadUsed(n, true)];
            && Run(s, steps) == s.(lock := Some(n), phase := s.phase[n := Picked(Pick(Used(s)), false)])
            && NoOverflow(s, steps)
  {
    Two(s, Lock(n), ReadUsed(n, true));
    var t := Apply(s, Lock(n));
    assert Used(t) == Used(s);
    assert s.phase[n := Locked][n := Picked(Pick(Used(s)), false)] == s.phase[n := Picked(Pick(Used(s)), false)];
  }

  /** Whatever a node inside is doing, failing commands and then unlocking brings it out. */
  lemma GoOut(s: State, m: nat)
    requires Inside(s, m)
    ensures var steps := [ReadUsed(m, false), AddPort(m, false)] + [Unlock(m, true)];
            Run(s, steps) == s.(lock := None, phase := s.phase[m := Outside]) && NoOverflow(s, steps)
  {
    var t := s.(phase := s.phase[m := Leaving]);
    Two(s, ReadUsed(m, false), AddPort(m, false));
    assert At(s, m) == Leaving ==> s.phase[m := Leaving] == s.phase;
    assert Apply(Apply(s, ReadUsed(m, false)), AddPort(m, false)) == t;
    RunConcat(s, [ReadUsed(m, false), AddPort(m, false)], [Unlock(m, true)]);
    One(t, Unlock(m, true));
    assert s.phase[m := Leaving][m := Outside] == s.phase[m := Outside];
  }

  /** Two nodes that hold the same address both add it. */
  lemma BothAdd(s: State, n: nat, o: nat, ip: nat)
    requires n != o && At(s, n) == Picked(ip, false) && At(s, o) == Picked(ip, false)
    ensures var steps := [AddPort(n, true), AddPort(o, true)];
            !PortsDistinct(Run(s, steps)) && NoOverflow(s, steps)
  {
    Two(s, AddPort(n, true), AddPort(o, true));
    var t := Run(s, [AddPort(n, true), AddPort(o, true)]);
    assert n in t.ports && o in t.ports && t.ports[n] == ip == t.ports[o];
  }

  /** While m is inside and the lock is free, two new nodes can be made to share an address. */
  lemma Duplicating(s: State, m: nat, n: nat, o: nat) returns (steps: seq<Step>)
    requires s.lock.None? && Inside(s, m) && Fresh(s, n) && Fresh(s, o) && n != o && !Exhausted(Used(s))
    ensures NoOverflow(s, steps) && !PortsDistinct(Run(s, steps)) && forall st | st in steps :: !st.ResetLock?
  {
    var ip := Pick(Used(s));
    var a := [Lock(n), ReadUsed(n, true)];
    var b := [ReadUsed(m, false), AddPort(m, false)] + [Unlock(m, true)];
    var c := [Lock(o), ReadUsed(o, true)];
    var d := [AddPort(n, true), AddPort(o, true)];
    ComeIn(s, n);
    var s1 := Run(s, a);
    GoOut(s1, m);
    var s2 := Run(s1, b);
    assert Used(s2) == Used(s);
    ComeIn(s2, o);
    var s3 := Run(s2, c);
    BothAdd(s3, n, o, ip);
    RunConcat(s2, c, d);
    RunConcat(s1, b, c + d);
    RunConcat(s, a, b + (c + d));
    steps := a + (b + (c + d));
  }

  lemma FreshOne(s: State, bound: nat) returns (n: nat)
    ensures Fresh(s, n) && n > bound
  {
    n := Above(s.ports.Keys + s.phase.Keys, bound + 1);
  }

  lemma {:induction false} Above(taken: set<nat>, least: nat) returns (n: nat)
    ensures n >= least && n !in taken
    decreases taken
  {
    if least in taken {
      n := Above(taken - {least}, least + 1);
    } else {
      n := least;
    }
  }

  /** A gateway can be removed so that the range is not all in use. */
  lemma MakeRoom(s: State) returns (k: nat)
    requires PortsDistinct(s)
    ensures var t := Apply(s, Cleanup(k)); t.lock == s.lock && t.phase == s.phase && !Exhausted(Used(t))
  {
    k := 0;
    if Exhausted(Used(s)) {
      var a := if 0 in s.ports && s.ports[0] == BASE + 1 then BASE + 2 else BASE + 1;
      assert BASE < a <= LAST && a in Used(s);
      k :| k in s.ports && s.ports[k] == a;
      var t := Apply(s, Cleanup(k));
      assert k != 0 && a !in Used(t);
    }
  }

  /** Whatever follows, with no overflow and only quiet resets, keeps the addresses different. */
  ghost predicate SafeFrom(s: State) {
    forall steps: seq<Step> | QuietResets(s, steps) && NoOverflow(s, steps) :: PortsDistinct(Run(s, steps))
  }

  lemma {:induction false} NoResetIsQuiet(s: State, steps: seq<Step>)
    requires forall st | st in steps :: !st.ResetLock?
    ensures QuietResets(s, steps)
    decreases |steps|
  {
    if steps != [] {
      assert steps[0] in steps;
      NoResetIsQuiet(Apply(s, steps[0]), steps[1..]);
    }
  }

  /** With a node inside and the lock free, some run makes two addresses equal. */
  lemma UnsafeWhileInside(s: State, m: nat)
    requires s.lock.None? && Inside(s, m) && PortsDistinct(s)
    ensures !SafeFrom(s)
  {
    var k := MakeRoom(s);
    var t := Apply(s, Cleanup(k));
    assert At(t, m) == At(s, m);
    var n := FreshOne(t, 0);
    var o := FreshOne(t, n);
    var rest := Duplicating(t, m, n, o);
    var steps := [Cleanup(k)] + rest;
    One(s, Cleanup(k));
    RunConcat(s, [Cleanup(k)], rest);
    NoResetIsQuiet(s, steps);
  }

  /** Setting up the master again frees the lock. In any state that the steps above reach, that
      keeps the critical section exclusive, and keeps addresses different in all that follows,
      exactly when no node is in the critical section. */
  lemma ResetExactly(s: State)
    requires Inv(s) && PortsDistinct(s)
    ensures Exclusive(Apply(s, ResetLock)) <==> Quiet(s)
    ensures SafeFrom(Apply(s, ResetLock)) <==> Quiet(s)
  {
    var s' := Apply(s, ResetLock);
    assert forall n: nat :: At(s', n) == At(s, n);
    if Quiet(s) {
      StepKeeps(s, ResetLock);
      forall steps: seq<Step> | QuietResets(s', steps) && NoOverflow(s', steps) ensures PortsDistinct(Run(s', steps)) {
        RunDistinct(s', steps);
      }
    } else {
      var m: nat :| Inside(s, m);
      assert Inside(s', m);
      UnsafeWhileInside(s', m);
    }
  }

  lemma OnePort(s: State)
    requires s.ports == map[0 := BASE + 1]
    ensures Used(s) == {BASE + 1} && Pick(Used(s)) == BASE + 2 && !Exhausted(Used(s))
  {
    assert 0 in s.ports;
    assert BASE + 1 in Used(s) && BASE + 2 !in Used(s);
    assert Search(Used(s), BASE + 1) == BASE + 2;
  }

  lemma RunCons(s: State, st: Step, rest: seq<Step>)
    ensures Run(s, [st] + rest) == Run(Apply(s, st), rest)
  {
  }

  /** A reset in between lets two nodes pick the same address. */
  lemma ResetDuplicates()
    ensures var steps := [Lock(1)]
                         + ([ReadUsed(1, true)]
                            + ([ResetLock]
                               + ([Lock(2)] + ([ReadUsed(2, true)]
                                               + ([AddPort(1, true)] + ([AddPort(2, true)] + []))))));
            var s := Run(Start, steps);
            1 in s.ports && 2 in s.ports && s.ports[1] == s.ports[2]
  {
    var p, two := map[0 := BASE + 1], Picked(BASE + 2, false);
    var s1 := State(Some(1), p, map[1 := Locked]);
    var s2 := State(Some(1), p, map[1 := two]);
    var s3 := State(None, p, map[1 := two]);
    var s4 := State(Some(2), p, map[1 := two, 2 := Locked]);
    var s5 := State(Some(2), p, map[1 := two, 2 := two]);
    OnePort(s1);
    OnePort(s4);
    assert Apply(Start, Lock(1)) == s1 && Apply(s1, ReadUsed(1, true)) == s2 && Apply(s2, ResetLock) == s3;
    assert Apply(s3, Lock(2)) == s4 && Apply(s4, ReadUsed(2, true)) == s5;
    var r1 := [AddPort(2, true)] + [];
    var r2 := [AddPort(1, true)] + r1;
    var r3 := [ReadUsed(2, true)] + r2;
    var r4 := [Lock(2)] + r3;
    var r5 := [ResetLock] + r4;
    var r6 := [ReadUsed(1, true)] + r5;
    RunCons(Start, Lock(1), r6);
    RunCons(s1, ReadUsed(1, true), r5);
    RunCons(s2, ResetLock, r4);
    RunCons(s3, Lock(2), r3);
    RunCons(s4, ReadUsed(2, true), r2);
    RunCons(s5, AddPort(1, true), r1);
    RunCons(Apply(s5, AddPort(1, true)), AddPort(2, true), []);
  }

  // ------------------------------------------------------- contiguity

  predicate NoCleanup(steps: seq<Step>) { forall i | 0 <= i < |steps| :: !steps[i].Cleanup? }

  /** The addresses in use are the first k of the range; a picked one is the next. */
  ghost predicate Contiguous(s: State, k: nat) {
    && BASE + k <= LAST && (forall a: nat :: a in Used(s) <==> BASE < a <= BASE + k)
    && (forall n: nat | At(s, n).Picked? :: At(s, n).ip == BASE + k + 1)
  }

  lemma UsedAfterAdd(s: State, n: nat, ip: nat, a: nat)
    requires n !in s.ports
    ensures a in Used(s.(ports := s.ports[n := ip])) <==> a in Used(s) || a == ip
  {
    var ports' := s.ports[n := ip];
    assert n in ports' && ports'[n] == ip;
    if m :| m in s.ports && s.ports[m] == a {
      assert m in ports' && ports'[m] == a;
    }
  }

  lemma PickNext(s: State, k: nat)
    requires Contiguous(s, k) && BASE + k < LAST
    ensures !Exhausted(Used(s)) && Pick(Used(s)) == BASE + k + 1
  {
    PickIsLeastFree(Used(s));
    assert BASE + k + 1 !in Used(s);
    assert BASE < BASE + k + 1 <= LAST;
  }

  /** Without removals a step keeps the range contiguous, and only adding a port extends it. */
  lemma StepContiguous(s: State, st: Step, k: nat)
    requires Inv(s) && Contiguous(s, k) && BASE + k < LAST && !st.Cleanup?
    ensures var s' := Apply(s, st);
            var added := st.AddPort? && st.ok && At(s, st.n).Picked?;
            Contiguous(s', if added then k + 1 else k) && (added ==> s'.ports == s.ports[st.n := BASE + k + 1])
  {
    var s' := Apply(s, st);
    PickNext(s, k);
    if st.AddPort? && st.ok && At(s, st.n).Picked? {
      forall a: nat ensures a in Used(s') <==> BASE < a <= BASE + k + 1 {
        UsedAfterAdd(s, st.n, BASE + k + 1, a);
      }
      OnlyOne(s, st.n);
      assert At(s, st.n).ip == BASE + k + 1 && s'.ports == s.ports[st.n := BASE + k + 1];
      forall n: nat ensures !At(s', n).Picked? {
        assert n != st.n ==> At(s', n) == At(s, n);
      }
    } else {
      assert s'.ports == s.ports;
      assert Used(s') == Used(s);
      forall n | At(s', n).Picked? ensures At(s', n).ip == BASE + k + 1 {
        assert At(s', n) == At(s, n) || st == ReadUsed(n, true);
      }
    }
  }

  /** How many ports a run adds. */
  function Added(s: State, steps: seq<Step>): nat
    decreases |steps|
  {
    if steps == [] then 0
    else (if steps[0].AddPort? && steps[0].ok && At(s, steps[0].n).Picked? then 1 else 0)
         + Added(Apply(s, steps[0]), steps[1..])
  }

  lemma {:induction false} RunContiguous(s: State, steps: seq<Step>, k: nat)
    requires Inv(s) && Contiguous(s, k) && QuietResets(s, steps) && NoCleanup(steps)
             && BASE + k + Added(s, steps) < LAST
    ensures Contiguous(Run(s, steps), k + Added(s, steps))
    decreases |steps|
  {
    if steps != [] {
      StepKeeps(s, steps[0]);
      StepContiguous(s, steps[0], k);
      var k' := k + if steps[0].AddPort? && steps[0].ok && At(s, steps[0].n).Picked? then 1 else 0;
      RunContiguous(Apply(s, steps[0]), steps[1..], k');
    }
  }

  lemma StuckStep(s: State, st: Step)
    requires s.lock.Some? && Quiet(s) && st != ResetLock
    ensures var s' := Apply(s, st); Quiet(s') && s'.lock == s.lock && s'.ports.Keys <= s.ports.Keys
  {
    if st.Cleanup? {
      forall n: nat ensures !Inside(Apply(s, st), n) {
        assert !Inside(s, n);
      }
    } else {
      assert st.Lock? || !Inside(s, st.n);
      assert Apply(s, st) == s;
    }
  }

  lemma {:induction false} StuckRun(s: State, steps: seq<Step>)
    requires s.lock.Some? && Quiet(s) && ResetLock !in steps
    ensures var s' := Run(s, steps); Quiet(s') && s'.lock == s.lock && s'.ports.Keys <= s.ports.Keys
    decreases |steps|
  {
    if steps != [] {
      assert steps[0] in steps;
      StuckStep(s, steps[0]);
      StuckRun(Apply(s, steps[0]), steps[1..]);
    }
  }

  /** A node that crashes alone in the critical section leaves the lock behind: until the master is set
      up again no node gets in and none is given an address, whatever happens. */
  lemma CrashBlocksAll(s: State, n: nat, steps: seq<Step>)
    requires s.lock.Some? && Inside(s, n) && (forall k: nat | k != n :: !Inside(s, k)) && ResetLock !in steps
    ensures var s' := Run(Apply(s, Crash(n)), steps);
            Quiet(s') && s'.lock == s.lock && s'.ports.Keys <= s.ports.Keys
  {
    var c := Apply(s, Crash(n));
    forall k: nat ensures !Inside(c, k) {
      assert k != n ==> At(c, k) == At(s, k) && !Inside(s, k);
    }
    StuckRun(c, steps);
  }

  /** Without removals the addresses in use stay contiguous from 100.64.0.1 on, and the first
      gateway added gets 100.64.0.2, the next hop of the default route. */
  lemma AddressesContiguous(steps: seq<Step>, n: nat)
    requires QuietResets(Start, steps) && NoCleanup(steps) && 1 + Added(Start, steps) < 65535
    ensures var s := Run(Start, steps);
            && (forall a: nat :: a in Used(s) <==> BASE < a <= BASE + 1 + Added(Start, steps))
            && (Added(Start, steps) == 0 && At(s, n).Picked?
              ==> Apply(s, AddPort(n, true)).ports == s.ports[n := BASE + 2])
            && FourBytes(BASE + 2) == [100, 64, 0, 2]
  {
    StartOk();
    OnePort(Start);
    RunContiguous(Start, steps, 1);
    RunKeeps(Start, steps);
    var s := Run(Start, steps);
    if Added(Start, steps) == 0 && At(s, n).Picked? {
      StepContiguous(s, AddPort(n, true), 1);
    }
  }
}
