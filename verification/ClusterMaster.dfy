/** Node subnets (master.go): the master hands every node a block from the first cluster network
    that has one left, takes it back when the node goes or its set-up fails, and marks the blocks
    of existing nodes when it starts. */
module ClusterMaster {
  import opened Acl
  import opened Arith
  import opened Net
  import opened SubnetAllocator

  // ------------------------------------------------------- blocks of disjoint networks

  lemma BlockInside(a: Alloc, c: Cidr, x: nat)
    requires Valid(a) && IsBlock(a, c) && InRange(c, x)
    ensures InRange(a.network, x)
  {
    NetworkSize(a);
    ContainsIsRange(a.network, c.ip);
    var o := BlockNumber(c.ip, a.network.ip, Pow2(a.hostBits), NumSubnets(a));
    DigitBound(o, NumSubnets(a), x - c.ip, Size(c));
  }

  ghost predicate AllocatorsOk(as_: seq<Alloc>) {
    && (forall i | 0 <= i < |as_| :: Valid(as_[i]))
    && (forall i, c | 0 <= i < |as_| && c in as_[i].used :: IsBlock(as_[i], c))
    && (forall i, j | 0 <= i < j < |as_| :: !Meet(as_[i].network, as_[j].network))
  }

  /** A block lies in one network only. */
  lemma OneNetwork(as_: seq<Alloc>, i: nat, j: nat, c: Cidr)
    requires AllocatorsOk(as_) && i < |as_| && j < |as_| && IsBlock(as_[i], c) && Contains(as_[j].network, c.ip)
    ensures i == j
  {
    ContainsIsRange(as_[i].network, c.ip);
    ContainsIsRange(as_[j].network, c.ip);
    if i != j {
      assert Meet(as_[i].network, as_[j].network) && Meet(as_[j].network, as_[i].network);
    }
  }

  ghost predicate UsedIn(as_: seq<Alloc>, i: nat, c: Cidr) { i < |as_| && c in as_[i].used }

  function Without(a: Alloc, c: Cidr): Alloc { a.(used := a.used - {c}) }

  /** Blocks in use are the same or disjoint, and in use in one allocator only. */
  lemma UsedDisjoint(as_: seq<Alloc>, i: nat, c: Cidr, j: nat, d: Cidr)
    requires AllocatorsOk(as_) && UsedIn(as_, i, c) && UsedIn(as_, j, d) && Meet(c, d)
    ensures i == j && c == d
  {
    var x: nat :| InRange(c, x) && InRange(d, x);
    BlockInside(as_[i], c, x);
    BlockInside(as_[j], d, x);
    if i != j {
      assert Meet(as_[i].network, as_[j].network) && Meet(as_[j].network, as_[i].network);
    }
    SameSizeDisjoint(c, d);
  }

  ghost predicate SomeoneHas(subnets: map<string, Cidr>, c: Cidr) { exists n | n in subnets :: subnets[n] == c }

  ghost predicate SomewhereUsed(as_: seq<Alloc>, c: Cidr) { exists i: nat :: UsedIn(as_, i, c) }

  /** Live nodes have different subnets, and the subnets in use are exactly theirs. */
  ghost predicate Consistent(as_: seq<Alloc>, subnets: map<string, Cidr>) {
    && AllocatorsOk(as_)
    && (forall m, n | m in subnets && n in subnets && m != n :: subnets[m] != subnets[n])
    && (forall c :: SomewhereUsed(as_, c) <==> SomeoneHas(subnets, c))
  }

  /** Node subnets are pairwise disjoint, and each is marked in exactly one allocator. */
  lemma SubnetsDisjoint(as_: seq<Alloc>, subnets: map<string, Cidr>, m: string, n: string)
    requires Consistent(as_, subnets) && m in subnets && n in subnets
    ensures m != n ==> !Meet(subnets[m], subnets[n])
    ensures exists i: nat :: UsedIn(as_, i, subnets[m]) && forall j: nat | UsedIn(as_, j, subnets[m]) :: j == i
  {
    assert SomeoneHas(subnets, subnets[m]) && SomeoneHas(subnets, subnets[n]);
    assert SomewhereUsed(as_, subnets[m]) && SomewhereUsed(as_, subnets[n]);
    var i: nat :| UsedIn(as_, i, subnets[m]);
    var j: nat :| UsedIn(as_, j, subnets[n]);
    if m != n && Meet(subnets[m], subnets[n]) {
      UsedDisjoint(as_, i, subnets[m], j, subnets[n]);
    }
    forall k: nat | UsedIn(as_, k, subnets[m]) ensures k == i {
      OneNetwork(as_, i, k, subnets[m]);
    }
  }

  // ------------------------------------------------------- existing subnets at start-up

  /** Marking an existing subnet protects it exactly when it is one of the allocator's blocks: a
      subnet of another length is remembered under a name that is never handed out, and some
      block that will be handed out overlaps it. */
  lemma MarkProtects(a: Alloc, c: Cidr)
    requires Valid(a) && Canonical(c) && Contains(a.network, c.ip)
    ensures (forall b | IsBlock(a, b) && b != c :: !Meet(b, c)) <==> c.prefix == 32 - a.hostBits
  {
    if c.prefix == 32 - a.hostBits {
      forall b | IsBlock(a, b) && Meet(b, c) ensures b == c {
        SameSizeDisjoint(b, c);
      }
    } else {
      var b := EnclosingBlock(a, c.ip);
      assert InRange(b, c.ip) && InRange(c, c.ip);
      assert Meet(b, c) && b != c;
    }
  }

  /** The block an address of the network lies in. */
  lemma EnclosingBlock(a: Alloc, x: nat) returns (b: Cidr)
    requires Valid(a) && Contains(a.network, x) && x < MAX_IPV4
    ensures IsBlock(a, b) && InRange(b, x)
  {
    var h := Pow2(a.hostBits);
    NetworkSize(a);
    ContainsIsRange(a.network, x);
    DivMod(x, h);
    DivNat(x, h);
    DivMod(a.network.ip, h);
    b := Cidr(x / h * h, 32 - a.hostBits);
    DivUnique(b.ip, h, x / h, 0);
    MulAdd(a.network.ip / h - x / h, x / h, h);
    MulSize(a.network.ip / h - x / h, h);
    ContainsIsRange(a.network, b.ip);
  }

  /** Starting from annotations that are distinct blocks of the cluster networks, the allocators
      Start builds agree with the nodes. */
  lemma StartedConsistent(nets: seq<ClusterNet>, as_: seq<Alloc>, subnets: map<string, Cidr>)
    requires |as_| == |nets| && forall i | 0 <= i < |nets| ::
               && Valid(as_[i]) && as_[i].network == nets[i].cidr && as_[i].hostBits == 32 - nets[i].hostSubnetLength
               && as_[i].used == set c | c in subnets.Values && Contains(nets[i].cidr, c.ip)
    requires forall i, j | 0 <= i < j < |nets| :: !Meet(nets[i].cidr, nets[j].cidr)
    requires forall n | n in subnets :: Canonical(subnets[n])
    requires forall n | n in subnets :: exists i | 0 <= i < |nets| :: Contains(nets[i].cidr, subnets[n].ip)
    requires forall n, i | n in subnets && 0 <= i < |nets| && Contains(nets[i].cidr, subnets[n].ip) ::
               subnets[n].prefix == nets[i].hostSubnetLength
    requires forall m, n | m in subnets && n in subnets && m != n :: subnets[m] != subnets[n]
    ensures Consistent(as_, subnets)
  {
    forall c ensures SomewhereUsed(as_, c) <==> SomeoneHas(subnets, c) {
      if i: nat :| UsedIn(as_, i, c) {
        var n :| n in subnets && subnets[n] == c;
      }
      if n :| n in subnets && subnets[n] == c {
        var i :| 0 <= i < |nets| && Contains(nets[i].cidr, subnets[n].ip);
        assert UsedIn(as_, i, c);
      }
    }
  }

  // ------------------------------------------------------- switches of nodes that are gone

  /** A logical switch of the database with the subnet it is configured with, if that parses. */
  datatype Switch = Switch(name: string, subnet: Option<Cidr>)

  ghost predicate IsStale(found: set<string>, s: Switch, c: Cidr) { s.name !in found && s.subnet == Some(c) }

  /** Some switch whose node is gone has this subnet. */
  ghost predicate Stale(found: set<string>, switches: seq<Switch>, c: Cidr) {
    exists s | s in switches :: IsStale(found, s, c)
  }

  lemma StaleSnoc(found: set<string>, switches: seq<Switch>, k: nat, c: Cidr)
    requires k < |switches|
    ensures Stale(found, switches[..k + 1], c) <==> Stale(found, switches[..k], c) || IsStale(found, switches[k], c)
  {
    assert switches[..k + 1] == switches[..k] + [switches[k]];
    if Stale(found, switches[..k], c) {
      var s :| s in switches[..k] && IsStale(found, s, c);
      assert s in switches[..k + 1];
    }
    if IsStale(found, switches[k], c) {
      assert switches[k] in switches[..k + 1];
    }
  }

  lemma ReleasedUse(before: seq<Alloc>, owner: nat, c: Cidr, after: seq<Alloc>)
    requires AllocatorsOk(before) && UsedIn(before, owner, c)
    requires after == before[owner := Without(before[owner], c)]
    ensures AllocatorsOk(after) && forall i: nat, d :: UsedIn(after, i, d) <==> UsedIn(before, i, d) && d != c
  {
    forall i: nat, d ensures UsedIn(after, i, d) <==> UsedIn(before, i, d) && d != c {
      if UsedIn(before, i, c) {
        OneNetwork(before, owner, i, c);
      }
    }
    forall i, d | 0 <= i < |after| && d in after[i].used ensures IsBlock(after[i], d) {
      assert IsBlock(before[i], d);
    }
  }

  /** Releasing the subnets of stale switches keeps the allocators in agreement with the nodes
      exactly when no live node has such a subnet. */
  lemma SyncedConsistent(before: seq<Alloc>, after: seq<Alloc>, subnets: map<string, Cidr>,
                         found: set<string>, switches: seq<Switch>)
    requires Consistent(before, subnets) && AllocatorsOk(after)
    requires forall i: nat, c :: UsedIn(after, i, c) <==> UsedIn(before, i, c) && !Stale(found, switches, c)
    ensures Consistent(after, subnets) <==> forall n | n in subnets :: !Stale(found, switches, subnets[n])
  {
    forall c ensures SomewhereUsed(after, c) <==> SomeoneHas(subnets, c) && !Stale(found, switches, c) {
      if i: nat :| UsedIn(after, i, c) {
        assert UsedIn(before, i, c);
        assert SomewhereUsed(before, c);
      }
      if SomeoneHas(subnets, c) && !Stale(found, switches, c) {
        assert SomewhereUsed(before, c);
        var i: nat :| UsedIn(before, i, c);
        assert UsedIn(after, i, c);
      }
    }
    if Consistent(after, subnets) {
      forall n | n in subnets ensures !Stale(found, switches, subnets[n]) {
        assert SomeoneHas(subnets, subnets[n]);
      }
    }
  }

  datatype NodeEvent = NodeAdd(name: string, setUp: bool) | NodeDelete(name: string)

  // ------------------------------------------------------- the master

  class Master {
    var allocators: seq<Alloc>
    /** The host-subnet annotations of the live nodes. */
    var subnets: map<string, Cidr>

    ghost predicate Ok()
      reads this
    {
      Consistent(allocators, subnets)
    }

    /** The annotated subnets whose first address lies in an entry's network. */
    method Subrange(network: Cidr, annotated: seq<Cidr>) returns (r: seq<Cidr>)
      ensures forall c :: c in r <==> c in annotated && Contains(network, c.ip)
    {
      r := [];
      var i := 0;
      while i < |annotated|
        invariant 0 <= i <= |annotated| && forall c :: c in r <==> c in annotated[..i] && Contains(network, c.ip)
      {
        assert annotated[..i + 1] == annotated[..i] + [annotated[i]];
        if Contains(network, annotated[i].ip) {
          r := r + [annotated[i]];
        }
        i := i + 1;
      }
      assert annotated[..i] == annotated;
    }

    /** StartClusterMaster: one allocator per cluster network, with the existing subnets in it
        marked. A host subnet length above 32 wraps around and is refused like a short one. */
    method Start(nets: seq<ClusterNet>, annotated: seq<Cidr>) returns (ok: bool)
      requires forall i | 0 <= i < |nets| :: Canonical(nets[i].cidr)
      modifies this
      ensures subnets == old(subnets)
      ensures ok <==> forall i | 0 <= i < |nets| :: nets[i].cidr.prefix <= nets[i].hostSubnetLength < 32
      ensures ok ==> |allocators| == |nets| && forall i | 0 <= i < |nets| ::
                && Valid(allocators[i]) && allocators[i].network == nets[i].cidr
                && allocators[i].hostBits == 32 - nets[i].hostSubnetLength
                && allocators[i].used == set c | c in annotated && Contains(nets[i].cidr, c.ip)
    {
      var list: seq<Alloc> := [];
      var i := 0;
      while i < |nets|
        invariant 0 <= i <= |nets| == |nets| && |list| == i && subnets == old(subnets)
        invariant forall j | 0 <= j < i :: nets[j].cidr.prefix <= nets[j].hostSubnetLength < 32
        invariant forall j | 0 <= j < i ::
                    && Valid(list[j]) && list[j].network == nets[j].cidr
                    && list[j].hostBits == 32 - nets[j].hostSubnetLength
                    && list[j].used == set c | c in annotated && Contains(nets[j].cidr, c.ip)
      {
        if nets[i].hostSubnetLength > 32 {
          return false;
        }
        var subrange := Subrange(nets[i].cidr, annotated);
        var a := NewSubnetAllocator(nets[i].cidr, 32 - nets[i].hostSubnetLength, subrange);
        if a.None? {
          return false;
        }
        assert a.value.used == set c | c in annotated && Contains(nets[i].cidr, c.ip);
        list := list + [a.value];
        i := i + 1;
      }
      allocators := list;
      return true;
    }

    /** The new-subnet loop of ensureNodeHostSubnet: the first allocator with a free block. Full
        allocators on the way only have their search position reset. */
    method Allocate() returns (r: Option<Cidr>, owner: nat)
      requires Ok()
      modifies this
      ensures subnets == old(subnets) && |allocators| == |old(allocators)| && AllocatorsOk(allocators)
      ensures r.None? <==> forall i | 0 <= i < |old(allocators)| :: Full(old(allocators)[i])
      ensures r.None? ==> SameUse(old(allocators), allocators)
      ensures r.Some? ==> owner < |allocators| && IsBlock(old(allocators)[owner], r.value)
                          && !SomewhereUsed(old(allocators), r.value)
                          && UsesMore(old(allocators), allocators, owner, r.value)
    {
      owner := 0;
      while owner < |allocators|
        invariant 0 <= owner <= |allocators| == |old(allocators)| && subnets == old(subnets)
        invariant SameUse(old(allocators), allocators)
        invariant forall i | 0 <= i < owner :: Full(old(allocators)[i])
      {
        SameUseOk(old(allocators), allocators);
        var before := allocators[owner];
        var c, a := GetNetwork(before);
        assert Full(before) <==> Full(old(allocators)[owner]);
        if c.Some? {
          UseOneMore(old(allocators), allocators, owner, a, c.value);
          allocators := allocators[owner := a];
          return c, owner;
        }
        allocators := allocators[owner := a];
        owner := owner + 1;
      }
      SameUseOk(old(allocators), allocators);
      return None, 0;
    }

    /** addNode: `setUp` says whether creating the logical network and setting the annotation
        both succeed. A node that already has a subnet keeps it. */
    method AddNode(name: string, setUp: bool) returns (ok: bool)
      requires Ok()
      modifies this
      ensures Ok()
      ensures ok <==> setUp
                      && (name in old(subnets) || exists i | 0 <= i < |old(allocators)| :: !Full(old(allocators)[i]))
      ensures if ok && name !in old(subnets)
              then subnets.Keys == old(subnets).Keys + {name} && subnets == old(subnets)[name := subnets[name]]
              else subnets == old(subnets) && SameUse(old(allocators), allocators)
    {
      SameUseRefl(allocators);
      if name in subnets {
        return setUp;
      }
      var c, owner := Allocate();
      if c.None? {
        SameUseConsistent(old(allocators), allocators, subnets);
        return false;
      }
      if !setUp {
        var done, a := ReleaseNetwork(allocators[owner], c.value);
        ReleaseUndoes(old(allocators), allocators, owner, c.value);
        allocators := allocators[owner := a];
        SameUseConsistent(old(allocators), allocators, subnets);
        return false;
      }
      AddedConsistent(old(allocators), allocators, owner, c.value, subnets, name);
      subnets := subnets[name := c.value];
      return true;
    }

    /** deleteNodeHostSubnet: released by the one allocator that has it. */
    method ReleaseFirst(c: Cidr) returns (ok: bool, ghost owner: nat)
      requires AllocatorsOk(allocators)
      modifies this`allocators
      ensures ok <==> SomewhereUsed(old(allocators), c)
      ensures ok ==> UsedIn(old(allocators), owner, c)
                     && allocators == old(allocators)[owner := Without(old(allocators)[owner], c)]
      ensures !ok ==> allocators == old(allocators)
    {
      var i := 0;
      while i < |allocators|
        invariant 0 <= i <= |allocators| && allocators == old(allocators)
        invariant forall j: nat | j < i :: !UsedIn(allocators, j, c)
      {
        var done, a := ReleaseNetwork(allocators[i], c);
        if done {
          allocators := allocators[i := a];
          owner := i;
          assert UsedIn(old(allocators), i, c);
          return true, i;
        }
        assert UsedIn(allocators, i, c) ==> IsBlock(allocators[i], c);
        i := i + 1;
      }
      return false, 0;
    }

    /** syncNodes: after start-up the subnet of every switch whose node is gone is released,
        whether or not the block is marked for somebody else. */
    method SyncNodes(found: set<string>, switches: seq<Switch>)
      requires Ok()
      modifies this`allocators
      ensures AllocatorsOk(allocators) && |allocators| == |old(allocators)|
      ensures forall i: nat, c :: UsedIn(allocators, i, c)
                <==> UsedIn(old(allocators), i, c) && !Stale(found, switches, c)
      ensures Ok() <==> forall n | n in subnets :: !Stale(found, switches, subnets[n])
    {
      var k := 0;
      while k < |switches|
        invariant 0 <= k <= |switches| && AllocatorsOk(allocators) && |allocators| == |old(allocators)|
        invariant forall i: nat, c :: UsedIn(allocators, i, c)
                    <==> UsedIn(old(allocators), i, c) && !Stale(found, switches[..k], c)
      {
        ghost var before := allocators;
        if switches[k].name !in found && switches[k].subnet.Some? {
          var ok, owner := ReleaseFirst(switches[k].subnet.value);
          if ok {
            ReleasedUse(before, owner, switches[k].subnet.value, allocators);
          } else {
            assert forall i: nat ::
                     UsedIn(before, i, switches[k].subnet.value) ==> SomewhereUsed(before, switches[k].subnet.value);
          }
        }
        forall i: nat, c
          ensures UsedIn(allocators, i, c) <==> UsedIn(old(allocators), i, c) && !Stale(found, switches[..k + 1], c)
        {
          StaleSnoc(found, switches, k, c);
          assert UsedIn(allocators, i, c) <==> UsedIn(before, i, c) && !IsStale(found, switches[k], c);
        }
        k := k + 1;
      }
      assert switches[..k] == switches;
      SyncedConsistent(old(allocators), allocators, subnets, found, switches);
    }

    /** deleteNode: the node's subnet becomes free again, and only that. */
    method DeleteNode(name: string)
      requires Ok()
      modifies this
      ensures Ok() && subnets == old(subnets) - {name} && |allocators| == |old(allocators)|
      ensures forall i: nat, c ::
                UsedIn(allocators, i, c)
                <==> UsedIn(old(allocators), i, c) && !(name in old(subnets) && c == old(subnets)[name])
    {
      if name in subnets {
        var c := subnets[name];
        assert SomeoneHas(subnets, c);
        var ok, owner := ReleaseFirst(c);
        DeletedConsistent(old(allocators), allocators, owner, c, subnets, name);
      } else {
        assert subnets - {name} == subnets;
      }
      subnets := subnets - {name};
    }

    /** Every run of node adds, failed adds and deletes keeps the nodes' subnets disjoint and
        marked in exactly one allocator. */
    method Run(events: seq<NodeEvent>)
      requires Ok()
      modifies this
      ensures Ok()
      ensures forall m, n | m in subnets && n in subnets && m != n :: !Meet(subnets[m], subnets[n])
      ensures forall n | n in subnets ::
                exists i: nat ::
                  UsedIn(allocators, i, subnets[n]) && forall j: nat | UsedIn(allocators, j, subnets[n]) :: j == i
    {
      var k := 0;
      while k < |events|
        invariant 0 <= k <= |events| && Ok()
      {
        match events[k] {
          case NodeAdd(name, setUp) => var _ := AddNode(name, setUp);
          case NodeDelete(name) => DeleteNode(name);
        }
        k := k + 1;
      }
      forall m, n | m in subnets && n in subnets
        ensures m != n ==> !Meet(subnets[m], subnets[n])
        ensures exists i: nat ::
                  UsedIn(allocators, i, subnets[m]) && forall j: nat | UsedIn(allocators, j, subnets[m]) :: j == i
      {
        SubnetsDisjoint(allocators, subnets, m, n);
      }
    }
  }

  // ------------------------------------------------------- what the loops do to the sets in use

  /** The same blocks are in use; only search positions may differ. */
  ghost predicate SameUse(before: seq<Alloc>, after: seq<Alloc>) {
    && |before| == |after|
    && forall i | 0 <= i < |before| ::
         after[i].network == before[i].network && after[i].hostBits == before[i].hostBits
         && after[i].used == before[i].used
  }

  ghost predicate UsesMore(before: seq<Alloc>, after: seq<Alloc>, owner: nat, c: Cidr) {
    && owner < |before| == |after|
    && forall i | 0 <= i < |before| :: after[i].network == before[i].network && after[i].hostBits == before[i].hostBits
         && after[i].used == if i == owner then before[i].used + {c} else before[i].used
  }

  lemma SameUseRefl(as_: seq<Alloc>)
    ensures SameUse(as_, as_)
  {
  }

  lemma SameUseOk(before: seq<Alloc>, after: seq<Alloc>)
    requires AllocatorsOk(before) && SameUse(before, after)
    ensures AllocatorsOk(after)
  {
  }

  lemma UseOneMore(before: seq<Alloc>, now: seq<Alloc>, owner: nat, a: Alloc, c: Cidr)
    requires AllocatorsOk(before) && SameUse(before, now) && owner < |now| && IsBlock(before[owner], c)
             && c !in before[owner].used
    requires a.network == now[owner].network && a.hostBits == now[owner].hostBits && a.used == now[owner].used + {c}
    ensures AllocatorsOk(now[owner := a]) && UsesMore(before, now[owner := a], owner, c) && !SomewhereUsed(before, c)
  {
    var after := now[owner := a];
    forall i, d | 0 <= i < |after| && d in after[i].used ensures IsBlock(after[i], d) {
      assert d in before[i].used ==> IsBlock(before[i], d);
    }
    if i: nat :| UsedIn(before, i, c) {
      OneNetwork(before, owner, i, c);
    }
  }

  lemma SameUseConsistent(before: seq<Alloc>, after: seq<Alloc>, subnets: map<string, Cidr>)
    requires Consistent(before, subnets) && SameUse(before, after)
    ensures Consistent(after, subnets)
  {
    SameUseOk(before, after);
    forall c ensures SomewhereUsed(after, c) <==> SomewhereUsed(before, c) {
      if i: nat :| UsedIn(after, i, c) {
        assert UsedIn(before, i, c);
      }
      if i: nat :| UsedIn(before, i, c) {
        assert UsedIn(after, i, c);
      }
    }
  }

  lemma ReleaseUndoes(before: seq<Alloc>, now: seq<Alloc>, owner: nat, c: Cidr)
    requires UsesMore(before, now, owner, c) && !SomewhereUsed(before, c)
    ensures SameUse(before, now[owner := Without(now[owner], c)])
  {
    assert !UsedIn(before, owner, c);
    assert before[owner].used + {c} - {c} == before[owner].used;
  }

  lemma AddedConsistent(before: seq<Alloc>, after: seq<Alloc>, owner: nat, c: Cidr, subnets: map<string, Cidr>,
                        name: string)
    requires Consistent(before, subnets) && AllocatorsOk(after) && UsesMore(before, after, owner, c)
             && !SomewhereUsed(before, c) && name !in subnets
    ensures Consistent(after, subnets[name := c])
  {
    var subnets' := subnets[name := c];
    forall n | n in subnets ensures subnets[n] != c {
      assert SomeoneHas(subnets, subnets[n]);
    }
    forall d ensures SomewhereUsed(after, d) <==> SomeoneHas(subnets', d) {
      if i: nat :| UsedIn(after, i, d) {
        assert d == c || UsedIn(before, i, d);
        if d == c {
          assert subnets'[name] == d;
        } else {
          assert SomewhereUsed(before, d);
          var n :| n in subnets && subnets[n] == d;
          assert subnets'[n] == d;
        }
      }
      if n :| n in subnets' && subnets'[n] == d {
        if n == name {
          assert UsedIn(after, owner, d);
        } else {
          assert SomeoneHas(subnets, d) && SomewhereUsed(before, d);
          var i: nat :| UsedIn(before, i, d);
          assert UsedIn(after, i, d);
        }
      }
    }
  }

  lemma DeletedConsistent(before: seq<Alloc>, after: seq<Alloc>, owner: nat, c: Cidr, subnets: map<string, Cidr>,
                          name: string)
    requires Consistent(before, subnets) && name in subnets && subnets[name] == c && UsedIn(before, owner, c)
    requires after == before[owner := Without(before[owner], c)]
    ensures Consistent(after, subnets - {name})
    ensures forall i: nat, d :: UsedIn(after, i, d) <==> UsedIn(before, i, d) && d != c
  {
    ReleasedUse(before, owner, c, after);
    var subnets' := subnets - {name};
    forall d ensures SomewhereUsed(after, d) <==> SomeoneHas(subnets', d) {
      if i: nat :| UsedIn(after, i, d) {
        assert UsedIn(before, i, d);
        assert SomewhereUsed(before, d);
        var n :| n in subnets && subnets[n] == d;
        assert n in subnets' && subnets'[n] == d;
      }
      if n :| n in subnets' && subnets'[n] == d {
        assert SomeoneHas(subnets, d) && SomewhereUsed(before, d);
        var i: nat :| UsedIn(before, i, d);
        assert UsedIn(after, i, d);
      }
    }
  }
}
