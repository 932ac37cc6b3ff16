/** The address map of a rule with one pod selector (handlePeerPodSelectorAddUpdate and
    handlePeerPodSelectorDelete in policy.go), fed by the calls its watch handler receives: when
    it equals the addresses of the annotated pods in the handler's view. */
module PeerAddresses {
  import opened Acl
  import opened WatchFactory

  function Ips(view: map<string, Obj>): set<nat> { set k | k in view && view[k].ip.Some? :: view[k].ip.value }

  function IpOf(o: Option<Obj>): set<nat> { if o.Some? && o.value.ip.Some? then {o.value.ip.value} else {} }

  /** One call: adds and updates add the new object's address, deletes remove the object's. */
  function AddressStep(f: Filter, addresses: set<nat>, c: Change): set<nat> {
    if Passes(f, c.new_) then addresses + IpOf(c.new_)
    else if Passes(f, c.old_) then addresses - IpOf(c.old_)
    else addresses
  }

  /** Some other pod in the view has the address. */
  predicate Shared(view: map<string, Obj>, key: string, ip: nat) {
    exists k | k in view && k != key :: view[k].ip == Some(ip)
  }

  /** The calls after which the map is wrong: an update that changes an address nobody else has
      (the old one stays), and a delete whose address another pod still has, or is not the one
      the view knows. */
  predicate Breaks(f: Filter, view: map<string, Obj>, c: Change) {
    if Passes(f, c.new_) then exists ip | ip in IpOf(At(view, c.key)) :: ip !in IpOf(c.new_) && !Shared(view, c.key, ip)
    else Passes(f, c.old_) && (|| (exists ip | ip in IpOf(c.old_) :: Shared(view, c.key, ip))
                               || (exists ip | ip in IpOf(At(view, c.key)) ::
                                     ip !in IpOf(c.old_) && !Shared(view, c.key, ip)))
  }

  lemma IpsWithout(view: map<string, Obj>, key: string, ip: nat)
    ensures ip in Ips(view - {key}) <==> Shared(view, key, ip)
    ensures ip in Ips(view) <==> ip in IpOf(At(view, key)) || Shared(view, key, ip)
  {
    if k :| k in view && k != key && view[k].ip == Some(ip) {
      assert k in view - {key};
    }
  }

  lemma IpsWith(view: map<string, Obj>, key: string, o: Obj, ip: nat)
    ensures ip in Ips(view[key := o]) <==> ip in IpOf(Some(o)) || Shared(view, key, ip)
  {
    var view' := view[key := o];
    assert key in view';
    if k :| k in view && k != key && view[k].ip == Some(ip) {
      assert k in view' && view'[k].ip == Some(ip);
    }
  }

  /** A call keeps the map exact if and only if it is not one of those. */
  lemma AddressStepExact(f: Filter, view: map<string, Obj>, c: Change)
    ensures AddressStep(f, Ips(view), c) == Ips(Deliver(f, view, c)) <==> !Breaks(f, view, c)
  {
    forall ip: nat
      ensures Passes(f, c.new_) ==> (ip in Ips(Deliver(f, view, c)) <==> ip in IpOf(c.new_) || Shared(view, c.key, ip))
      ensures !Passes(f, c.new_) && Passes(f, c.old_) ==> (ip in Ips(Deliver(f, view, c)) <==> Shared(view, c.key, ip))
      ensures ip in Ips(view) <==> ip in IpOf(At(view, c.key)) || Shared(view, c.key, ip)
    {
      IpsWithout(view, c.key, ip);
      if Passes(f, c.new_) {
        IpsWith(view, c.key, c.new_.value, ip);
      }
    }
    BreaksIsDifference(f, view, c, AddressStep(f, Ips(view), c), Ips(Deliver(f, view, c)));
  }

  lemma BreaksIsDifference(f: Filter, view: map<string, Obj>, c: Change, a: set<nat>, b: set<nat>)
    requires forall ip :: ip in b <==> if Passes(f, c.new_) then ip in IpOf(c.new_) || Shared(view, c.key, ip)
                                       else if Passes(f, c.old_) then Shared(view, c.key, ip)
                                       else ip in IpOf(At(view, c.key)) || Shared(view, c.key, ip)
    requires forall ip ::
               ip in a <==> if Passes(f, c.new_)
                            then ip in IpOf(c.new_) || ip in IpOf(At(view, c.key)) || Shared(view, c.key, ip)
                                       else if Passes(f, c.old_)
                                            then (ip in IpOf(At(view, c.key)) || Shared(view, c.key, ip))
                                            && ip !in IpOf(c.old_)
                                       else ip in IpOf(At(view, c.key)) || Shared(view, c.key, ip)
    ensures a == b <==> !Breaks(f, view, c)
  {
  }

  /** The map of a handler that has been given the changes up to `n`. */
  function Addresses(f: Filter, log: seq<Change>, snap: nat, reg: nat, n: nat): set<nat>
    requires snap <= |log| && reg <= n <= |log|
    decreases n
  {
    if n == reg then Ips(Filtered(f, Store(log, snap)))
    else AddressStep(f, Addresses(f, log, snap, reg, n - 1), log[n - 1])
  }

  /** Pods that pass the filter have addresses of their own, and keep the address they have. */
  ghost predicate UniqueIps(view: map<string, Obj>) {
    forall j, k | j in view && k in view && j != k && view[j].ip.Some? :: view[j].ip != view[k].ip
  }

  ghost predicate KeepsIp(c: Change) {
    c.old_.Some? && c.new_.Some? && c.old_.value.ip.Some? ==> c.new_.value.ip == c.old_.value.ip
  }

  lemma FilteredAt(f: Filter, m: map<string, Obj>, key: string)
    ensures At(Filtered(f, m), key) == Pass(f, At(m, key))
  {
  }

  /** The map agrees with the view as long as no call breaks it, whenever the handler took its
      snapshot and was registered. */
  lemma {:induction false} AddressesAreView(f: Filter, log: seq<Change>, snap: nat, reg: nat, n: nat)
    requires snap <= |log| && reg <= n <= |log|
    requires forall i: nat | reg <= i < n :: !Breaks(f, View(f, log, snap, reg, i), log[i])
    ensures Addresses(f, log, snap, reg, n) == Ips(View(f, log, snap, reg, n))
    decreases n
  {
    if n > reg {
      AddressesAreView(f, log, snap, reg, n - 1);
      AddressStepExact(f, View(f, log, snap, reg, n - 1), log[n - 1]);
    }
  }

  // ------------------------------------------------------- one address

  /** The object, if it passes the filter after n changes, has the address. */
  predicate Holds(f: Filter, log: seq<Change>, n: nat, key: string, ip: nat)
    requires n <= |log|
  {
    ip in IpOf(Pass(f, At(Store(log, n), key)))
  }

  lemma HeldIs(f: Filter, log: seq<Change>, n: nat, ip: nat)
    requires n <= |log|
    ensures ip in Ips(Filtered(f, Store(log, n))) <==> exists key :: Holds(f, log, n, key, ip)
  {
    var m := Filtered(f, Store(log, n));
    if ip in Ips(m) {
      var k :| k in m && m[k].ip == Some(ip);
      assert Holds(f, log, n, k, ip);
    }
    if key :| Holds(f, log, n, key, ip) {
      FilteredAt(f, Store(log, n), key);
      assert key in m;
    }
  }

  predicate Adds(f: Filter, c: Change, ip: nat) { Passes(f, c.new_) && ip in IpOf(c.new_) }

  predicate Removes(f: Filter, c: Change, ip: nat) { !Passes(f, c.new_) && Passes(f, c.old_) && ip in IpOf(c.old_) }

  /** Some call from `from` to `n` adds or removes the address. */
  ghost predicate IpTouched(f: Filter, log: seq<Change>, from: nat, n: nat, ip: nat) {
    exists i | from <= i < n && i < |log| :: Adds(f, log[i], ip) || Removes(f, log[i], ip)
  }

  /** The pods selected before the change have distinct addresses, and the change keeps them. */
  ghost predicate Stable(f: Filter, log: seq<Change>, i: nat) {
    i < |log| && KeepsIp(log[i]) && UniqueIps(Filtered(f, Store(log, i)))
  }

  /** What a change does to who holds an address. */
  lemma HoldsStep(f: Filter, log: seq<Change>, i: nat, key: string, ip: nat)
    requires LogOk(log) && i < |log| && KeepsIp(log[i])
    ensures Holds(f, log, i + 1, key, ip) <==>
            if key == log[i].key then Adds(f, log[i], ip) else Holds(f, log, i, key, ip)
    ensures key == log[i].key && !Adds(f, log[i], ip) && !Removes(f, log[i], ip) ==> !Holds(f, log, i, key, ip)
  {
    assert ChangeOk(log, i);
  }

  lemma OneHolder(f: Filter, log: seq<Change>, i: nat, j: string, k: string, ip: nat)
    requires i <= |log| && UniqueIps(Filtered(f, Store(log, i))) && Holds(f, log, i, j, ip) && Holds(f, log, i, k, ip)
    ensures j == k
  {
    FilteredAt(f, Store(log, i), j);
    FilteredAt(f, Store(log, i), k);
  }

  lemma TouchedSnoc(f: Filter, log: seq<Change>, from: nat, n: nat, ip: nat)
    requires from < n <= |log|
    ensures IpTouched(f, log, from, n, ip) <==>
            IpTouched(f, log, from, n - 1, ip) || Adds(f, log[n - 1], ip) || Removes(f, log[n - 1], ip)
  {
    if i :| from <= i < n && (Adds(f, log[i], ip) || Removes(f, log[i], ip)) {
      assert i == n - 1 || IpTouched(f, log, from, n - 1, ip);
    }
  }

  /** Nobody gains or loses an address no call was about. */
  lemma {:induction false} UntouchedIp(f: Filter, log: seq<Change>, from: nat, n: nat, key: string, ip: nat)
    requires LogOk(log) && from <= n <= |log| && !IpTouched(f, log, from, n, ip)
    requires forall i: nat | from <= i < n :: KeepsIp(log[i])
    ensures Holds(f, log, n, key, ip) <==> Holds(f, log, from, key, ip)
    decreases n
  {
    if n > from {
      TouchedSnoc(f, log, from, n, ip);
      UntouchedIp(f, log, from, n - 1, key, ip);
      HoldsStep(f, log, n - 1, key, ip);
    }
  }

  /** After a change that is about the address, some pod holds it exactly when the call added it. */
  lemma HeldAfterTouch(f: Filter, log: seq<Change>, i: nat, ip: nat)
    requires LogOk(log) && Stable(f, log, i) && (Adds(f, log[i], ip) || Removes(f, log[i], ip))
    ensures ip in Ips(Filtered(f, Store(log, i + 1))) <==> Adds(f, log[i], ip)
  {
    HeldIs(f, log, i + 1, ip);
    HoldsStep(f, log, i, log[i].key, ip);
    assert ChangeOk(log, i);
    if Removes(f, log[i], ip) {
      assert Holds(f, log, i, log[i].key, ip);
      var j := i + 1;
      forall k ensures !Holds(f, log, j, k, ip) {
        HoldsStep(f, log, i, k, ip);
        if Holds(f, log, i, k, ip) {
          OneHolder(f, log, i, k, log[i].key, ip);
        }
      }
    }
  }

  lemma HeldUnlessTouched(f: Filter, log: seq<Change>, from: nat, n: nat, ip: nat)
    requires LogOk(log) && from <= n <= |log| && !IpTouched(f, log, from, n, ip)
    requires forall i: nat | from <= i < n :: KeepsIp(log[i])
    ensures ip in Ips(Filtered(f, Store(log, n))) <==> ip in Ips(Filtered(f, Store(log, from)))
  {
    HeldIs(f, log, n, ip);
    HeldIs(f, log, from, ip);
    forall key ensures Holds(f, log, n, key, ip) <==> Holds(f, log, from, key, ip) {
      UntouchedIp(f, log, from, n, key, ip);
    }
  }

  /** Some pod that passes the filter after n changes has the address. */
  predicate InUse(f: Filter, log: seq<Change>, n: nat, ip: nat)
    requires n <= |log|
  {
    ip in Ips(Filtered(f, Store(log, n)))
  }

  lemma InUseStep(f: Filter, log: seq<Change>, i: nat, ip: nat)
    requires LogOk(log) && Stable(f, log, i)
    ensures InUse(f, log, i + 1, ip) <==> Adds(f, log[i], ip) || (InUse(f, log, i, ip) && !Removes(f, log[i], ip))
  {
    if Adds(f, log[i], ip) || Removes(f, log[i], ip) {
      HeldAfterTouch(f, log, i, ip);
    } else {
      NotNow(f, log, i + 1, ip);
      HeldUnlessTouched(f, log, i, i + 1, ip);
    }
  }

  lemma AddressStepOf(f: Filter, addresses: set<nat>, c: Change, ip: nat)
    ensures ip in AddressStep(f, addresses, c) <==> Adds(f, c, ip) || (ip in addresses && !Removes(f, c, ip))
  {
  }

  /** An address some call was about is in the map exactly when a selected pod has it now, any
      other exactly when one had it in the snapshot. */
  lemma {:induction false} AddressOfOne(f: Filter, log: seq<Change>, snap: nat, reg: nat, n: nat, ip: nat)
    requires LogOk(log) && snap <= |log| && reg <= n <= |log|
    requires forall i: nat | reg <= i < n :: Stable(f, log, i)
    ensures ip in Addresses(f, log, snap, reg, n)
        <==> InUse(f, log, if IpTouched(f, log, reg, n, ip) then n else snap, ip)
    decreases n
  {
    if n > reg {
      AddressOfOne(f, log, snap, reg, n - 1, ip);
      TouchedSnoc(f, log, reg, n, ip);
      AddressStepOf(f, Addresses(f, log, snap, reg, n - 1), log[n - 1], ip);
      InUseStep(f, log, n - 1, ip);
    }
  }

  lemma NotNow(f: Filter, log: seq<Change>, n: nat, ip: nat)
    requires 0 < n <= |log| && !Adds(f, log[n - 1], ip) && !Removes(f, log[n - 1], ip)
    ensures !IpTouched(f, log, n - 1, n, ip)
  {
  }

  // ------------------------------------------------------- all addresses

  /** Exactly when the map is right about an address: the handler was registered no later than its
      snapshot, or some later call was about the address, or the snapshot and the store at
      registration agree on it. */
  lemma AddressExact(f: Filter, log: seq<Change>, snap: nat, reg: nat, n: nat, ip: nat)
    requires LogOk(log) && snap <= n && reg <= n <= |log|
    requires forall i: nat | reg <= i < n :: Stable(f, log, i)
    ensures (ip in Addresses(f, log, snap, reg, n) <==> ip in Ips(Filtered(f, Store(log, n)))) <==>
            || reg <= snap || IpTouched(f, log, reg, n, ip)
            || (ip in Ips(Filtered(f, Store(log, snap))) <==> ip in Ips(Filtered(f, Store(log, reg))))
  {
    AddressOfOne(f, log, snap, reg, n, ip);
    if !IpTouched(f, log, reg, n, ip) {
      assert forall i: nat | reg <= i < n :: Stable(f, log, i) && KeepsIp(log[i]);
      HeldUnlessTouched(f, log, reg, n, ip);
      if reg <= snap {
        assert !IpTouched(f, log, snap, n, ip);
        HeldUnlessTouched(f, log, snap, n, ip);
      }
    }
  }

  /** Peer address maps are exact: for a handler whose snapshot is at least as new as its
      registration, and selected pods with distinct addresses that do not change, the map is the
      addresses of the annotated pods that pass the filter, once the dispatch has caught up with
      the snapshot. */
  lemma PeerAddressesExact(f: Filter, log: seq<Change>, snap: nat, reg: nat, n: nat)
    requires LogOk(log) && reg <= snap <= n <= |log|
    requires forall i: nat | reg <= i < n :: Stable(f, log, i)
    ensures Addresses(f, log, snap, reg, n) == Ips(Filtered(f, Store(log, n)))
  {
    forall ip: nat ensures ip in Addresses(f, log, snap, reg, n) <==> ip in Ips(Filtered(f, Store(log, n))) {
      AddressExact(f, log, snap, reg, n, ip);
    }
  }

  /** With events dispatched between snapshot and registration, every object they are not about is
      still served right: its address is in the map while it is selected, and an address of the
      map that no selected pod has comes from an object they are about. */
  lemma PeerAddressesPerObject(f: Filter, log: seq<Change>, snap: nat, reg: nat, n: nat, key: string, ip: nat)
    requires LogOk(log) && snap < reg <= n <= |log|
    requires forall i: nat | reg <= i < n :: Stable(f, log, i)
    ensures NoChange(log, snap, reg, key) && Holds(f, log, n, key, ip) ==> ip in Addresses(f, log, snap, reg, n)
    ensures ip in Addresses(f, log, snap, reg, n) && ip !in Ips(Filtered(f, Store(log, n))) ==>
            exists k :: Holds(f, log, snap, k, ip) && !NoChange(log, snap, reg, k)
  {
    AddressOfOne(f, log, snap, reg, n, ip);
    HeldIs(f, log, n, ip);
    HeldIs(f, log, snap, ip);
    if !IpTouched(f, log, reg, n, ip) {
      assert forall i: nat | reg <= i < n :: Stable(f, log, i) && KeepsIp(log[i]);
      forall k | NoChange(log, snap, reg, k) ensures Holds(f, log, n, k, ip) <==> Holds(f, log, snap, k, ip) {
        UntouchedIp(f, log, reg, n, k, ip);
        SameObject(log, snap, reg, k);
      }
    }
  }

  /** Before the dispatch has caught up the map may be wrong, even with unique live addresses: the
      snapshot already has pod q with the address that pod p gave up, and the delete of p, still
      to be dispatched, takes it out; the add of q puts it back. */
  lemma WrongUntilCaughtUp()
    ensures var p, q := Obj("ns", map[], Some(1)), Obj("ns", map[], Some(1));
            var log := [Change("p", None, Some(p)), Change("p", Some(p), None), Change("q", None, Some(q))];
            var all: Filter := _ => true;
            && LogOk(log) && (forall i: nat | 1 <= i < 3 :: Stable(all, log, i))
            && Ips(View(all, log, 3, 1, 2)) == {1} && Addresses(all, log, 3, 1, 2) == {}
            && Addresses(all, log, 3, 1, 3) == {1} == Ips(Filtered(all, Store(log, 3)))
  {
    var p := Obj("ns", map[], Some(1));
    var log := [Change("p", None, Some(p)), Change("p", Some(p), None), Change("q", None, Some(p))];
    var all: Filter := _ => true;
    assert Store(log, 1) == map["p" := p];
    assert Store(log, 2) == map[];
    assert Store(log, 3) == map["q" := p];
    assert ChangeOk(log, 0) && ChangeOk(log, 1) && ChangeOk(log, 2);
    var v := Filtered(all, Store(log, 3));
    assert v == map["q" := p] && "q" in v;
    assert Ips(v) == {1};
    assert "p"[0] != "q"[0];
    assert View(all, log, 3, 1, 1) == v && Addresses(all, log, 3, 1, 1) == {1};
    assert View(all, log, 3, 1, 2) == v;
    assert Addresses(all, log, 3, 1, 2) == {};
    assert Stable(all, log, 1) && Stable(all, log, 2);
  }
}
