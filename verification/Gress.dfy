/** One ingress or egress rule of a policy: its sorted peer list, the match printed from it and
    the in-place edits of that list (policy_common.go). */
module Gress {
  import opened Strings
  import opened Acl
  import opened MatchReader

  datatype PortPolicy = PortPolicy(protocol: string, port: nat)

  /** None stands for the error returned on an unknown protocol. */
  function GetL4Match(pp: PortPolicy): Option<L4Match> {
    if pp.protocol == "TCP" then Some(TcpDst(pp.port))
    else if pp.protocol == "UDP" then Some(UdpDst(pp.port))
    else None
  }

  datatype IPBlock = IPBlock(cidr: string, except: seq<string>)

  /** A rule as the controller holds it. */
  datatype Rule = Rule(peers: seq<string>, ports: seq<PortPolicy>, cidr: string, except: seq<string>)

  /** The port clauses a rule gets ACLs for; unknown protocols get none. */
  function L4Matches(ports: seq<PortPolicy>): seq<L4Match> {
    if ports == [] then [NoneMatch] else KnownL4(ports)
  }

  function KnownL4(ports: seq<PortPolicy>): seq<L4Match> {
    if ports == [] then []
    else match GetL4Match(ports[0])
         case None => KnownL4(ports[1..])
         case Some(l4) => [l4] + KnownL4(ports[1..])
  }

  /** What a rule's port list means for a packet: no list allows everything, a TCP or UDP entry the
      packets of that protocol to that port, and an entry of another protocol nothing. */
  predicate PortsAllow(ports: seq<PortPolicy>, l4: L4Match) {
    || ports == []
    || (l4.TcpDst? && PortPolicy("TCP", l4.port) in ports)
    || (l4.UdpDst? && PortPolicy("UDP", l4.port) in ports)
  }

  /** A packet satisfies one of the printed port clauses exactly when the port list allows it. */
  lemma {:induction false} L4MatchesMeaning(ports: seq<PortPolicy>, l4: L4Match)
    ensures NoneMatch in L4Matches(ports) || l4 in L4Matches(ports) <==> PortsAllow(ports, l4)
  {
    if ports != [] {
      KnownL4Elements(ports, l4);
      KnownL4Elements(ports, NoneMatch);
      if pp :| pp in ports && GetL4Match(pp) == Some(l4) {
        assert pp == PortPolicy(if l4.TcpDst? then "TCP" else "UDP", l4.port);
      }
    }
  }

  lemma {:induction false} KnownL4Elements(ports: seq<PortPolicy>, l4: L4Match)
    ensures l4 in KnownL4(ports) <==> exists pp | pp in ports :: GetL4Match(pp) == Some(l4)
  {
    if ports != [] {
      KnownL4Elements(ports[1..], l4);
      assert forall pp :: pp in ports <==> pp == ports[0] || pp in ports[1..];
    }
  }

  function PeersL3(peers: seq<string>): L3Match {
    if peers == [] then Ip4 else AddressSets(peers)
  }

  /** Read as a clause, the text holds of the packets whose peer, the source of ingress and the
      destination of egress packets, is in one of the sets, and of all when there are none. */
  ghost predicate PeersRead(dir: Direction, peers: seq<string>, text: string) {
    (forall n | n in peers :: PlainName(n)) ==>
      forall pkt: Packet, env: Env ::
        ClauseHolds(text, pkt, env) <==>
        peers == [] || InSomeSet(peers, if dir == Ingress then pkt.src else pkt.dst, env)
  }

  lemma PeersTextReads(dir: Direction, peers: seq<string>)
    ensures PeersRead(dir, peers, L3Text(dir, PeersL3(peers)))
  {
    if forall n | n in peers :: PlainName(n) {
      var m := AclMatch(dir, PeersL3(peers), NoneMatch, GroupPort(""));
      forall pkt: Packet, env: Env
        ensures ClauseHolds(L3Text(dir, m.l3), pkt, env) <==>
                peers == [] || InSomeSet(peers, if dir == Ingress then pkt.src else pkt.dst, env)
      {
        L3Reads(m, pkt, env);
      }
    }
  }

  /** Position of x in a strictly sorted list after insertion: sort.Strings of the appended list. */
  function Insert(s: seq<string>, x: string): (r: seq<string>)
    requires StrictlySorted(s) && x !in s
    ensures StrictlySorted(r) && Elements(r) == Elements(s) + {x}
  {
    if s == [] then [x]
    else
      LessTotal(x, s[0]);
      assert Elements(s) == {s[0]} + Elements(s[1..]);
      if Less(x, s[0]) then
        InsertFront(s, x);
        [x] + s
      else
        var t := Insert(s[1..], x);
        InsertBehind(s, x, t);
        [s[0]] + t
  }

  lemma InsertFront(s: seq<string>, x: string)
    requires StrictlySorted(s) && s != [] && Less(x, s[0])
    ensures StrictlySorted([x] + s) && Elements([x] + s) == Elements(s) + {x}
  {
    forall i | 0 < i < |s| ensures Less(x, s[i]) { LessTransitive(x, s[0], s[i]); }
  }

  lemma InsertBehind(s: seq<string>, x: string, t: seq<string>)
    requires StrictlySorted(s) && s != [] && Less(s[0], x)
    requires StrictlySorted(t) && Elements(t) == Elements(s[1..]) + {x}
    ensures StrictlySorted([s[0]] + t) && Elements([s[0]] + t) == Elements(s) + {x}
  {
    forall i | 0 <= i < |t| ensures Less(s[0], t[i]) {
      assert t[i] in Elements(t);
    }
    assert Elements([s[0]] + t) == {s[0]} + Elements(t);
    assert Elements(s) == {s[0]} + Elements(s[1..]);
  }

  function Remove(s: seq<string>, x: string): seq<string> {
    if s == [] then [] else if s[0] == x then s[1..] else [s[0]] + Remove(s[1..], x)
  }

  lemma {:induction false} RemoveAt(s: seq<string>, i: nat, x: string)
    requires i < |s| && s[i] == x && x !in s[..i]
    ensures Remove(s, x) == s[..i] + s[i + 1..]
  {
    if i > 0 {
      assert s[0] in s[..i] && s[1..][..i - 1] == s[..i][1..];
      RemoveAt(s[1..], i - 1, x);
    }
  }

  lemma {:induction false} RemoveSorted(s: seq<string>, x: string)
    requires StrictlySorted(s)
    ensures StrictlySorted(Remove(s, x)) && Elements(Remove(s, x)) == Elements(s) - {x}
  {
    if s != [] {
      TailElements(s);
      RemoveSorted(s[1..], x);
      if s[0] != x {
        var r := Remove(s[1..], x);
        forall i | 0 <= i < |r| ensures Less(s[0], r[i]) {
          assert r[i] in Elements(r);
        }
        assert Elements([s[0]] + r) == {s[0]} + Elements(r);
      }
    }
  }

  /** gressPolicy. The peer map and the sorted list are kept as the two separate fields they are. */
  class GressPolicy {
    const policyType: Direction
    const idx: nat
    var peerAddressSets: set<string>
    var sortedPeerAddressSets: seq<string>
    var portPolicies: seq<PortPolicy>
    var ipBlockCidr: string
    var ipBlockExcept: seq<string>

    /** The list is strictly sorted and holds exactly the keys of the map. */
    ghost predicate Valid()
      reads this
    {
      && StrictlySorted(sortedPeerAddressSets)
      && Elements(sortedPeerAddressSets) == peerAddressSets
    }

    ghost function View(): Rule
      reads this
    {
      Rule(sortedPeerAddressSets, portPolicies, ipBlockCidr, ipBlockExcept)
    }

    constructor (policyType: Direction, idx: nat)
      ensures Valid() && View() == Rule([], [], "", [])
      ensures this.policyType == policyType && this.idx == idx
    {
      this.policyType := policyType;
      this.idx := idx;
      peerAddressSets := {};
      sortedPeerAddressSets := [];
      portPolicies := [];
      ipBlockCidr := "";
      ipBlockExcept := [];
    }

    method AddPortPolicy(pp: PortPolicy)
      requires Valid()
      modifies this
      ensures Valid() && View() == old(View()).(ports := old(portPolicies) + [pp])
    {
      portPolicies := portPolicies + [pp];
    }

    /** A second block replaces the first. */
    method AddIPBlock(block: IPBlock)
      requires Valid()
      modifies this
      ensures Valid() && View() == old(View()).(cidr := block.cidr, except := block.except)
    {
      ipBlockCidr := block.cidr;
      ipBlockExcept := block.except;
    }

    /** The printed text is the text of the peers' match, "ip4" exactly when there are none. */
    method GetL3MatchFromAddressSet() returns (text: string)
      ensures text == L3Text(policyType, PeersL3(sortedPeerAddressSets))
      ensures text == "ip4" <==> sortedPeerAddressSets == []
      ensures PeersRead(policyType, sortedPeerAddressSets, text)
    {
      var addresses := "";
      var i := 0;
      while i < |sortedPeerAddressSets|
        invariant 0 <= i <= |sortedPeerAddressSets|
        invariant addresses == JoinSets(sortedPeerAddressSets[..i])
        invariant addresses == "" <==> i == 0
      {
        var addressSet := sortedPeerAddressSets[i];
        assert sortedPeerAddressSets[..i + 1][..i] == sortedPeerAddressSets[..i];
        if addresses == "" {
          addresses := "$" + addressSet;
        } else {
          addresses := addresses + ", $" + addressSet;
          assert ", $" == "," + " $";
        }
        i := i + 1;
      }
      assert sortedPeerAddressSets[..i] == sortedPeerAddressSets;
      if addresses == "" {
        text := "ip4";
      } else {
        text := (if policyType == Ingress then "ip4.src == {" else "ip4.dst == {") + addresses + "}";
        assert |text| > 3;
      }
      PeersTextReads(policyType, sortedPeerAddressSets);
    }

    /** Adds the set once, keeping the list sorted, and reports the old and the new match text. */
    method AddAddressSet(name: string) returns (oldMatch: string, newMatch: string, added: bool)
      requires Valid()
      modifies this
      ensures Valid() && peerAddressSets == old(peerAddressSets) + {name}
      ensures added <==> name !in old(peerAddressSets)
      ensures added ==> View() == old(View()).(peers := Insert(old(sortedPeerAddressSets), name))
      ensures !added ==> View() == old(View())
      ensures added ==> oldMatch == L3Text(policyType, PeersL3(old(sortedPeerAddressSets)))
      ensures added ==> newMatch == L3Text(policyType, PeersL3(sortedPeerAddressSets))
    {
      if name in peerAddressSets {
        return "", "", false;
      }
      oldMatch := GetL3MatchFromAddressSet();
      assert name !in sortedPeerAddressSets;
      sortedPeerAddressSets := Insert(sortedPeerAddressSets, name);
      peerAddressSets := peerAddressSets + {name};
      newMatch := GetL3MatchFromAddressSet();
      added := true;
    }

    /** Undoes AddAddressSet: the remaining names keep their order. */
    method DelAddressSet(name: string) returns (oldMatch: string, newMatch: string, removed: bool)
      requires Valid()
      modifies this
      ensures Valid() && peerAddressSets == old(peerAddressSets) - {name}
      ensures removed <==> name in old(peerAddressSets)
      ensures removed ==> View() == old(View()).(peers := Remove(old(sortedPeerAddressSets), name))
      ensures !removed ==> View() == old(View())
      ensures removed ==> oldMatch == L3Text(policyType, PeersL3(old(sortedPeerAddressSets)))
      ensures removed ==> newMatch == L3Text(policyType, PeersL3(sortedPeerAddressSets))
    {
      if name !in peerAddressSets {
        return "", "", false;
      }
      oldMatch := GetL3MatchFromAddressSet();
      ghost var before := sortedPeerAddressSets;
      var i := 0;
      while i < |sortedPeerAddressSets|
        invariant 0 <= i <= |before|
        invariant sortedPeerAddressSets == before
        invariant name !in before[..i]
      {
        if sortedPeerAddressSets[i] == name {
          RemoveAt(before, i, name);
          sortedPeerAddressSets := sortedPeerAddressSets[..i] + sortedPeerAddressSets[i + 1..];
          break;
        }
        i := i + 1;
      }
      assert name in Elements(before);
      assert before[..|before|] == before;
      RemoveSorted(before, name);
      peerAddressSets := peerAddressSets - {name};
      newMatch := GetL3MatchFromAddressSet();
      removed := true;
    }
  }

  /** Adding a name and deleting it again restores the list, and the other way round. */
  lemma InsertRemoveRoundTrip(s: seq<string>, x: string)
    requires StrictlySorted(s)
    ensures x !in s ==> Remove(Insert(s, x), x) == s
    ensures x in s ==> x !in Remove(s, x) && StrictlySorted(Remove(s, x)) && Insert(Remove(s, x), x) == s
  {
    if x !in s {
      RemoveSorted(Insert(s, x), x);
      assert x !in Elements(s);
      StrictlySortedUnique(Remove(Insert(s, x), x), s);
    } else {
      RemoveSorted(s, x);
      assert x !in Elements(Remove(s, x)) && x in Elements(s);
      StrictlySortedUnique(Insert(Remove(s, x), x), s);
    }
  }
}
