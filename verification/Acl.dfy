/** The fragment of OVN's ACL language that the controller writes: what an ACL matches, which
    ACL wins, and the text under which the controller looks its own ACLs up again. */
module Acl {
  import opened Strings

  datatype Option<+T> = None | Some(value: T)

  datatype Direction = Ingress | Egress

  /** "tcp && tcp.dst==p", "udp && udp.dst==p", or the marker "None" for a rule without ports. */
  datatype L4Match = NoneMatch | TcpDst(port: nat) | UdpDst(port: nat)

  /** "ip4", "ip4.src == {$a, $b}" (address sets) or "ip4.src == {cidr, cidr}" (literal blocks). */
  datatype L3Match = Ip4 | AddressSets(names: seq<string>) | Blocks(cidrs: seq<string>)

  datatype LPortMatch = GroupPort(group: string) | LogicalPort(port: string)

  datatype AclMatch = AclMatch(dir: Direction, l3: L3Match, l4: L4Match, lport: LPortMatch)

  datatype Action = Drop | AllowRelated | Allow

  datatype Acl = Acl(priority: nat, action: Action, match_: AclMatch)

  const DEFAULT_DENY_PRIORITY: nat := 1000
  const DEFAULT_ALLOW_PRIORITY: nat := 1001
  const IP_BLOCK_DENY_PRIORITY: nat := 1010

  type Ip = nat

  /** An IPv4 packet; `l4` is NoneMatch when it is neither TCP nor UDP. */
  datatype Packet = Packet(inport: string, outport: string, src: Ip, dst: Ip, l4: L4Match)

  /** What the names in a match stand for. `inBlock` gives CIDR text any meaning whatsoever. */
  datatype Env = Env(addressSets: map<string, set<Ip>>, groups: map<string, set<string>>,
                     inBlock: (string, Ip) -> bool)

  function LocalPort(dir: Direction, pkt: Packet): string {
    if dir == Ingress then pkt.outport else pkt.inport
  }

  function PeerIp(dir: Direction, pkt: Packet): Ip {
    if dir == Ingress then pkt.src else pkt.dst
  }

  predicate InSomeSet(names: seq<string>, ip: Ip, env: Env) {
    exists n | n in names :: n in env.addressSets && ip in env.addressSets[n]
  }

  predicate InSomeBlock(cidrs: seq<string>, ip: Ip, env: Env) {
    exists c | c in cidrs :: env.inBlock(c, ip)
  }

  predicate L3Holds(m: L3Match, ip: Ip, env: Env) {
    match m
    case Ip4 => true
    case AddressSets(names) => InSomeSet(names, ip, env)
    case Blocks(cidrs) => InSomeBlock(cidrs, ip, env)
  }

  predicate LPortHolds(m: LPortMatch, port: string, env: Env) {
    match m
    case GroupPort(g) => g in env.groups && port in env.groups[g]
    case LogicalPort(p) => p == port
  }

  predicate Matches(m: AclMatch, pkt: Packet, env: Env) {
    && LPortHolds(m.lport, LocalPort(m.dir, pkt), env)
    && L3Holds(m.l3, PeerIp(m.dir, pkt), env)
    && (m.l4 == NoneMatch || m.l4 == pkt.l4)
  }

  /** `a` is a matching ACL that no matching ACL outranks. */
  ghost predicate Decides(acls: iset<Acl>, a: Acl, pkt: Packet, env: Env) {
    && a in acls && Matches(a.match_, pkt, env)
    && forall b | b in acls && Matches(b.match_, pkt, env) :: b.priority <= a.priority
  }

  /** Some deciding ACL drops the packet. */
  ghost predicate MayDrop(acls: iset<Acl>, pkt: Packet, env: Env) {
    exists a :: Decides(acls, a, pkt, env) && a.action == Drop
  }

  /** Some deciding ACL lets the packet through, or no ACL matches at all. */
  ghost predicate MayPass(acls: iset<Acl>, pkt: Packet, env: Env) {
    || (exists a :: Decides(acls, a, pkt, env) && a.action != Drop)
    || (forall a | a in acls :: !Matches(a.match_, pkt, env))
  }

  // ---------------------------------------------------------------- text

  function L3Field(dir: Direction): string {
    if dir == Ingress then "ip4.src == {" else "ip4.dst == {"
  }

  function JoinSets(names: seq<string>): string {
    if names == [] then ""
    else if |names| == 1 then "$" + names[0]
    else JoinSets(names[..|names| - 1]) + "," + (" $" + names[|names| - 1])
  }

  function JoinBlocks(cidrs: seq<string>): string {
    if cidrs == [] then ""
    else if |cidrs| == 1 then cidrs[0]
    else JoinBlocks(cidrs[..|cidrs| - 1]) + "," + (" " + cidrs[|cidrs| - 1])
  }

  function L3Text(dir: Direction, m: L3Match): string {
    match m
    case Ip4 => "ip4"
    case AddressSets(names) => L3Field(dir) + (JoinSets(names) + "}")
    case Blocks(cidrs) => L3Field(dir) + (JoinBlocks(cidrs) + "}")
  }

  function LPortText(dir: Direction, m: LPortMatch): string {
    (if dir == Ingress then "outport == " else "inport == ") +
    (match m case GroupPort(g) => "@" + g case LogicalPort(p) => "\\\"" + (p + "\\\""))
  }

  /** What follows the first " &" of a match: the optional port clause and the port clause. */
  function TailText(m: AclMatch): string {
    match m.l4
    case NoneMatch => LPortText(m.dir, m.lport)
    case TcpDst(p) => "tcp && tcp.dst==" + (Decimal(p) + " " + ("&& " + LPortText(m.dir, m.lport)))
    case UdpDst(p) => "udp && udp.dst==" + (Decimal(p) + " " + ("&& " + LPortText(m.dir, m.lport)))
  }

  /** The match column of an allow ACL, as handed to ovn-nbctl create, find and set. */
  function MatchText(m: AclMatch): string {
    "match=\"" + ((L3Text(m.dir, m.l3) + " ") + "&" + ("& " + (TailText(m) + "\"")))
  }

  /** Names and CIDR text never hold the punctuation of the match syntax. */
  predicate PlainName(s: string) {
    && '&' !in s && ',' !in s && '$' !in s && '}' !in s && '"' !in s
  }

  predicate WellFormedAllow(m: AclMatch) {
    && (match m.l3
        case Ip4 => true
        case AddressSets(names) => names != [] && forall n | n in names :: PlainName(n)
        case Blocks(cidrs) => |cidrs| == 1 && cidrs[0] != [] && PlainName(cidrs[0]))
  }

  lemma StripPrefix(p: string, a: string, b: string)
    requires p + a == p + b
    ensures a == b
  {
    assert a == (p + a)[|p|..] && b == (p + b)[|p|..];
  }

  lemma StripSuffix(a: string, b: string, q: string)
    requires a + q == b + q
    ensures a == b
  {
    assert a == (a + q)[..|a|] && b == (b + q)[..|b|];
  }

  lemma {:induction false} JoinSetsChars(names: seq<string>)
    requires forall n | n in names :: PlainName(n)
    ensures '&' !in JoinSets(names)
    ensures names != [] ==> JoinSets(names) != [] && JoinSets(names)[0] == '$'
    ensures |names| == 1 ==> ',' !in JoinSets(names)
    ensures |names| > 1 ==> ',' in JoinSets(names)
  {
    if |names| == 1 {
      assert names[0] in names && JoinSets(names) == ['$'] + names[0];
    } else if |names| > 1 {
      var last := names[|names| - 1];
      JoinSetsChars(names[..|names| - 1]);
      var text := JoinSets(names[..|names| - 1]) + [',', ' ', '$'] + last;
      assert last in names && JoinSets(names) == text;
      assert text[|JoinSets(names[..|names| - 1])|] == ',';
    }
  }

  lemma {:induction false} JoinSetsInjective(a: seq<string>, b: seq<string>)
    requires a != [] && b != []
    requires forall n | n in a :: PlainName(n)
    requires forall n | n in b :: PlainName(n)
    requires JoinSets(a) == JoinSets(b)
    ensures a == b
  {
    JoinSetsChars(a);
    JoinSetsChars(b);
    if |a| == 1 || |b| == 1 {
      StripPrefix("$", a[0], b[0]);
    } else {
      var x, y := " $" + a[|a| - 1], " $" + b[|b| - 1];
      assert JoinSets(a) == JoinSets(a[..|a| - 1]) + [','] + x;
      assert JoinSets(b) == JoinSets(b[..|b| - 1]) + [','] + y;
      assert a[|a| - 1] in a && b[|b| - 1] in b;
      assert x == [' ', '$'] + a[|a| - 1] && y == [' ', '$'] + b[|b| - 1];
      SplitAtLast(JoinSets(a[..|a| - 1]), x, JoinSets(b[..|b| - 1]), y, ',');
      StripPrefix(" $", a[|a| - 1], b[|b| - 1]);
      JoinSetsInjective(a[..|a| - 1], b[..|b| - 1]);
      assert a == a[..|a| - 1] + [a[|a| - 1]] && b == b[..|b| - 1] + [b[|b| - 1]];
    }
  }

  lemma L3TextInjective(m: AclMatch, n: AclMatch)
    requires WellFormedAllow(m) && WellFormedAllow(n)
    requires m.dir == n.dir && L3Text(m.dir, m.l3) == L3Text(n.dir, n.l3)
    ensures m.l3 == n.l3
  {
    assert !m.l3.Ip4? ==> |L3Text(m.dir, m.l3)| > 3;
    assert !n.l3.Ip4? ==> |L3Text(n.dir, n.l3)| > 3;
    if !m.l3.Ip4? {
      var p := L3Field(m.dir);
      var jm := if m.l3.Blocks? then JoinBlocks(m.l3.cidrs) else JoinSets(m.l3.names);
      var jn := if n.l3.Blocks? then JoinBlocks(n.l3.cidrs) else JoinSets(n.l3.names);
      StripPrefix(p, jm + "}", jn + "}");
      StripSuffix(jm, jn, "}");
      if m.l3.AddressSets? { JoinSetsChars(m.l3.names); }
      if n.l3.AddressSets? { JoinSetsChars(n.l3.names); }
      if m.l3.AddressSets? && n.l3.AddressSets? {
        JoinSetsInjective(m.l3.names, n.l3.names);
      }
    }
  }

  lemma LPortTextInjective(d: Direction, m: LPortMatch, e: Direction, n: LPortMatch)
    requires LPortText(d, m) == LPortText(e, n)
    ensures d == e && m == n
  {
    assert LPortText(d, m)[0] == if d == Ingress then 'o' else 'i';
    assert LPortText(e, n)[0] == if e == Ingress then 'o' else 'i';
    var x := match m case GroupPort(g) => "@" + g case LogicalPort(p) => "\\\"" + (p + "\\\"");
    var y := match n case GroupPort(g) => "@" + g case LogicalPort(p) => "\\\"" + (p + "\\\"");
    StripPrefix(if d == Ingress then "outport == " else "inport == ", x, y);
    assert x[0] == if m.GroupPort? then '@' else '\\';
    assert y[0] == if n.GroupPort? then '@' else '\\';
    if m.GroupPort? {
      StripPrefix("@", m.group, n.group);
    } else {
      StripPrefix("\\\"", m.port + "\\\"", n.port + "\\\"");
      StripSuffix(m.port, n.port, "\\\"");
    }
  }

  lemma TailTextInjective(m: AclMatch, n: AclMatch)
    requires TailText(m) == TailText(n)
    ensures m.dir == n.dir && m.l4 == n.l4 && m.lport == n.lport
  {
    TailHead(m);
    TailHead(n);
    if m.l4 == NoneMatch {
      LPortTextInjective(m.dir, m.lport, n.dir, n.lport);
    } else {
      var p := if m.l4.TcpDst? then "tcp && tcp.dst==" else "udp && udp.dst==";
      var lm, ln := "&& " + LPortText(m.dir, m.lport), "&& " + LPortText(n.dir, n.lport);
      StripPrefix(p, Decimal(m.l4.port) + " " + lm, Decimal(n.l4.port) + " " + ln);
      SplitAtFirst(Decimal(m.l4.port), lm, Decimal(n.l4.port), ln, ' ');
      DecimalInjective(m.l4.port, n.l4.port);
      StripPrefix("&& ", LPortText(m.dir, m.lport), LPortText(n.dir, n.lport));
      LPortTextInjective(m.dir, m.lport, n.dir, n.lport);
    }
  }

  lemma TailHead(m: AclMatch)
    ensures TailText(m) != []
    ensures TailText(m)[0] == 't' <==> m.l4.TcpDst?
    ensures TailText(m)[0] == 'u' <==> m.l4.UdpDst?
  {
    assert LPortText(m.dir, m.lport)[0] == if m.dir == Ingress then 'o' else 'i';
  }

  /** Looking an allow ACL up by the text of its match finds exactly that match: the text
      determines the direction, the peers, the port clause and the port group. */
  lemma MatchTextInjective(m: AclMatch, n: AclMatch)
    requires WellFormedAllow(m) && WellFormedAllow(n)
    ensures MatchText(m) == MatchText(n) <==> m == n
  {
    if MatchText(m) == MatchText(n) {
      var lm, ln := L3Text(m.dir, m.l3) + " ", L3Text(n.dir, n.l3) + " ";
      var tm, tn := "& " + (TailText(m) + "\""), "& " + (TailText(n) + "\"");
      StripPrefix("match=\"", lm + "&" + tm, ln + "&" + tn);
      L3NoAmpersand(m);
      L3NoAmpersand(n);
      SplitAtFirst(lm, tm, ln, tn, '&');
      StripSuffix(L3Text(m.dir, m.l3), L3Text(n.dir, n.l3), " ");
      StripPrefix("& ", TailText(m) + "\"", TailText(n) + "\"");
      StripSuffix(TailText(m), TailText(n), "\"");
      TailTextInjective(m, n);
      L3TextInjective(m, n);
    }
  }

  lemma L3NoAmpersand(m: AclMatch)
    requires WellFormedAllow(m)
    ensures '&' !in L3Text(m.dir, m.l3)
  {
    if m.l3.AddressSets? {
      JoinSetsChars(m.l3.names);
    }
  }
}
