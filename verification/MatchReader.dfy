/** How OVN reads the match column the controller writes: the text is cut into clauses, each clause
    looks at one field of the packet, and the ACL applies when all of them hold. Nothing here knows
    how a match is printed. */
module MatchReader {
  import opened Strings
  import opened Acl

  // ------------------------------------------------------- reading

  /** The clauses of a conjunction. */
  function Clauses(s: string): seq<string>
    decreases |s|
  {
    var i := FirstAt(s, '&');
    if 0 < i && i + 3 <= |s| && s[i - 1..i + 3] == " && " then [s[..i - 1]] + Clauses(s[i + 3..]) else [s]
  }

  /** The items between braces, separated by a comma and a space. */
  function Items(s: string): seq<string> {
    var pieces := Split(s, ',');
    seq(|pieces|, i requires 0 <= i < |pieces| =>
      if i > 0 && pieces[i] != [] && pieces[i][0] == ' ' then pieces[i][1..] else pieces[i])
  }

  /** An address set or a literal block. */
  predicate ItemHolds(item: string, ip: Ip, env: Env) {
    if item != [] && item[0] == '$' then item[1..] in env.addressSets && ip in env.addressSets[item[1..]]
    else env.inBlock(item, ip)
  }

  predicate OneOf(rest: string, ip: Ip, env: Env) {
    && rest != [] && rest[|rest| - 1] == '}'
    && exists item | item in Items(rest[..|rest| - 1]) :: ItemHolds(item, ip, env)
  }

  /** A port group, or a port name between quotes that are escaped on the command line. */
  predicate IsPort(rest: string, port: string, env: Env) {
    if rest != [] && rest[0] == '@' then rest[1..] in env.groups && port in env.groups[rest[1..]]
    else |rest| >= 4 && rest[..2] == "\\\"" && rest[|rest| - 2..] == "\\\"" && rest[2..|rest| - 2] == port
  }

  predicate ClauseHolds(c: string, pkt: Packet, env: Env) {
    if c == "ip4" then true
    else if "ip4.src == {" <= c then OneOf(c[12..], pkt.src, env)
    else if "ip4.dst == {" <= c then OneOf(c[12..], pkt.dst, env)
    else if c == "tcp" then pkt.l4.TcpDst?
    else if c == "udp" then pkt.l4.UdpDst?
    else if "tcp.dst==" <= c then pkt.l4.TcpDst? && pkt.l4.port == ValueOf(c[9..])
    else if "udp.dst==" <= c then pkt.l4.UdpDst? && pkt.l4.port == ValueOf(c[9..])
    else if "outport == " <= c then IsPort(c[11..], pkt.outport, env)
    else if "inport == " <= c then IsPort(c[10..], pkt.inport, env)
    else false
  }

  ghost predicate AllHold(s: string, pkt: Packet, env: Env) { forall c | c in Clauses(s) :: ClauseHolds(c, pkt, env) }

  /** The text of a match column holds of a packet. */
  ghost predicate TextHolds(text: string, pkt: Packet, env: Env) {
    && |text| > 7 && text[..7] == "match=\"" && text[|text| - 1] == '"'
    && AllHold(text[7..|text| - 1], pkt, env)
  }

  // ------------------------------------------------------- the columns

  function Quoted(s: string): string { "match=\"" + (s + "\"") }

  /** The match column of a rule's except ACL. */
  function ExceptText(m: AclMatch): string { Quoted(LPortText(m.dir, m.lport) + " && " + L3Text(m.dir, m.l3)) }

  /** The match column of a default-deny ACL. */
  function DenyText(m: AclMatch): string { Quoted(LPortText(m.dir, m.lport)) }

  /** The match column of any ACL the controller creates. */
  function ColumnText(a: Acl): string {
    if a.action != Drop then MatchText(a.match_) else if a.match_.l3 == Ip4 then DenyText(a.match_)
    else ExceptText(a.match_)
  }

  /** Names, blocks and ports hold no punctuation of the match syntax. */
  predicate Readable(m: AclMatch) {
    && (match m.l3
        case Ip4 => true
        case AddressSets(names) => names != [] && forall n | n in names :: PlainName(n)
        case Blocks(cidrs) => cidrs != [] && forall c | c in cidrs :: PlainName(c))
    && (match m.lport
        case GroupPort(g) => '&' !in g
        case LogicalPort(p) => '&' !in p)
  }

  predicate ReadableAcl(a: Acl) { Readable(a.match_) && (a.action == Drop ==> a.match_.l4 == NoneMatch) }

  // ------------------------------------------------------- clauses

  lemma ClausesOne(a: string)
    requires '&' !in a
    ensures Clauses(a) == [a]
  {
  }

  lemma ClausesFirst(a: string, b: string)
    requires '&' !in a
    ensures Clauses(a + " && " + b) == [a] + Clauses(b)
  {
    var s, x, y := a + " && " + b, a + " ", "& " + b;
    assert s == x + ['&'] + y;
    var i := FirstAt(s, '&');
    assert s[|x|] == '&' && s[..|s|] == s;
    assert s == s[..i] + ['&'] + s[i + 1..];
    SplitAtFirst(s[..i], s[i + 1..], x, y, '&');
    assert i == |a| + 1 && s[i - 1..i + 3] == " && " && s[..i - 1] == a && s[i + 3..] == b;
  }

  lemma AllFirst(a: string, b: string, pkt: Packet, env: Env)
    requires '&' !in a
    ensures AllHold(a + " && " + b, pkt, env) <==> ClauseHolds(a, pkt, env) && AllHold(b, pkt, env)
  {
    ClausesFirst(a, b);
    assert forall c :: c in [a] + Clauses(b) <==> c == a || c in Clauses(b);
  }

  lemma AllOne(a: string, pkt: Packet, env: Env)
    requires '&' !in a
    ensures AllHold(a, pkt, env) <==> ClauseHolds(a, pkt, env)
  {
    ClausesOne(a);
  }

  lemma QuotedHolds(s: string, pkt: Packet, env: Env)
    ensures TextHolds(Quoted(s), pkt, env) <==> AllHold(s, pkt, env)
  {
    var text := Quoted(s);
    assert text[..7] == "match=\"" && text[7..|text| - 1] == s;
  }

  // ------------------------------------------------------- the peers

  ghost predicate PiecesOf(pieces: seq<string>, cs: seq<string>) {
    |pieces| == |cs| && forall i | 0 <= i < |cs| :: pieces[i] == if i == 0 then cs[i] else " " + cs[i]
  }

  lemma PiecesNext(pieces: seq<string>, cs: seq<string>)
    requires |cs| > 1 && PiecesOf(pieces, cs[..|cs| - 1])
    ensures PiecesOf(pieces + [" " + cs[|cs| - 1]], cs)
  {
  }

  lemma {:induction false} BlockPieces(cs: seq<string>)
    requires cs != [] && forall c | c in cs :: ',' !in c
    ensures PiecesOf(Split(JoinBlocks(cs), ','), cs)
  {
    var n := |cs| - 1;
    assert cs[n] in cs;
    if n == 0 {
      SplitOne(cs[0], ',');
    } else {
      BlockPieces(cs[..n]);
      SplitLast(JoinBlocks(cs[..n]), " " + cs[n], ',');
      PiecesNext(Split(JoinBlocks(cs[..n]), ','), cs);
    }
  }

  lemma ItemsOf(cs: seq<string>)
    requires cs != [] && forall c | c in cs :: ',' !in c
    ensures Items(JoinBlocks(cs)) == cs
  {
    BlockPieces(cs);
    assert forall i | 0 < i < |cs| :: (" " + cs[i])[1..] == cs[i];
  }

  function Dollars(names: seq<string>): seq<string> {
    seq(|names|, i requires 0 <= i < |names| => "$" + names[i])
  }

  lemma {:induction false} SetsAreItems(names: seq<string>)
    ensures JoinSets(names) == JoinBlocks(Dollars(names))
  {
    if |names| > 1 {
      var n := |names| - 1;
      SetsAreItems(names[..n]);
      assert Dollars(names)[..n] == Dollars(names[..n]) && Dollars(names)[n] == "$" + names[n];
      assert " $" + names[n] == " " + ("$" + names[n]);
    }
  }

  lemma DollarHolds(n: string, ip: Ip, env: Env)
    ensures ItemHolds("$" + n, ip, env) <==> n in env.addressSets && ip in env.addressSets[n]
  {
    assert ("$" + n)[1..] == n;
  }

  lemma DollarItems(names: seq<string>)
    requires names != [] && forall n | n in names :: PlainName(n)
    ensures Items(JoinSets(names)) == Dollars(names)
  {
    var items := Dollars(names);
    forall c | c in items ensures ',' !in c {
      var i :| 0 <= i < |items| && items[i] == c;
      assert names[i] in names;
    }
    SetsAreItems(names);
    ItemsOf(items);
  }

  lemma AnyDollar(names: seq<string>, ip: Ip, env: Env)
    ensures (exists item | item in Dollars(names) :: ItemHolds(item, ip, env)) <==> InSomeSet(names, ip, env)
  {
    var items := Dollars(names);
    if item :| item in items && ItemHolds(item, ip, env) {
      var i :| 0 <= i < |items| && items[i] == item;
      DollarHolds(names[i], ip, env);
    }
    if n :| n in names && n in env.addressSets && ip in env.addressSets[n] {
      var i :| 0 <= i < |names| && names[i] == n;
      DollarHolds(n, ip, env);
      assert items[i] in items;
    }
  }

  lemma BracesHold(text: string, ip: Ip, env: Env)
    ensures OneOf(text + "}", ip, env) <==> exists item | item in Items(text) :: ItemHolds(item, ip, env)
  {
    var rest := text + "}";
    assert rest[..|rest| - 1] == text;
  }

  lemma SetItems(names: seq<string>, ip: Ip, env: Env)
    requires names != [] && forall n | n in names :: PlainName(n)
    ensures OneOf(JoinSets(names) + "}", ip, env) <==> InSomeSet(names, ip, env)
  {
    DollarItems(names);
    AnyDollar(names, ip, env);
    BracesHold(JoinSets(names), ip, env);
  }

  lemma BlockItems(cs: seq<string>, ip: Ip, env: Env)
    requires cs != [] && forall c | c in cs :: PlainName(c)
    ensures OneOf(JoinBlocks(cs) + "}", ip, env) <==> InSomeBlock(cs, ip, env)
  {
    ItemsOf(cs);
    BracesHold(JoinBlocks(cs), ip, env);
    forall c | c in cs ensures ItemHolds(c, ip, env) <==> env.inBlock(c, ip) {
      assert c != [] ==> c[0] in c;
    }
  }

  lemma FieldHolds(dir: Direction, rest: string, pkt: Packet, env: Env)
    ensures ClauseHolds(L3Field(dir) + rest, pkt, env) <==> OneOf(rest, PeerIp(dir, pkt), env)
  {
    var c := L3Field(dir) + rest;
    assert c[12..] == rest && c[..12] == L3Field(dir);
    assert c[4] == if dir == Ingress then 's' else 'd';
  }

  /** The peers' clause looks at the source of ingress and the destination of egress packets. */
  lemma L3Reads(m: AclMatch, pkt: Packet, env: Env)
    requires Readable(m)
    ensures ClauseHolds(L3Text(m.dir, m.l3), pkt, env) <==> L3Holds(m.l3, PeerIp(m.dir, pkt), env)
  {
    match m.l3
    case Ip4 =>
    case AddressSets(names) =>
      FieldHolds(m.dir, JoinSets(names) + "}", pkt, env);
      SetItems(names, PeerIp(m.dir, pkt), env);
    case Blocks(cidrs) =>
      FieldHolds(m.dir, JoinBlocks(cidrs) + "}", pkt, env);
      BlockItems(cidrs, PeerIp(m.dir, pkt), env);
  }

  lemma {:induction false} BlocksNoAmpersand(cs: seq<string>)
    requires forall c | c in cs :: '&' !in c
    ensures '&' !in JoinBlocks(cs)
  {
    if cs != [] {
      var n := |cs| - 1;
      assert cs[n] in cs;
      BlocksNoAmpersand(cs[..n]);
    }
  }

  lemma L3OneClause(m: AclMatch)
    requires Readable(m)
    ensures '&' !in L3Text(m.dir, m.l3)
  {
    if m.l3.AddressSets? {
      JoinSetsChars(m.l3.names);
    } else if m.l3.Blocks? {
      BlocksNoAmpersand(m.l3.cidrs);
    }
  }

  // ------------------------------------------------------- the port and the transport clauses

  lemma PortReads(rest: string, m: LPortMatch, port: string, env: Env)
    requires rest == match m case GroupPort(g) => "@" + g case LogicalPort(p) => "\\\"" + (p + "\\\"")
    ensures IsPort(rest, port, env) <==> LPortHolds(m, port, env)
  {
    match m
    case GroupPort(g) =>
      assert rest[0] == '@' && rest[1..] == g;
    case LogicalPort(p) =>
      assert rest[0] == '\\' && rest[..2] == "\\\"" && rest[|rest| - 2..] == "\\\"" && rest[2..|rest| - 2] == p;
  }

  lemma NotPrefix(p: string, c: string, i: nat)
    requires i < |p| && i < |c| && p[i] != c[i]
    ensures !(p <= c)
  {
  }

  lemma OutportHolds(rest: string, pkt: Packet, env: Env)
    ensures ClauseHolds("outport == " + rest, pkt, env) <==> IsPort(rest, pkt.outport, env)
  {
    var c := "outport == " + rest;
    assert c[0] == 'o' && c[..11] == "outport == " && c[11..] == rest;
    NotPrefix("ip4.src == {", c, 0);
    NotPrefix("ip4.dst == {", c, 0);
    NotPrefix("tcp.dst==", c, 0);
    NotPrefix("udp.dst==", c, 0);
  }

  lemma InportHolds(rest: string, pkt: Packet, env: Env)
    ensures ClauseHolds("inport == " + rest, pkt, env) <==> IsPort(rest, pkt.inport, env)
  {
    var c := "inport == " + rest;
    assert c[0] == 'i' && c[1] == 'n' && c[..10] == "inport == " && c[10..] == rest;
    NotPrefix("ip4.src == {", c, 1);
    NotPrefix("ip4.dst == {", c, 1);
    NotPrefix("tcp.dst==", c, 0);
    NotPrefix("udp.dst==", c, 0);
    NotPrefix("outport == ", c, 0);
  }

  /** The port clause looks at the outport of ingress and the inport of egress packets. */
  lemma LPortReads(dir: Direction, m: LPortMatch, pkt: Packet, env: Env)
    ensures ClauseHolds(LPortText(dir, m), pkt, env) <==> LPortHolds(m, LocalPort(dir, pkt), env)
  {
    var rest := match m case GroupPort(g) => "@" + g case LogicalPort(p) => "\\\"" + (p + "\\\"");
    PortReads(rest, m, LocalPort(dir, pkt), env);
    OutportHolds(rest, pkt, env);
    InportHolds(rest, pkt, env);
  }

  lemma LPortOneClause(dir: Direction, m: LPortMatch)
    requires match m case GroupPort(g) => '&' !in g case LogicalPort(p) => '&' !in p
    ensures '&' !in LPortText(dir, m)
  {
  }

  lemma TcpDstReads(n: nat, pkt: Packet, env: Env)
    ensures ClauseHolds("tcp.dst==" + Decimal(n), pkt, env) <==> pkt.l4 == TcpDst(n)
    ensures '&' !in "tcp.dst==" + Decimal(n)
  {
    DecimalReads(n);
    var c := "tcp.dst==" + Decimal(n);
    assert c[0] == 't' && c[..9] == "tcp.dst==" && c[9..] == Decimal(n);
  }

  lemma UdpDstReads(n: nat, pkt: Packet, env: Env)
    ensures ClauseHolds("udp.dst==" + Decimal(n), pkt, env) <==> pkt.l4 == UdpDst(n)
    ensures '&' !in "udp.dst==" + Decimal(n)
  {
    DecimalReads(n);
    var c := "udp.dst==" + Decimal(n);
    assert c[0] == 'u' && c[..9] == "udp.dst==" && c[9..] == Decimal(n);
  }

  lemma TcpReads(n: nat, last: string, pkt: Packet, env: Env)
    ensures AllHold("tcp" + " && " + ("tcp.dst==" + Decimal(n) + " && " + last), pkt, env)
       <==> pkt.l4 == TcpDst(n) && AllHold(last, pkt, env)
  {
    var dst := "tcp.dst==" + Decimal(n);
    TcpDstReads(n, pkt, env);
    AllFirst(dst, last, pkt, env);
    AllFirst("tcp", dst + " && " + last, pkt, env);
  }

  lemma UdpReads(n: nat, last: string, pkt: Packet, env: Env)
    ensures AllHold("udp" + " && " + ("udp.dst==" + Decimal(n) + " && " + last), pkt, env)
       <==> pkt.l4 == UdpDst(n) && AllHold(last, pkt, env)
  {
    var dst := "udp.dst==" + Decimal(n);
    UdpDstReads(n, pkt, env);
    AllFirst(dst, last, pkt, env);
    AllFirst("udp", dst + " && " + last, pkt, env);
  }

  lemma TransportText(m: AclMatch, last: string)
    requires last == LPortText(m.dir, m.lport)
    ensures m.l4.TcpDst? ==> TailText(m) == "tcp" + " && " + ("tcp.dst==" + Decimal(m.l4.port) + " && " + last)
    ensures m.l4.UdpDst? ==> TailText(m) == "udp" + " && " + ("udp.dst==" + Decimal(m.l4.port) + " && " + last)
  {
  }

  lemma TailReads(m: AclMatch, pkt: Packet, env: Env)
    requires Readable(m)
    ensures AllHold(TailText(m), pkt, env) <==>
            (m.l4 == NoneMatch || m.l4 == pkt.l4) && LPortHolds(m.lport, LocalPort(m.dir, pkt), env)
  {
    var last := LPortText(m.dir, m.lport);
    LPortOneClause(m.dir, m.lport);
    LPortReads(m.dir, m.lport, pkt, env);
    AllOne(last, pkt, env);
    TransportText(m, last);
    if m.l4.TcpDst? {
      TcpReads(m.l4.port, last, pkt, env);
    } else if m.l4.UdpDst? {
      UdpReads(m.l4.port, last, pkt, env);
    }
  }

  // ------------------------------------------------------- the columns' meaning

  lemma AllowText(m: AclMatch)
    ensures MatchText(m) == Quoted(L3Text(m.dir, m.l3) + " && " + TailText(m))
  {
    var l3, tail := L3Text(m.dir, m.l3), TailText(m);
    assert (l3 + " ") + "&" + ("& " + (tail + "\"")) == l3 + " && " + tail + "\"";
  }

  lemma AllowReads(m: AclMatch, pkt: Packet, env: Env)
    requires Readable(m)
    ensures TextHolds(MatchText(m), pkt, env) <==> Matches(m, pkt, env)
  {
    var l3, tail := L3Text(m.dir, m.l3), TailText(m);
    AllowText(m);
    QuotedHolds(l3 + " && " + tail, pkt, env);
    L3OneClause(m);
    AllFirst(l3, tail, pkt, env);
    L3Reads(m, pkt, env);
    TailReads(m, pkt, env);
  }

  lemma DropReads(m: AclMatch, pkt: Packet, env: Env)
    requires Readable(m) && m.l4 == NoneMatch
    ensures TextHolds(ExceptText(m), pkt, env) <==> Matches(m, pkt, env)
    ensures m.l3 == Ip4 ==> (TextHolds(DenyText(m), pkt, env) <==> Matches(m, pkt, env))
  {
    var l3, lport := L3Text(m.dir, m.l3), LPortText(m.dir, m.lport);
    QuotedHolds(lport + " && " + l3, pkt, env);
    QuotedHolds(lport, pkt, env);
    LPortOneClause(m.dir, m.lport);
    L3OneClause(m);
    AllFirst(lport, l3, pkt, env);
    AllOne(l3, pkt, env);
    AllOne(lport, pkt, env);
    L3Reads(m, pkt, env);
    LPortReads(m.dir, m.lport, pkt, env);
  }

  /** What the controller writes into the match column holds of exactly the packets it is meant to
      match. */
  lemma ColumnReads(a: Acl, pkt: Packet, env: Env)
    requires ReadableAcl(a)
    ensures TextHolds(ColumnText(a), pkt, env) <==> Matches(a.match_, pkt, env)
  {
    if a.action != Drop {
      AllowReads(a.match_, pkt, env);
    } else {
      DropReads(a.match_, pkt, env);
    }
  }

  // ------------------------------------------------------- verdicts read from the text

  ghost predicate TextDecides(acls: iset<Acl>, a: Acl, pkt: Packet, env: Env) {
    && a in acls && TextHolds(ColumnText(a), pkt, env)
    && forall b | b in acls && TextHolds(ColumnText(b), pkt, env) :: b.priority <= a.priority
  }

  /** MayDrop and MayPass as OVN evaluates the columns. */
  ghost predicate TextDrops(acls: iset<Acl>, pkt: Packet, env: Env) {
    exists a :: TextDecides(acls, a, pkt, env) && a.action == Drop
  }

  ghost predicate TextPasses(acls: iset<Acl>, pkt: Packet, env: Env) {
    || (exists a :: TextDecides(acls, a, pkt, env) && a.action != Drop)
    || (forall a | a in acls :: !TextHolds(ColumnText(a), pkt, env))
  }

  ghost predicate AllReadable(acls: iset<Acl>) { forall a | a in acls :: ReadableAcl(a) }

  lemma ReadAlike(acls: iset<Acl>, pkt: Packet, env: Env)
    requires AllReadable(acls)
    ensures TextDrops(acls, pkt, env) <==> MayDrop(acls, pkt, env)
    ensures TextPasses(acls, pkt, env) <==> MayPass(acls, pkt, env)
  {
    forall a | a in acls ensures TextHolds(ColumnText(a), pkt, env) <==> Matches(a.match_, pkt, env) {
      ColumnReads(a, pkt, env);
    }
    forall a ensures TextDecides(acls, a, pkt, env) <==> Decides(acls, a, pkt, env) {
    }
  }
}
