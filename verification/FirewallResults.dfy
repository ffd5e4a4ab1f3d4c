/** What the compiled firewall does to packets, and that a failed apply leaves no trace. */
module FirewallResults {
  import opened Options
  import opened FirewallSpec

  lemma {:induction false} Names(p: Plan)
    ensures Egress(p) != Ingress(p)
    ensures Egress(p) != DockerUser && Egress(p) != Input && Ingress(p) != DockerUser && Ingress(p) != Input
    ensures DockerUser != Input
  {
    assert Egress(p)[0] == 'N' && Ingress(p)[0] == 'N' && DockerUser[0] == 'D' && Input[0] == 'I';
    assert Egress(p)[3] == 'E' && Ingress(p)[3] == 'I';
  }

  /******* Commands and the rules they denote *******/

  function DnsRule(proto: Proto, a: Addr): Rule {
    Rule(Some(proto), None, None, Some(Host(a)), Some(53), Accept)
  }

  function DnsRules(dns: seq<Addr>): seq<Rule> {
    if dns == [] then []
    else DnsRules(dns[..|dns| - 1]) + [DnsRule(Udp, dns[|dns| - 1]), DnsRule(Tcp, dns[|dns| - 1])]
  }

  function NoDnsRule(proto: Proto): Rule {
    Rule(Some(proto), None, None, None, Some(53), Reject)
  }

  function DenyRule(c: Cidr): Rule {
    Rule(None, None, None, Some(c), None, Reject)
  }

  function DenyRules(denied: seq<Cidr>): seq<Rule> {
    seq(|denied|, i requires 0 <= i < |denied| => DenyRule(denied[i]))
  }

  function EgressRules(p: Plan): seq<Rule> {
    DnsRules(p.dns) + ([NoDnsRule(Udp), NoDnsRule(Tcp)] + (DenyRules(Ipv4Deny) + [Any]))
  }

  function IngressRules(p: Plan): seq<Rule> {
    DnsRules(p.dns) + [Any.(target := Reject)]
  }

  function EgressJump(p: Plan): Rule {
    Any.(src := Some(p.subnet), target := Jump(Egress(p)))
  }

  function IngressJump(p: Plan): Rule {
    Any.(iface := Some(p.bridge), src := Some(p.subnet), target := Jump(Ingress(p)))
  }

  lemma {:induction false} ParseStep(opts: Cmd, r: Rule)
    requires |opts| >= 2
    ensures opts[0] == OptP && opts[1].ProtoWord? ==> ParseRule(opts, r) == ParseRule(opts[2..], r.(proto := Some(opts[1].proto)))
    ensures opts[0] == OptS && opts[1].Net? ==> ParseRule(opts, r) == ParseRule(opts[2..], r.(src := Some(opts[1].cidr)))
    ensures opts[0] == OptD && opts[1].Net? ==> ParseRule(opts, r) == ParseRule(opts[2..], r.(dst := Some(opts[1].cidr)))
    ensures opts[0] == OptI && opts[1].Word? ==> ParseRule(opts, r) == ParseRule(opts[2..], r.(iface := Some(opts[1].text)))
    ensures opts[0] == OptDport && opts[1].Port? ==> ParseRule(opts, r) == ParseRule(opts[2..], r.(dport := Some(opts[1].n)))
    ensures opts[0] == OptJ && opts[1].Verb? ==> ParseRule(opts, r) == ParseRule(opts[2..], r.(target := opts[1].target))
    ensures opts[0] == OptJ && opts[1].Word? ==> ParseRule(opts, r) == ParseRule(opts[2..], r.(target := Jump(opts[1].text)))
  {
  }

  /** A final `-j` option. */
  lemma {:induction false} ParseTarget(t: Tok, r: Rule)
    requires t.Verb? || t.Word?
    ensures ParseRule([OptJ, t], r) == Some(r.(target := if t.Verb? then t.target else Jump(t.text)))
  {
    ParseStep([OptJ, t], r);
    assert [OptJ, t][2..] == [];
  }

  /** One option pair in front of further options. */
  lemma {:induction false} ParsePair(o: Tok, v: Tok, rest: Cmd, r: Rule)
    ensures o == OptP && v.ProtoWord? ==> ParseRule([o, v] + rest, r) == ParseRule(rest, r.(proto := Some(v.proto)))
    ensures o == OptS && v.Net? ==> ParseRule([o, v] + rest, r) == ParseRule(rest, r.(src := Some(v.cidr)))
    ensures o == OptD && v.Net? ==> ParseRule([o, v] + rest, r) == ParseRule(rest, r.(dst := Some(v.cidr)))
    ensures o == OptI && v.Word? ==> ParseRule([o, v] + rest, r) == ParseRule(rest, r.(iface := Some(v.text)))
    ensures o == OptDport && v.Port? ==> ParseRule([o, v] + rest, r) == ParseRule(rest, r.(dport := Some(v.n)))
  {
    ParseStep([o, v] + rest, r);
    assert ([o, v] + rest)[2..] == rest;
  }

  /** A command with a parsed rule. */
  lemma {:induction false} DenoteRule(action: Tok, chain: string, opts: Cmd, r: Rule)
    requires ParseRule(opts, Any) == Some(r) && (action == A || action == D)
    ensures Denote([Iptables, Wait, action, Word(chain)] + opts) ==
            Some(if action == A then Append(chain, r) else Delete(chain, r))
  {
    assert ([Iptables, Wait, action, Word(chain)] + opts)[4..] == opts;
  }

  lemma {:induction false} DenoteInsert(chain: string, opts: Cmd, r: Rule)
    requires ParseRule(opts, Any) == Some(r)
    ensures Denote([Iptables, Wait, I, Word(chain), One] + opts) == Some(InsertFirst(chain, r))
  {
    assert ([Iptables, Wait, I, Word(chain), One] + opts)[5..] == opts;
  }

  lemma {:induction false} DenoteDns(chain: string, proto: Proto, a: Addr)
    ensures Denote(DnsCmd(chain, proto, a)) == Some(Append(chain, DnsRule(proto, a)))
  {
    hide ParseRule, Denote;
    var j := [OptJ, Verb(Accept)];
    var d := [OptDport, Port(53)] + j;
    var h := [OptD, Net(Host(a))] + d;
    ParsePair(OptP, ProtoWord(proto), h, Any);
    ParsePair(OptD, Net(Host(a)), d, Any.(proto := Some(proto)));
    ParsePair(OptDport, Port(53), j, Any.(proto := Some(proto), dst := Some(Host(a))));
    ParseTarget(Verb(Accept), Any.(proto := Some(proto), dst := Some(Host(a)), dport := Some(53)));
    DenoteRule(A, chain, [OptP, ProtoWord(proto)] + h, DnsRule(proto, a));
    assert DnsCmd(chain, proto, a) == [Iptables, Wait, A, Word(chain)] + ([OptP, ProtoWord(proto)] + h);
  }

  lemma {:induction false} DenoteNoDns(chain: string, proto: Proto)
    ensures Denote(NoDnsCmd(chain, proto)) == Some(Append(chain, NoDnsRule(proto)))
  {
    hide ParseRule, Denote;
    var j := [OptJ, Verb(Reject)];
    var d := [OptDport, Port(53)] + j;
    ParsePair(OptP, ProtoWord(proto), d, Any);
    ParsePair(OptDport, Port(53), j, Any.(proto := Some(proto)));
    ParseTarget(Verb(Reject), Any.(proto := Some(proto), dport := Some(53)));
    DenoteRule(A, chain, [OptP, ProtoWord(proto)] + d, NoDnsRule(proto));
    assert NoDnsCmd(chain, proto) == [Iptables, Wait, A, Word(chain)] + ([OptP, ProtoWord(proto)] + d);
  }

  function DenyCmd(chain: string, c: Cidr): Cmd {
    [Iptables, Wait, A, Word(chain), OptD, Net(c), OptJ, Verb(Reject)]
  }

  lemma {:induction false} DenoteDeny(chain: string, c: Cidr)
    ensures Denote(DenyCmd(chain, c)) == Some(Append(chain, DenyRule(c)))
  {
    assert DenyCmd(chain, c)[4..] == [OptD, Net(c)] + [OptJ, Verb(Reject)];
    ParsePair(OptD, Net(c), [OptJ, Verb(Reject)], Any);
    ParseTarget(Verb(Reject), Any.(dst := Some(c)));
  }

  lemma {:induction false} DenoteVerdict(chain: string, t: Target)
    ensures Denote([Iptables, Wait, A, Word(chain), OptJ, Verb(t)]) == Some(Append(chain, Any.(target := t)))
  {
    assert [Iptables, Wait, A, Word(chain), OptJ, Verb(t)][4..] == [OptJ, Verb(t)];
    ParseTarget(Verb(t), Any);
  }

  lemma {:induction false} ParseSubnetJump(subnet: Cidr, chain: string, r: Rule)
    ensures ParseRule([OptS, Net(subnet), OptJ, Word(chain)], r) == Some(r.(src := Some(subnet), target := Jump(chain)))
  {
    assert [OptS, Net(subnet), OptJ, Word(chain)] == [OptS, Net(subnet)] + [OptJ, Word(chain)];
    ParsePair(OptS, Net(subnet), [OptJ, Word(chain)], r);
    ParseTarget(Word(chain), r.(src := Some(subnet)));
  }

  lemma {:induction false} ParseBridgeJump(p: Plan)
    ensures ParseRule([OptI, Word(p.bridge), OptS, Net(p.subnet), OptJ, Word(Ingress(p))], Any) == Some(IngressJump(p))
  {
    var rest := [OptS, Net(p.subnet), OptJ, Word(Ingress(p))];
    assert [OptI, Word(p.bridge), OptS, Net(p.subnet), OptJ, Word(Ingress(p))] == [OptI, Word(p.bridge)] + rest;
    ParsePair(OptI, Word(p.bridge), rest, Any);
    ParseSubnetJump(p.subnet, Ingress(p), Any.(iface := Some(p.bridge)));
  }

  lemma {:induction false} DenoteEgressHook(p: Plan)
    ensures Denote(EgressHook(p)) == Some(InsertFirst(DockerUser, EgressJump(p)))
  {
    var opts := [OptS, Net(p.subnet), OptJ, Word(Egress(p))];
    ParseSubnetJump(p.subnet, Egress(p), Any);
    DenoteInsert(DockerUser, opts, EgressJump(p));
    assert EgressHook(p) == [Iptables, Wait, I, Word(DockerUser), One] + opts;
  }

  lemma {:induction false} DenoteIngressHook(p: Plan)
    ensures Denote(IngressHook(p)) == Some(InsertFirst(Input, IngressJump(p)))
  {
    var opts := [OptI, Word(p.bridge), OptS, Net(p.subnet), OptJ, Word(Ingress(p))];
    ParseBridgeJump(p);
    DenoteInsert(Input, opts, IngressJump(p));
    assert IngressHook(p) == [Iptables, Wait, I, Word(Input), One] + opts;
  }

  lemma {:induction false} DenoteHooks(p: Plan)
    ensures Denote(EgressHook(p)) == Some(InsertFirst(DockerUser, EgressJump(p)))
    ensures Denote(IngressHook(p)) == Some(InsertFirst(Input, IngressJump(p)))
  {
    DenoteEgressHook(p);
    DenoteIngressHook(p);
  }

  lemma {:induction false} DenoteOpen(chain: string)
    ensures Denote(OpenChain(chain)[0]) == Some(NewChain(chain))
    ensures Denote(OpenChain(chain)[1]) == Some(Flush(chain))
  {
  }

  lemma {:induction false} DenoteRemoves(p: Plan)
    ensures var cs := RemoveCmds(p);
            && Denote(cs[0]) == Some(Delete(DockerUser, EgressJump(p)))
            && Denote(cs[1]) == Some(Delete(Input, IngressJump(p)))
            && Denote(cs[2]) == Some(Flush(Egress(p))) && Denote(cs[3]) == Some(DropChain(Egress(p)))
            && Denote(cs[4]) == Some(Flush(Ingress(p))) && Denote(cs[5]) == Some(DropChain(Ingress(p)))
  {
    var cs := RemoveCmds(p);
    ParseSubnetJump(p.subnet, Egress(p), Any);
    DenoteRule(D, DockerUser, [OptS, Net(p.subnet), OptJ, Word(Egress(p))], EgressJump(p));
    assert cs[0] == [Iptables, Wait, D, Word(DockerUser)] + [OptS, Net(p.subnet), OptJ, Word(Egress(p))];
    ParseBridgeJump(p);
    var opts := [OptI, Word(p.bridge), OptS, Net(p.subnet), OptJ, Word(Ingress(p))];
    DenoteRule(D, Input, opts, IngressJump(p));
    assert cs[1] == [Iptables, Wait, D, Word(Input)] + opts;
  }

  /** A check command denotes the same rule, in the same chain, as the command it checks. */
  lemma {:induction false} CheckDenotesSame(cmd: Cmd)
    requires Denote(cmd).Some? && (Denote(cmd).value.Append? || Denote(cmd).value.InsertFirst?) && |cmd| >= 5
    ensures Denote(CheckOf(cmd)) == Some(Check(Denote(cmd).value.chain, Denote(cmd).value.rule))
  {
    if cmd[2] == I {
      assert CheckOf(cmd)[4..] == cmd[5..];
    } else {
      assert CheckOf(cmd)[4..] == cmd[4..];
    }
  }

  /******* First-match evaluation *******/

  /** A block of rules with one verdict decides exactly if one of them matches. */
  lemma {:induction false} BlockDecides(fw: Fw, block: seq<Rule>, rest: seq<Rule>, p: Packet, depth: nat, t: Target)
    requires t.Accept? || t.Reject?
    requires forall i :: 0 <= i < |block| ==> block[i].target == t
    ensures Traverse(fw, block + rest, p, depth) ==
            if SomeMatch(block, p) then (if t.Accept? then Accepted else Rejected)
            else Traverse(fw, rest, p, depth)
  {
    if block == [] {
      assert block + rest == rest;
    } else {
      assert (block + rest)[1..] == block[1..] + rest;
      BlockDecides(fw, block[1..], rest, p, depth, t);
      assert block == [block[0]] + block[1..];
      SomeMatchConcat([block[0]], block[1..], p);
      assert SomeMatch([block[0]], p) <==> Matches([block[0]][0], p);
    }
  }

  predicate DnsPacket(p: Packet) {
    p.proto.Some? && p.dport == 53
  }

  lemma {:induction false} HostContains(a: Addr, b: Addr)
    ensures Host(a).Contains(b) <==> a == b
  {
    assert Pow2(32 - 32) == 1;
  }

  lemma {:induction false} DnsPairMatches(a: Addr, p: Packet)
    ensures Matches(DnsRule(Udp, a), p) || Matches(DnsRule(Tcp, a), p) <==> DnsPacket(p) && p.dst == a
  {
    HostContains(a, p.dst);
    assert p.proto.Some? ==> p.proto.value == Udp || p.proto.value == Tcp;
  }

  ghost predicate SomeMatch(rules: seq<Rule>, p: Packet) {
    exists i :: 0 <= i < |rules| && Matches(rules[i], p)
  }

  lemma {:induction false} SomeMatchConcat(a: seq<Rule>, b: seq<Rule>, p: Packet)
    ensures SomeMatch(a + b, p) <==> SomeMatch(a, p) || SomeMatch(b, p)
  {
    var all := a + b;
    if SomeMatch(a, p) {
      var i :| 0 <= i < |a| && Matches(a[i], p);
      assert Matches(all[i], p);
    }
    if SomeMatch(b, p) {
      var i :| 0 <= i < |b| && Matches(b[i], p);
      assert Matches(all[|a| + i], p);
    }
    if SomeMatch(all, p) {
      var i :| 0 <= i < |all| && Matches(all[i], p);
      assert if i < |a| then Matches(a[i], p) else Matches(b[i - |a|], p);
    }
  }

  lemma {:induction false} DnsRulesMatch(dns: seq<Addr>, p: Packet)
    ensures forall i :: 0 <= i < |DnsRules(dns)| ==> DnsRules(dns)[i].target == Accept
    ensures SomeMatch(DnsRules(dns), p) <==> DnsPacket(p) && p.dst in dns
  {
    if dns != [] {
      var most, a := dns[..|dns| - 1], dns[|dns| - 1];
      DnsRulesMatch(most, p);
      var last := [DnsRule(Udp, a), DnsRule(Tcp, a)];
      assert dns == most + [a];
      SomeMatchConcat(DnsRules(most), last, p);
      DnsPairMatches(a, p);
      assert SomeMatch(last, p) <==> Matches(last[0], p) || Matches(last[1], p);
    }
  }

  predicate Denied(a: Addr) {
    exists i :: 0 <= i < |Ipv4Deny| && Ipv4Deny[i].Contains(a)
  }

  /**
    The egress chain: port 53 over UDP or TCP is accepted to approved endpoints and rejected to
    all others; anything else is rejected exactly if its destination is in a listed CIDR.
  */
  lemma {:induction false} EgressVerdict(fw: Fw, plan: Plan, p: Packet, depth: nat)
    ensures Traverse(fw, EgressRules(plan), p, depth) ==
            if DnsPacket(p) then (if p.dst in plan.dns then Accepted else Rejected)
            else if Denied(p.dst) then Rejected else FellThrough
  {
    LayersDecide(fw, plan.dns, Ipv4Deny, p, depth);
  }

  lemma {:induction false} NoDnsMatches(p: Packet)
    ensures SomeMatch([NoDnsRule(Udp), NoDnsRule(Tcp)], p) <==> DnsPacket(p)
  {
    var noDns := [NoDnsRule(Udp), NoDnsRule(Tcp)];
    assert SomeMatch(noDns, p) <==> Matches(noDns[0], p) || Matches(noDns[1], p);
    assert p.proto.Some? ==> p.proto.value == Udp || p.proto.value == Tcp;
  }

  /** The three layers, for any list of endpoints and any deny list. */
  lemma {:induction false} LayersDecide(fw: Fw, dns: seq<Addr>, denied: seq<Cidr>, p: Packet, depth: nat)
    ensures Traverse(fw, DnsRules(dns) + ([NoDnsRule(Udp), NoDnsRule(Tcp)] + (DenyRules(denied) + [Any])), p, depth) ==
            if DnsPacket(p) then (if p.dst in dns then Accepted else Rejected)
            else if exists i :: 0 <= i < |denied| && denied[i].Contains(p.dst) then Rejected else FellThrough
  {
    var noDns := [NoDnsRule(Udp), NoDnsRule(Tcp)];
    var tail := DenyRules(denied) + [Any];
    DnsRulesMatch(dns, p);
    BlockDecides(fw, DnsRules(dns), noDns + tail, p, depth, Accept);
    BlockDecides(fw, noDns, tail, p, depth, Reject);
    NoDnsMatches(p);
    DenyVerdict(fw, denied, p, depth);
  }

  lemma {:induction false} DenyVerdict(fw: Fw, denied: seq<Cidr>, p: Packet, depth: nat)
    ensures Traverse(fw, DenyRules(denied) + [Any], p, depth) ==
            if exists i :: 0 <= i < |denied| && denied[i].Contains(p.dst) then Rejected else FellThrough
  {
    var rules := DenyRules(denied);
    BlockDecides(fw, rules, [Any], p, depth, Reject);
    assert forall i :: 0 <= i < |rules| ==> (Matches(rules[i], p) <==> denied[i].Contains(p.dst));
    if exists i :: 0 <= i < |denied| && denied[i].Contains(p.dst) {
      var i :| 0 <= i < |denied| && denied[i].Contains(p.dst);
      assert Matches(rules[i], p);
    }
    assert Traverse(fw, [Any], p, depth) == FellThrough;
  }

  /** The input chain accepts DNS to approved endpoints and rejects everything else. */
  lemma {:induction false} IngressVerdict(fw: Fw, plan: Plan, p: Packet, depth: nat)
    ensures Traverse(fw, IngressRules(plan), p, depth) ==
            if DnsPacket(p) && p.dst in plan.dns then Accepted else Rejected
  {
    var last := [Any.(target := Reject)];
    DnsRulesMatch(plan.dns, p);
    BlockDecides(fw, DnsRules(plan.dns), last, p, depth, Accept);
    assert Matches(last[0], p);
  }

  lemma {:induction false} ContainsAt(c: Cidr, size: nat, a: Addr)
    requires c.len <= 32 && size > 0 && Pow2(32 - c.len) == size
    ensures c.Contains(a) <==> a / size == c.base / size
  {
  }

  lemma {:induction false} Powers()
    ensures Pow2(0) == 1 && Pow2(2) == 4 && Pow2(3) == 8 && Pow2(4) == 16
    ensures Pow2(5) == 32 && Pow2(6) == 64 && Pow2(7) == 128 && Pow2(8) == 256
  {
  }

  /** The small blocks of 192.0.0.x. */
  lemma {:induction false} ProtocolAssignmentsLow(a: Addr)
    ensures var b := Ip(192, 0, 0, 0);
            && (Ipv4Deny[6].Contains(a) <==> b <= a < b + 8)
            && (Ipv4Deny[7].Contains(a) <==> a == b + 8)
            && (Ipv4Deny[8].Contains(a) <==> a == b + 11)
            && (Ipv4Deny[9].Contains(a) <==> b + 12 <= a < b + 16)
  {
    Powers();
    assert Ip(192, 0, 0, 0) == 3221225472;
    ContainsAt(Ipv4Deny[6], 8, a);
    ContainsAt(Ipv4Deny[7], 1, a);
    ContainsAt(Ipv4Deny[8], 1, a);
    ContainsAt(Ipv4Deny[9], 4, a);
    hide Pow2;
  }

  /** And the large ones. */
  lemma {:induction false} ProtocolAssignmentsHigh(a: Addr)
    ensures var b := Ip(192, 0, 0, 0);
            && (Ipv4Deny[10].Contains(a) <==> b + 16 <= a < b + 32)
            && (Ipv4Deny[11].Contains(a) <==> b + 32 <= a < b + 64)
            && (Ipv4Deny[12].Contains(a) <==> b + 64 <= a < b + 128)
            && (Ipv4Deny[13].Contains(a) <==> b + 128 <= a < b + 256)
  {
    Powers();
    assert Ip(192, 0, 0, 0) == 3221225472;
    ContainsAt(Ipv4Deny[10], 16, a);
    ContainsAt(Ipv4Deny[11], 32, a);
    ContainsAt(Ipv4Deny[12], 64, a);
    ContainsAt(Ipv4Deny[13], 128, a);
    hide Pow2;
  }

  /** The 192.0.0.x entries cover exactly 192.0.0.0/24 without .9 and .10. */
  lemma {:induction false} ProtocolAssignmentsPartition(a: Addr)
    ensures (exists i :: 6 <= i < 14 && Ipv4Deny[i].Contains(a)) <==>
              Cidr(Ip(192, 0, 0, 0), 24).Contains(a) && a != Ip(192, 0, 0, 9) && a != Ip(192, 0, 0, 10)
  {
    Powers();
    assert Ip(192, 0, 0, 0) == 3221225472;
    ContainsAt(Cidr(Ip(192, 0, 0, 0), 24), 256, a);
    assert Cidr(Ip(192, 0, 0, 0), 24).Contains(a) <==> Ip(192, 0, 0, 0) <= a < Ip(192, 0, 0, 0) + 256;
    ProtocolAssignmentsLow(a);
    ProtocolAssignmentsHigh(a);
    hide Pow2, Cidr.Contains;
  }

  /******* What is denied, octet by octet *******/

  /** The leading octets of an address. */
  lemma {:induction false} Octets(o1: nat, o2: nat, o3: nat, o4: nat)
    requires o1 < 256 && o2 < 256 && o3 < 256 && o4 < 256
    ensures var a := Ip(o1, o2, o3, o4);
            && a / 16777216 == o1 && a / 65536 == o1 * 256 + o2 && a / 256 == (o1 * 256 + o2) * 256 + o3
            && a / 4194304 == o1 * 4 + o2 / 64 && a / 1048576 == o1 * 16 + o2 / 16
            && a / 131072 == o1 * 128 + o2 / 2 && a / 268435456 == o1 / 16
  {
  }

  lemma {:induction false} LargePowers()
    ensures Pow2(8) == 256 && Pow2(16) == 65536 && Pow2(17) == 131072 && Pow2(20) == 1048576
    ensures Pow2(22) == 4194304 && Pow2(24) == 16777216 && Pow2(28) == 268435456
  {
    Powers();
    assert Pow2(12) == 4096 by { assert Pow2(10) == 1024; }
    assert Pow2(16) == 65536 by { assert Pow2(14) == 16384; }
    assert Pow2(20) == 1048576 by { assert Pow2(18) == 262144; }
    assert Pow2(24) == 16777216 by { assert Pow2(22) == 4194304; }
    assert Pow2(28) == 268435456 by { assert Pow2(26) == 67108864; }
  }

  /** The blocks of whole octets and of parts of the second octet. */
  predicate SpecialPurpose(o1: nat, o2: nat, o3: nat, o4: nat) {
    || o1 in {0, 10, 127} || o1 >= 224
    || (o1 == 100 && 64 <= o2 < 128)
    || (o1 == 169 && o2 == 254)
    || (o1 == 172 && 16 <= o2 < 32)
    || (o1 == 192 && o2 == 168)
    || (o1 == 198 && 18 <= o2 < 20)
    || (o1 == 192 && o2 == 0 && o3 == 0 && o4 != 9 && o4 != 10)
    || (o1 == 192 && o2 == 0 && o3 == 2)
    || (o1 == 192 && o2 == 88 && o3 == 99)
    || (o1 == 198 && o2 == 51 && o3 == 100)
    || (o1 == 203 && o2 == 0 && o3 == 113)
  }

  lemma {:induction false} FirstOctetBlocks(o1: nat, o2: nat, o3: nat, o4: nat)
    requires o1 < 256 && o2 < 256 && o3 < 256 && o4 < 256
    ensures var a := Ip(o1, o2, o3, o4);
            && (Ipv4Deny[0].Contains(a) <==> o1 == 0) && (Ipv4Deny[1].Contains(a) <==> o1 == 10)
            && (Ipv4Deny[3].Contains(a) <==> o1 == 127)
            && (Ipv4Deny[20].Contains(a) <==> 224 <= o1 < 240) && (Ipv4Deny[21].Contains(a) <==> 240 <= o1)
  {
    var a := Ip(o1, o2, o3, o4);
    Octets(o1, o2, o3, o4);
    LargePowers();
    ContainsAt(Ipv4Deny[0], 16777216, a);
    ContainsAt(Ipv4Deny[1], 16777216, a);
    ContainsAt(Ipv4Deny[3], 16777216, a);
    ContainsAt(Ipv4Deny[20], 268435456, a);
    ContainsAt(Ipv4Deny[21], 268435456, a);
    hide Pow2, Cidr.Contains;
  }

  lemma {:induction false} SecondOctetBlocks(o1: nat, o2: nat, o3: nat, o4: nat)
    requires o1 < 256 && o2 < 256 && o3 < 256 && o4 < 256
    ensures var a := Ip(o1, o2, o3, o4);
            && (Ipv4Deny[2].Contains(a) <==> o1 == 100 && 64 <= o2 < 128)
            && (Ipv4Deny[4].Contains(a) <==> o1 == 169 && o2 == 254)
            && (Ipv4Deny[5].Contains(a) <==> o1 == 172 && 16 <= o2 < 32)
  {
    var a := Ip(o1, o2, o3, o4);
    Octets(o1, o2, o3, o4);
    LargePowers();
    ContainsAt(Ipv4Deny[2], 4194304, a);
    ContainsAt(Ipv4Deny[4], 65536, a);
    ContainsAt(Ipv4Deny[5], 1048576, a);
    hide Pow2, Cidr.Contains;
  }

  lemma {:induction false} MoreSecondOctetBlocks(o1: nat, o2: nat, o3: nat, o4: nat)
    requires o1 < 256 && o2 < 256 && o3 < 256 && o4 < 256
    ensures var a := Ip(o1, o2, o3, o4);
            && (Ipv4Deny[16].Contains(a) <==> o1 == 192 && o2 == 168)
            && (Ipv4Deny[17].Contains(a) <==> o1 == 198 && 18 <= o2 < 20)
  {
    var a := Ip(o1, o2, o3, o4);
    Octets(o1, o2, o3, o4);
    LargePowers();
    ContainsAt(Ipv4Deny[16], 65536, a);
    ContainsAt(Ipv4Deny[17], 131072, a);
    hide Pow2, Cidr.Contains;
  }

  lemma {:induction false} ThirdOctetBlocks(o1: nat, o2: nat, o3: nat, o4: nat)
    requires o1 < 256 && o2 < 256 && o3 < 256 && o4 < 256
    ensures var a := Ip(o1, o2, o3, o4);
            && (Ipv4Deny[14].Contains(a) <==> o1 == 192 && o2 == 0 && o3 == 2)
            && (Ipv4Deny[15].Contains(a) <==> o1 == 192 && o2 == 88 && o3 == 99)
            && (Ipv4Deny[18].Contains(a) <==> o1 == 198 && o2 == 51 && o3 == 100)
            && (Ipv4Deny[19].Contains(a) <==> o1 == 203 && o2 == 0 && o3 == 113)
            && (Cidr(Ip(192, 0, 0, 0), 24).Contains(a) <==> o1 == 192 && o2 == 0 && o3 == 0)
  {
    var a := Ip(o1, o2, o3, o4);
    Octets(o1, o2, o3, o4);
    LargePowers();
    ContainsAt(Ipv4Deny[14], 256, a);
    ContainsAt(Ipv4Deny[15], 256, a);
    ContainsAt(Ipv4Deny[18], 256, a);
    ContainsAt(Ipv4Deny[19], 256, a);
    ContainsAt(Cidr(Ip(192, 0, 0, 0), 24), 256, a);
    hide Pow2, Cidr.Contains;
  }

  /** Which addresses are denied, written in their octets. */
  lemma {:induction false} DeniedExactly(o1: nat, o2: nat, o3: nat, o4: nat)
    requires o1 < 256 && o2 < 256 && o3 < 256 && o4 < 256
    ensures Denied(Ip(o1, o2, o3, o4)) <==> SpecialPurpose(o1, o2, o3, o4)
  {
    var a := Ip(o1, o2, o3, o4);
    FirstOctetBlocks(o1, o2, o3, o4);
    SecondOctetBlocks(o1, o2, o3, o4);
    MoreSecondOctetBlocks(o1, o2, o3, o4);
    ThirdOctetBlocks(o1, o2, o3, o4);
    ProtocolAssignmentsPartition(a);
    assert |Ipv4Deny| == 22;
    hide Cidr.Contains, Pow2;
  }

  /******* Executing the whole plan *******/

  lemma {:induction false} ExecSplit(fw: Fw, a: seq<Cmd>, b: seq<Cmd>)
    ensures ExecAll(fw, a + b) ==
            if ExecAll(fw, a).Some? then ExecAll(ExecAll(fw, a).value, b) else None
  {
    if b == [] {
      assert a + b == a;
    } else {
      ExecSplit(fw, a, b[..|b| - 1]);
      assert (a + b)[..|a + b| - 1] == a + b[..|b| - 1];
    }
  }

  ghost predicate Appends(cmds: seq<Cmd>, chain: string, rules: seq<Rule>) {
    && |cmds| == |rules|
    && forall i :: 0 <= i < |cmds| ==>
         |cmds[i]| >= 5 && Denote(cmds[i]) == Some(Append(chain, rules[i])) && !rules[i].target.Jump?
  }

  lemma {:induction false} AppendsConcat(a: seq<Cmd>, b: seq<Cmd>, chain: string, rs: seq<Rule>, ss: seq<Rule>)
    requires Appends(a, chain, rs) && Appends(b, chain, ss)
    ensures Appends(a + b, chain, rs + ss)
  {
    hide Denote;
  }

  lemma {:induction false} AppendsExec(fw: Fw, cmds: seq<Cmd>, chain: string, rules: seq<Rule>)
    requires Appends(cmds, chain, rules) && chain in fw
    ensures ExecAll(fw, cmds) == Some(fw[chain := fw[chain] + rules])
  {
    if cmds == [] {
      assert rules == [] && fw[chain] + [] == fw[chain];
      assert fw[chain := fw[chain]] == fw;
    } else {
      var n := |cmds| - 1;
      AppendsExec(fw, cmds[..n], chain, rules[..n]);
      assert fw[chain] + rules == fw[chain] + rules[..n] + [rules[n]];
      assert Denote(cmds[n]) == Some(Append(chain, rules[n]));
      var before := fw[chain := fw[chain] + rules[..n]];
      assert before[chain := before[chain] + [rules[n]]] == fw[chain := fw[chain] + rules];
    }
  }

  lemma {:induction false} DnsAppends(chain: string, dns: seq<Addr>)
    ensures Appends(DnsCmds(chain, dns), chain, DnsRules(dns))
  {
    hide Denote, ParseRule;
    if dns != [] {
      var most, a := dns[..|dns| - 1], dns[|dns| - 1];
      DnsAppends(chain, most);
      DenoteDns(chain, Udp, a);
      DenoteDns(chain, Tcp, a);
      AppendsConcat(DnsCmds(chain, most), [DnsCmd(chain, Udp, a), DnsCmd(chain, Tcp, a)], chain,
                    DnsRules(most), [DnsRule(Udp, a), DnsRule(Tcp, a)]);
    }
  }

  lemma {:induction false} DenyAppends(chain: string, denied: seq<Cidr>)
    ensures Appends(DenyCmds(chain, denied), chain, DenyRules(denied))
  {
    hide Denote, ParseRule;
    if denied != [] {
      var most, c := denied[..|denied| - 1], denied[|denied| - 1];
      DenyAppends(chain, most);
      DenoteDeny(chain, c);
      AppendsConcat(DenyCmds(chain, most), [DenyCmd(chain, c)], chain, DenyRules(most), [DenyRule(c)]);
      assert DenyRules(denied) == DenyRules(most) + [DenyRule(c)];
    }
  }

  function EgressBody(p: Plan): seq<Cmd> {
    DnsCmds(Egress(p), p.dns)
    + ([NoDnsCmd(Egress(p), Udp), NoDnsCmd(Egress(p), Tcp)]
    + (DenyCmds(Egress(p), Ipv4Deny) + [[Iptables, Wait, A, Word(Egress(p)), OptJ, Verb(Return)]]))
  }

  function IngressBody(p: Plan): seq<Cmd> {
    DnsCmds(Ingress(p), p.dns) + [[Iptables, Wait, A, Word(Ingress(p)), OptJ, Verb(Reject)]]
  }

  lemma {:induction false} EgressAppends(p: Plan)
    ensures Appends(EgressBody(p), Egress(p), EgressRules(p))
  {
    var c := Egress(p);
    DnsAppends(c, p.dns);
    DenoteNoDns(c, Udp);
    DenoteNoDns(c, Tcp);
    DenyAppends(c, Ipv4Deny);
    DenoteVerdict(c, Return);
    var last := [[Iptables, Wait, A, Word(c), OptJ, Verb(Return)]];
    var noDns := [NoDnsCmd(c, Udp), NoDnsCmd(c, Tcp)];
    AppendsConcat(DenyCmds(c, Ipv4Deny), last, c, DenyRules(Ipv4Deny), [Any]);
    AppendsConcat(noDns, DenyCmds(c, Ipv4Deny) + last, c, [NoDnsRule(Udp), NoDnsRule(Tcp)], DenyRules(Ipv4Deny) + [Any]);
    AppendsConcat(DnsCmds(c, p.dns), noDns + (DenyCmds(c, Ipv4Deny) + last), c, DnsRules(p.dns),
                  [NoDnsRule(Udp), NoDnsRule(Tcp)] + (DenyRules(Ipv4Deny) + [Any]));
  }

  lemma {:induction false} IngressAppends(p: Plan)
    ensures Appends(IngressBody(p), Ingress(p), IngressRules(p))
  {
    var c := Ingress(p);
    DnsAppends(c, p.dns);
    DenoteVerdict(c, Reject);
    AppendsConcat(DnsCmds(c, p.dns), [[Iptables, Wait, A, Word(c), OptJ, Verb(Reject)]], c,
                  DnsRules(p.dns), [Any.(target := Reject)]);
  }

  lemma {:induction false} OneCmd(fw: Fw, cmd: Cmd)
    ensures ExecAll(fw, [cmd]) == ExecCmd(fw, cmd)
  {
    assert [cmd][..0] == [];
  }

  lemma {:induction false} OpenExec(fw: Fw, chain: string)
    requires chain !in fw
    ensures ExecAll(fw, OpenChain(chain)) == Some(fw[chain := []])
  {
    var open := OpenChain(chain);
    DenoteOpen(chain);
    OneCmd(fw, open[0]);
    assert open[..1] == [open[0]];
    assert fw[chain := []][chain := []] == fw[chain := []];
  }

  lemma {:induction false} ThenAppends(fw: Fw, open: seq<Cmd>, emptied: Fw, chain: string, body: seq<Cmd>, rules: seq<Rule>)
    requires ExecAll(fw, open) == Some(emptied)
    requires chain in emptied && emptied[chain] == [] && Appends(body, chain, rules)
    ensures ExecAll(fw, open + body) == Some(emptied[chain := rules])
  {
    ExecSplit(fw, open, body);
    AppendsExec(emptied, body, chain, rules);
    assert emptied[chain] + rules == rules;
  }

  /** A new chain, flushed and filled. */
  lemma {:induction false} FillChain(fw: Fw, chain: string, body: seq<Cmd>, rules: seq<Rule>)
    requires chain !in fw && Appends(body, chain, rules)
    ensures ExecAll(fw, OpenChain(chain) + body) == Some(fw[chain := rules])
  {
    OpenExec(fw, chain);
    ThenAppends(fw, OpenChain(chain), fw[chain := []], chain, body, rules);
    assert fw[chain := []][chain := rules] == fw[chain := rules];
  }

  /** The built-in chains exist; this plan's chains do not, and nothing jumps to them. */
  ghost predicate Untouched(fw: Fw, p: Plan) {
    && DockerUser in fw && Input in fw
    && Egress(p) !in fw && Ingress(p) !in fw
    && !Refers(fw, Egress(p)) && !Refers(fw, Ingress(p))
  }

  function Applied(fw: Fw, p: Plan): Fw
    requires DockerUser in fw && Input in fw
  {
    fw[Egress(p) := EgressRules(p)][DockerUser := [EgressJump(p)] + fw[DockerUser]]
      [Ingress(p) := IngressRules(p)][Input := [IngressJump(p)] + fw[Input]]
  }

  function EgressApplied(fw: Fw, p: Plan): Fw
    requires DockerUser in fw
  {
    fw[Egress(p) := EgressRules(p)][DockerUser := [EgressJump(p)] + fw[DockerUser]]
  }

  /** Open and fill a chain, then hook it first into another. */
  lemma {:induction false} ChainThenHook(fw: Fw, chain: string, body: seq<Cmd>, rules: seq<Rule>, hook: Cmd, at: string, jump: Rule)
    requires chain !in fw && at in fw && Appends(body, chain, rules)
    requires Denote(hook) == Some(InsertFirst(at, jump)) && jump.target == Jump(chain)
    ensures ExecAll(fw, OpenChain(chain) + body + [hook]) == Some(fw[chain := rules][at := [jump] + fw[at]])
  {
    FillChain(fw, chain, body, rules);
    ExecSplit(fw, OpenChain(chain) + body, [hook]);
    OneCmd(fw[chain := rules], hook);
  }

  lemma {:induction false} ApplyEgress(fw: Fw, p: Plan)
    requires Untouched(fw, p)
    ensures ExecAll(fw, EgressCmds(p) + [EgressHook(p)]) == Some(EgressApplied(fw, p))
  {
    EgressAppends(p);
    DenoteEgressHook(p);
    ChainThenHook(fw, Egress(p), EgressBody(p), EgressRules(p), EgressHook(p), DockerUser, EgressJump(p));
  }

  lemma {:induction false} ApplyIngress(fw: Fw, p: Plan)
    requires Ingress(p) !in fw && Input in fw
    ensures ExecAll(fw, IngressCmds(p) + [IngressHook(p)]) ==
            Some(fw[Ingress(p) := IngressRules(p)][Input := [IngressJump(p)] + fw[Input]])
  {
    IngressAppends(p);
    DenoteIngressHook(p);
    ChainThenHook(fw, Ingress(p), IngressBody(p), IngressRules(p), IngressHook(p), Input, IngressJump(p));
  }

  /** From an untouched firewall every command of the plan succeeds, with this result. */
  lemma {:induction false} ApplyAll(fw: Fw, p: Plan)
    requires Untouched(fw, p)
    ensures ExecAll(fw, RuleCmds(p)) == Some(Applied(fw, p))
  {
    Names(p);
    ApplyEgress(fw, p);
    var a, b := EgressCmds(p) + [EgressHook(p)], IngressCmds(p) + [IngressHook(p)];
    assert RuleCmds(p) == a + b;
    ExecSplit(fw, a, b);
    ApplyIngress(EgressApplied(fw, p), p);
  }
}
