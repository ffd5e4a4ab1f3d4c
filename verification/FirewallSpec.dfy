/** Firewall plans, the commands they are compiled to and what those commands mean to iptables. */
module FirewallSpec {
  import opened Options

  type Addr = nat

  function Pow2(n: nat): (r: nat)
    ensures r > 0
  {
    if n == 0 then 1 else 2 * Pow2(n - 1)
  }

  datatype Cidr = Cidr(base: Addr, len: nat) {
    predicate Contains(a: Addr) {
      len <= 32 && a / Pow2(32 - len) == base / Pow2(32 - len)
    }
  }

  function Ip(a: nat, b: nat, c: nat, d: nat): Addr {
    ((a * 256 + b) * 256 + c) * 256 + d
  }

  const Ipv4Deny: seq<Cidr> := [
    Cidr(Ip(0, 0, 0, 0), 8),
    Cidr(Ip(10, 0, 0, 0), 8),
    Cidr(Ip(100, 64, 0, 0), 10),
    Cidr(Ip(127, 0, 0, 0), 8),
    Cidr(Ip(169, 254, 0, 0), 16),
    Cidr(Ip(172, 16, 0, 0), 12),
    Cidr(Ip(192, 0, 0, 0), 29),
    Cidr(Ip(192, 0, 0, 8), 32),
    Cidr(Ip(192, 0, 0, 11), 32),
    Cidr(Ip(192, 0, 0, 12), 30),
    Cidr(Ip(192, 0, 0, 16), 28),
    Cidr(Ip(192, 0, 0, 32), 27),
    Cidr(Ip(192, 0, 0, 64), 26),
    Cidr(Ip(192, 0, 0, 128), 25),
    Cidr(Ip(192, 0, 2, 0), 24),
    Cidr(Ip(192, 88, 99, 0), 24),
    Cidr(Ip(192, 168, 0, 0), 16),
    Cidr(Ip(198, 18, 0, 0), 15),
    Cidr(Ip(198, 51, 100, 0), 24),
    Cidr(Ip(203, 0, 113, 0), 24),
    Cidr(Ip(224, 0, 0, 0), 4),
    Cidr(Ip(240, 0, 0, 0), 4)]

  /** `digest` stands for the first eight hex digits, in upper case, of a SHA-256. */
  datatype Plan = Plan(network: string, bridge: string, subnet: Cidr, dns: seq<Addr>, digest: string -> string)

  function Alphanumeric(s: string): string {
    if s == "" then ""
    else
      var c := s[0];
      if '0' <= c <= '9' || 'A' <= c <= 'Z' then [c] + Alphanumeric(s[1..])
      else if 'a' <= c <= 'z' then [(c as int - 32) as char] + Alphanumeric(s[1..])
      else Alphanumeric(s[1..])
  }

  function First9(s: string): string {
    if |s| <= 9 then s else s[..9]
  }

  function Egress(p: Plan): string {
    "NL4E" + First9(Alphanumeric(p.network)) + p.digest("egress:" + p.network)
  }

  function Ingress(p: Plan): string {
    "NL4I" + First9(Alphanumeric(p.network)) + p.digest("input:" + p.network)
  }

  const DockerUser := "DOCKER-USER"
  const Input := "INPUT"

  /******* Rules *******/

  datatype Proto = Udp | Tcp
  datatype Target = Accept | Reject | Return | Jump(chain: string)

  datatype Rule = Rule(
    proto: Option<Proto>, iface: Option<string>, src: Option<Cidr>, dst: Option<Cidr>, dport: Option<nat>, target: Target)

  const Any := Rule(None, None, None, None, None, Return)

  /** `proto` is None for protocols other than UDP and TCP. */
  datatype Packet = Packet(proto: Option<Proto>, iface: string, src: Addr, dst: Addr, dport: nat)

  predicate Matches(r: Rule, p: Packet) {
    && (r.proto.Some? ==> r.proto == p.proto)
    && (r.iface.Some? ==> r.iface.value == p.iface)
    && (r.src.Some? ==> r.src.value.Contains(p.src))
    && (r.dst.Some? ==> r.dst.value.Contains(p.dst))
    && (r.dport.Some? ==> p.proto.Some? && r.dport.value == p.dport)
  }

  type Fw = map<string, seq<Rule>>

  datatype Verdict = Accepted | Rejected | FellThrough

  /** First match; a jump continues in its chain, at most `depth` chains deep, and comes back on a return. */
  function Traverse(fw: Fw, rules: seq<Rule>, p: Packet, depth: nat): Verdict
    decreases depth, |rules|
  {
    if rules == [] then FellThrough
    else if !Matches(rules[0], p) then Traverse(fw, rules[1..], p, depth)
    else
      match rules[0].target
      case Accept => Accepted
      case Reject => Rejected
      case Return => FellThrough
      case Jump(c) =>
        if depth == 0 || c !in fw then Traverse(fw, rules[1..], p, depth)
        else
          var v := Traverse(fw, fw[c], p, depth - 1);
          if v.FellThrough? then Traverse(fw, rules[1..], p, depth) else v
  }

  /******* Commands *******/

  /** The words of an argument vector. */
  datatype Tok =
    | Iptables | Wait | N | F | A | I | C | D | X | One
    | IpTool | LinkWord | Show | Dev
    | OptP | OptS | OptD | OptI | OptDport | OptJ
    | Word(text: string) | Net(cidr: Cidr) | Port(n: nat) | ProtoWord(proto: Proto) | Verb(target: Target)

  type Cmd = seq<Tok>

  datatype Stmt =
    | NewChain(chain: string)
    | Flush(chain: string)
    | DropChain(chain: string)
    | Append(chain: string, rule: Rule)
    | InsertFirst(chain: string, rule: Rule)
    | Delete(chain: string, rule: Rule)
    | Check(chain: string, rule: Rule)

  /** Options come in pairs. */
  function ParseRule(opts: Cmd, r: Rule): Option<Rule> {
    if opts == [] then Some(r)
    else if |opts| == 1 then None
    else
      match (opts[0], opts[1])
      case (OptP, ProtoWord(p)) => ParseRule(opts[2..], r.(proto := Some(p)))
      case (OptS, Net(c)) => ParseRule(opts[2..], r.(src := Some(c)))
      case (OptD, Net(c)) => ParseRule(opts[2..], r.(dst := Some(c)))
      case (OptI, Word(w)) => ParseRule(opts[2..], r.(iface := Some(w)))
      case (OptDport, Port(n)) => ParseRule(opts[2..], r.(dport := Some(n)))
      case (OptJ, Verb(t)) => ParseRule(opts[2..], r.(target := t))
      case (OptJ, Word(w)) => ParseRule(opts[2..], r.(target := Jump(w)))
      case _ => None
  }

  /** What a command says; None when it is not one of the forms used here. */
  function Denote(cmd: Cmd): Option<Stmt> {
    if |cmd| < 4 || cmd[0] != Iptables || cmd[1] != Wait || !cmd[3].Word? then None
    else
      var chain := cmd[3].text;
      var rest := ParseRule(cmd[4..], Any);
      match cmd[2]
      case N => if |cmd| == 4 then Some(NewChain(chain)) else None
      case F => if |cmd| == 4 then Some(Flush(chain)) else None
      case X => if |cmd| == 4 then Some(DropChain(chain)) else None
      case A => if rest.Some? then Some(Append(chain, rest.value)) else None
      case D => if rest.Some? then Some(Delete(chain, rest.value)) else None
      case C => if rest.Some? then Some(Check(chain, rest.value)) else None
      case I =>
        if |cmd| < 5 || cmd[4] != One then None
        else
          var r := ParseRule(cmd[5..], Any);
          if r.Some? then Some(InsertFirst(chain, r.value)) else None
      case _ => None
  }

  /******* iptables *******/

  predicate Refers(fw: Fw, chain: string) {
    exists c :: c in fw && exists r :: r in fw[c] && r.target == Jump(chain)
  }

  predicate TargetExists(fw: Fw, r: Rule) {
    r.target.Jump? ==> r.target.chain in fw
  }

  function WithoutFirst(rules: seq<Rule>, r: Rule): seq<Rule> {
    if rules == [] then [] else if rules[0] == r then rules[1..] else [rules[0]] + WithoutFirst(rules[1..], r)
  }

  /** The effect of a statement; None when iptables refuses it. */
  function Exec(fw: Fw, s: Stmt): Option<Fw> {
    match s
    case NewChain(c) => if c in fw then None else Some(fw[c := []])
    case Flush(c) => if c in fw then Some(fw[c := []]) else None
    case DropChain(c) => if c in fw && fw[c] == [] && !Refers(fw, c) then Some(fw - {c}) else None
    case Append(c, r) => if c in fw && TargetExists(fw, r) then Some(fw[c := fw[c] + [r]]) else None
    case InsertFirst(c, r) => if c in fw && TargetExists(fw, r) then Some(fw[c := [r] + fw[c]]) else None
    case Delete(c, r) => if c in fw && r in fw[c] then Some(fw[c := WithoutFirst(fw[c], r)]) else None
    case Check(c, r) => if c in fw && r in fw[c] then Some(fw) else None
  }

  function ExecCmd(fw: Fw, cmd: Cmd): Option<Fw> {
    var s := Denote(cmd);
    if s.Some? then Exec(fw, s.value) else None
  }

  function ExecAll(fw: Fw, cmds: seq<Cmd>): Option<Fw> {
    if cmds == [] then Some(fw)
    else
      var before := ExecAll(fw, cmds[..|cmds| - 1]);
      if before.Some? then ExecCmd(before.value, cmds[|cmds| - 1]) else None
  }

  /******* The compiler *******/

  function Host(a: Addr): Cidr {
    Cidr(a, 32)
  }

  function DnsCmd(chain: string, proto: Proto, a: Addr): Cmd {
    [Iptables, Wait, A, Word(chain), OptP, ProtoWord(proto), OptD, Net(Host(a)), OptDport, Port(53), OptJ, Verb(Accept)]
  }

  function DnsCmds(chain: string, dns: seq<Addr>): seq<Cmd> {
    if dns == [] then []
    else
      var a := dns[|dns| - 1];
      DnsCmds(chain, dns[..|dns| - 1]) + [DnsCmd(chain, Udp, a), DnsCmd(chain, Tcp, a)]
  }

  function NoDnsCmd(chain: string, proto: Proto): Cmd {
    [Iptables, Wait, A, Word(chain), OptP, ProtoWord(proto), OptDport, Port(53), OptJ, Verb(Reject)]
  }

  function DenyCmds(chain: string, denied: seq<Cidr>): seq<Cmd> {
    if denied == [] then []
    else DenyCmds(chain, denied[..|denied| - 1])
         + [[Iptables, Wait, A, Word(chain), OptD, Net(denied[|denied| - 1]), OptJ, Verb(Reject)]]
  }

  function OpenChain(chain: string): seq<Cmd> {
    [[Iptables, Wait, N, Word(chain)], [Iptables, Wait, F, Word(chain)]]
  }

  function EgressHook(p: Plan): Cmd {
    [Iptables, Wait, I, Word(DockerUser), One, OptS, Net(p.subnet), OptJ, Word(Egress(p))]
  }

  function IngressHook(p: Plan): Cmd {
    [Iptables, Wait, I, Word(Input), One, OptI, Word(p.bridge), OptS, Net(p.subnet), OptJ, Word(Ingress(p))]
  }

  function EgressCmds(p: Plan): seq<Cmd> {
    OpenChain(Egress(p)) + (DnsCmds(Egress(p), p.dns)
    + ([NoDnsCmd(Egress(p), Udp), NoDnsCmd(Egress(p), Tcp)]
    + (DenyCmds(Egress(p), Ipv4Deny) + [[Iptables, Wait, A, Word(Egress(p)), OptJ, Verb(Return)]])))
  }

  function IngressCmds(p: Plan): seq<Cmd> {
    OpenChain(Ingress(p)) + (DnsCmds(Ingress(p), p.dns) + [[Iptables, Wait, A, Word(Ingress(p)), OptJ, Verb(Reject)]])
  }

  function RuleCmds(p: Plan): seq<Cmd> {
    EgressCmds(p) + [EgressHook(p)] + IngressCmds(p) + [IngressHook(p)]
  }

  /** The check of a rule command: the action replaced, the position dropped. */
  function CheckOf(cmd: Cmd): Cmd
    requires |cmd| >= 5
  {
    if cmd[2] == I then cmd[..2] + [C] + cmd[3..4] + cmd[5..] else cmd[2 := C]
  }

  function CheckCmds(cmds: seq<Cmd>): seq<Cmd> {
    if cmds == [] then []
    else
      var cmd := cmds[|cmds| - 1];
      var rest := CheckCmds(cmds[..|cmds| - 1]);
      if |cmd| < 5 || cmd[2] == N || cmd[2] == F then rest else rest + [CheckOf(cmd)]
  }

  /** `ip link show dev`: the bridge must exist in the launcher's own network namespace. */
  function LinkCmd(p: Plan): Cmd {
    [IpTool, LinkWord, Show, Dev, Word(p.bridge)]
  }

  function VerifyCmds(p: Plan): seq<Cmd> {
    [LinkCmd(p)] + CheckCmds(RuleCmds(p))
  }

  function RemoveCmds(p: Plan): seq<Cmd> {
    [[Iptables, Wait, D, Word(DockerUser), OptS, Net(p.subnet), OptJ, Word(Egress(p))],
     [Iptables, Wait, D, Word(Input), OptI, Word(p.bridge), OptS, Net(p.subnet), OptJ, Word(Ingress(p))],
     [Iptables, Wait, F, Word(Egress(p))],
     [Iptables, Wait, X, Word(Egress(p))],
     [Iptables, Wait, F, Word(Ingress(p))],
     [Iptables, Wait, X, Word(Ingress(p))]]
  }

  /** iptables reports the chain or the rule as already absent. */
  predicate Absent(fw: Fw, s: Stmt) {
    s.chain !in fw || (s.Delete? && s.rule !in fw[s.chain])
  }

  /** One cleanup command: what is left, and whether it counts as a failure. */
  function CleanupCmd(fw: Fw, cmd: Cmd, works: bool): (Fw, bool) {
    var s := Denote(cmd);
    if !works || s.None? then (fw, true)
    else
      var r := Exec(fw, s.value);
      if r.Some? then (r.value, false) else (fw, !Absent(fw, s.value))
  }

  function CleanupAll(fw: Fw, cmds: seq<Cmd>, works: seq<bool>): (Fw, bool)
    requires |cmds| == |works|
  {
    if cmds == [] then (fw, false)
    else
      var n := |cmds| - 1;
      var (before, failed) := CleanupAll(fw, cmds[..n], works[..n]);
      var (after, fails) := CleanupCmd(before, cmds[n], works[n]);
      (after, failed || fails)
  }
}
