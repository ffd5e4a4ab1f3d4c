/** The plan compiler with its loops, and the applier with every command free to fail. */
module Firewall {
  import opened Options
  import opened S = FirewallSpec
  import R = FirewallRollback
  import opened FirewallResults

  /** firewall_rule_argv */
  method FirewallRuleArgv(plan: Plan) returns (commands: seq<Cmd>)
    ensures commands == RuleCmds(plan)
  {
    var chain := Egress(plan);
    commands := [];
    commands := commands + [[Iptables, Wait, N, Word(chain)]];
    commands := commands + [[Iptables, Wait, F, Word(chain)]];
    assert commands == OpenChain(chain);
    commands := AddDns(commands, chain, plan.dns);
    ghost var dnsDone := commands;
    var protocols := [Udp, Tcp];
    for i := 0 to 2
      invariant commands == dnsDone + [NoDnsCmd(chain, Udp), NoDnsCmd(chain, Tcp)][..i]
    {
      commands := commands +
        [[Iptables, Wait, A, Word(chain), OptP, ProtoWord(protocols[i]), OptDport, Port(53), OptJ, Verb(Reject)]];
    }
    ghost var portsDone := commands;
    for i := 0 to |Ipv4Deny|
      invariant commands == portsDone + DenyCmds(chain, Ipv4Deny[..i])
    {
      assert Ipv4Deny[..i + 1][..i] == Ipv4Deny[..i];
      commands := commands + [[Iptables, Wait, A, Word(chain), OptD, Net(Ipv4Deny[i]), OptJ, Verb(Reject)]];
    }
    assert Ipv4Deny[..|Ipv4Deny|] == Ipv4Deny;
    commands := commands + [[Iptables, Wait, A, Word(chain), OptJ, Verb(Return)]];
    EgressShape(plan);
    assert commands == EgressCmds(plan);
    commands := commands + [[Iptables, Wait, I, Word(DockerUser), One, OptS, Net(plan.subnet), OptJ, Word(chain)]];
    ghost var egressDone := commands;
    var input := Ingress(plan);
    var inputCommands := [[Iptables, Wait, N, Word(input)], [Iptables, Wait, F, Word(input)]];
    inputCommands := AddDns(inputCommands, input, plan.dns);
    inputCommands := inputCommands + [[Iptables, Wait, A, Word(input), OptJ, Verb(Reject)]];
    assert inputCommands == IngressCmds(plan);
    commands := commands + inputCommands;
    commands := commands +
      [[Iptables, Wait, I, Word(Input), One, OptI, Word(plan.bridge), OptS, Net(plan.subnet), OptJ, Word(input)]];
  }

  lemma {:induction false} EgressShape(p: Plan)
    ensures OpenChain(Egress(p)) + DnsCmds(Egress(p), p.dns) + [NoDnsCmd(Egress(p), Udp), NoDnsCmd(Egress(p), Tcp)][..2]
            + DenyCmds(Egress(p), Ipv4Deny) + [[Iptables, Wait, A, Word(Egress(p)), OptJ, Verb(Return)]] == EgressCmds(p)
  {
    Regroup(OpenChain(Egress(p)), DnsCmds(Egress(p), p.dns), [NoDnsCmd(Egress(p), Udp), NoDnsCmd(Egress(p), Tcp)],
            DenyCmds(Egress(p), Ipv4Deny), [[Iptables, Wait, A, Word(Egress(p)), OptJ, Verb(Return)]]);
  }

  lemma {:induction false} Regroup(a: seq<Cmd>, b: seq<Cmd>, c: seq<Cmd>, d: seq<Cmd>, e: seq<Cmd>)
    ensures a + b + c[..|c|] + d + e == a + (b + (c + (d + e)))
  {
  }

  /** The endpoint loop shared by both chains. */
  method AddDns(commands: seq<Cmd>, chain: string, dns: seq<Addr>) returns (all: seq<Cmd>)
    ensures all == commands + DnsCmds(chain, dns)
  {
    all := commands;
    for i := 0 to |dns|
      invariant all == commands + DnsCmds(chain, dns[..i])
    {
      assert dns[..i + 1][..i] == dns[..i];
      all := all + [DnsCmd(chain, Udp, dns[i])] + [DnsCmd(chain, Tcp, dns[i])];
    }
    assert dns[..|dns|] == dns;
  }

  /** The action of a rule command replaced, its position dropped. */
  method CheckArgv(command: Cmd) returns (check: Cmd)
    requires |command| >= 5
    ensures check == CheckOf(command)
  {
    check := command[2 := C];
    if command[2] == I {
      check := check[..4] + check[5..];
    }
  }

  /** firewall_verification_argv */
  method FirewallVerificationArgv(plan: Plan) returns (checks: seq<Cmd>)
    ensures checks == VerifyCmds(plan)
  {
    hide CheckOf, RuleCmds;
    var commands := FirewallRuleArgv(plan);
    checks := [[IpTool, LinkWord, Show, Dev, Word(plan.bridge)]];
    for i := 0 to |commands|
      invariant checks == [LinkCmd(plan)] + CheckCmds(commands[..i])
    {
      assert commands[..i + 1][..i] == commands[..i];
      var command := commands[i];
      if |command| < 5 || command[2] == N || command[2] == F {
        continue;
      }
      var check := CheckArgv(command);
      checks := checks + [check];
    }
    assert commands[..|commands|] == commands;
  }

  /** What Docker and the host do during one call. */
  datatype CreateAct = Creates | CreatesThenRaises | CreateFails
  datatype RmAct = Removes | RemovesThenRaises | RmFails

  datatype Env = Env(
    create: CreateAct, inspect: bool, rm: RmAct,
    failAt: Option<nat>,  // this rule command reports failure
    failTakesEffect: bool,
    link: bool,           // the bridge exists here
    checkFailAt: Option<nat>,  // this verification command reports failure
    works: seq<bool>)     // the six cleanup commands

  /** No verification command fails by itself. */
  predicate ChecksRun(e: Env, p: Plan) {
    e.checkFailAt.Some? ==> e.checkFailAt.value >= |VerifyCmds(p)|
  }

  ghost predicate Cleans(e: Env) {
    e.inspect && e.rm.Removes? && e.works == R.AllWork
  }

  /** What is left of the network, and whether removing it raised; a network of another plan stays. */
  function RemoveOwned(network: Option<string>, identity: string, e: Env): (Option<string>, bool) {
    if !e.inspect then (network, true)
    else if network.None? then (None, false)
    else if network.value != identity || e.rm.RmFails? then (network, true)
    else (None, e.rm.RemovesThenRaises?)
  }

  class NetworkPolicyApplier {
    var fw: Fw
    var network: Option<string>  // the plan identity label of the network of this name

    constructor (fw: Fw)
      ensures this.fw == fw && network == None
    {
      this.fw, network := fw, None;
    }

    /** _remove_owned_network: success means that no network is left, another plan's is never touched. */
    method RemoveOwnedNetwork(identity: string, e: Env) returns (raised: bool)
      modifies this`network
      ensures (network, raised) == RemoveOwned(old(network), identity, e)
      ensures !raised ==> network.None?
      ensures network == old(network) || (old(network) == Some(identity) && network.None?)
    {
      if !e.inspect {
        return true;
      }
      if network.None? {
        return false;
      }
      if network.value != identity {
        return true;
      }
      if e.rm.RmFails? {
        return true;
      }
      network := None;
      return e.rm.RemovesThenRaises?;
    }

    /** remove: first the network, then, only if it is gone, the rules. */
    method Remove(plan: Plan, identity: string, e: Env) returns (raised: bool)
      requires |e.works| == 6
      modifies this
      ensures var (left, stuck) := RemoveOwned(old(network), identity, e);
              && network == left
              && if stuck then raised && fw == old(fw)
                 else (fw, raised) == CleanupAll(old(fw), RemoveCmds(plan), e.works)
      ensures fw != old(fw) ==> network.None?
      ensures network == old(network) || (old(network) == Some(identity) && network.None?)
      ensures !raised ==> network.None? && e.works == R.AllWork
      ensures Cleans(e) && (old(network).None? || old(network) == Some(identity)) ==>
                && network.None? && fw == CleanupAll(old(fw), RemoveCmds(plan), R.AllWork).0
                && raised == CleanupAll(old(fw), RemoveCmds(plan), R.AllWork).1
    {
      raised := RemoveOwnedNetwork(identity, e);
      if raised {
        return;
      }
      var commands := RemoveCmds(plan);
      for i := 0 to 6
        invariant (fw, raised) == CleanupAll(old(fw), commands[..i], e.works[..i])
        invariant network.None? && (network == old(network) || old(network) == Some(identity))
      {
        R.CleanupStep(old(fw), commands, e.works, i);
        var left, fails := CleanupCmd(fw, commands[i], e.works[i]).0, CleanupCmd(fw, commands[i], e.works[i]).1;
        fw := left;
        raised := raised || fails;
      }
      assert commands[..6] == commands && e.works[..6] == e.works;
      if !raised {
        R.SilentRemovalWorked(old(fw), commands, e.works);
        assert e.works == R.AllWork;
      }
    }

    /** The rule loop: it ends at the first command that reports failure, which may have taken effect. */
    method RunRules(commands: seq<Cmd>, e: Env) returns (failed: bool, ghost done: nat)
      modifies this`fw
      ensures done <= |commands| && ExecAll(old(fw), commands[..done]) == Some(fw)
      ensures !failed ==> done == |commands|
      ensures failed && e.failAt.None? ==> ExecAll(old(fw), commands).None?
    {
      failed, done := false, 0;
      for i := 0 to |commands|
        invariant done == i && ExecAll(old(fw), commands[..i]) == Some(fw)
      {
        assert commands[..i + 1][..i] == commands[..i];
        var next := ExecCmd(fw, commands[i]);
        if e.failAt == Some(i) || next.None? {
          failed := true;
          if e.failTakesEffect && next.Some? {
            fw := next.value;
            done := i + 1;
          }
          if next.None? {
            Stuck(old(fw), commands, i + 1);
          }
          return;
        }
        fw := next.value;
        done := i + 1;
      }
    }

    /**
      verify: it counts all verification commands exactly if the bridge is here, every rule of the
      plan is installed and no command fails by itself. It changes nothing.
    */
    method Verify(plan: Plan, e: Env) returns (verified: Option<nat>)
      ensures verified.Some? <==> e.link && R.PlanInstalled(fw, plan) && ChecksRun(e, plan)
      ensures verified.Some? ==> verified.value == |VerifyCmds(plan)|
    {
      R.VerifyDecides(fw, plan);
      hide CheckCmds, RuleCmds, R.PlanInstalled, ExecAll;
      var commands := FirewallVerificationArgv(plan);
      var count := 0;
      for i := 0 to |commands|
        invariant count == i
        invariant i > 0 ==> e.link
        invariant forall k :: 1 <= k < i ==> ExecCmd(fw, commands[k]).Some?
        invariant e.checkFailAt.Some? ==> e.checkFailAt.value >= i
      {
        var passes := if i == 0 then e.link else ExecCmd(fw, commands[i]).Some?;
        if !passes || e.checkFailAt == Some(i) {
          assert i > 0 ==> commands[i] == CheckCmds(RuleCmds(plan))[i - 1];
          return None;
        }
        count := count + 1;
      }
      var checks := CheckCmds(RuleCmds(plan));
      assert R.AllPass(fw, checks) by {
        forall k | 0 <= k < |checks|
          ensures ExecCmd(fw, checks[k]).Some?
        {
          assert checks[k] == commands[k + 1];
        }
      }
      verified := Some(count);
    }

    /** The except branch of apply. */
    method RollBack(plan: Plan, identity: string, e: Env, ghost before: Fw, ghost done: nat)
      requires |e.works| == 6 && network == Some(identity)
      requires done <= |RuleCmds(plan)| && ExecAll(before, RuleCmds(plan)[..done]) == Some(fw)
      modifies this
      ensures Untouched(before, plan) && Cleans(e) ==> fw == before && network.None?
      ensures network.Some? ==> fw == old(fw)
    {
      var _ := Remove(plan, identity, e);
      if Untouched(before, plan) {
        R.FailedApplyRollsBack(before, plan, done);
      }
    }

    /**
      apply: create the network, run the rule commands, verify; on any failure remove again.
      With working cleanup a failed apply leaves the firewall and the network as they were; while
      the network is left, every rule command that took effect still stands.
    */
    method Apply(plan: Plan, identity: string, e: Env) returns (ok: bool)
      requires |e.works| == 6
      modifies this
      ensures ok ==> network == Some(identity) && Some(fw) == ExecAll(old(fw), RuleCmds(plan))
      ensures ok ==> e.link && R.PlanInstalled(fw, plan)
      ensures old(network).Some? && old(network) != Some(identity) ==> !ok && network == old(network) && fw == old(fw)
      ensures old(network).None? && Untouched(old(fw), plan) && !ok && Cleans(e) ==> fw == old(fw) && network.None?
      ensures !ok && network.Some? && old(network).None? ==>
                exists k: nat :: k <= |RuleCmds(plan)| && ExecAll(old(fw), RuleCmds(plan)[..k]) == Some(fw)
      ensures old(network).None? && Untouched(old(fw), plan) && e.create.Creates? && e.failAt.None? && e.link && ChecksRun(e, plan) ==>
                ok && fw == Applied(old(fw), plan)
    {
      if network.Some? || !e.create.Creates? {
        if network.None? && e.create.CreatesThenRaises? {
          network := Some(identity);
        }
        var _ := RemoveOwnedNetwork(identity, e);
        assert ExecAll(fw, RuleCmds(plan)[..0]) == Some(fw);
        return false;
      }
      network := Some(identity);
      var commands := FirewallRuleArgv(plan);
      ghost var before := fw;
      var failed, done := RunRules(commands, e);
      if Untouched(before, plan) {
        ApplyAll(before, plan);
        R.VerifyAfterApply(before, plan);
      }
      if !failed {
        assert commands[..|commands|] == commands;
        var verified := Verify(plan, e);
        if verified.Some? {
          return true;
        }
      }
      assert done <= |RuleCmds(plan)| && ExecAll(before, RuleCmds(plan)[..done]) == Some(fw);
      RollBack(plan, identity, e, before, done);
      return false;
    }
  }

  /** A command that is refused ends every longer execution. */
  lemma {:induction false} Stuck(fw: Fw, commands: seq<Cmd>, n: nat)
    requires n <= |commands| && ExecAll(fw, commands[..n]).None?
    ensures ExecAll(fw, commands).None?
  {
    ExecSplit(fw, commands[..n], commands[n..]);
    assert commands == commands[..n] + commands[n..];
  }
}
