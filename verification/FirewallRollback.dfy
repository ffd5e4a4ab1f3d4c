/** Verification of an applied plan, removal, and the traffic that meets the hooks. */
module FirewallRollback {
  import opened Options
  import opened FirewallSpec
  import opened FirewallResults

  /******* verify *******/

  /** A command of the plan: it opens a chain, or it adds a rule that can be checked. */
  ghost predicate Tidy(cmd: Cmd) {
    && Denote(cmd).Some?
    && var s := Denote(cmd).value;
    (s.NewChain? || s.Flush? || s.Append? || s.InsertFirst?) && ((s.Append? || s.InsertFirst?) ==> |cmd| >= 5)
  }

  ghost predicate Installed(fw: Fw, cmd: Cmd)
    requires Tidy(cmd)
  {
    var s := Denote(cmd).value;
    (s.Append? || s.InsertFirst?) ==> s.chain in fw && s.rule in fw[s.chain]
  }

  ghost predicate AllTidy(cmds: seq<Cmd>) {
    forall i :: 0 <= i < |cmds| ==> Tidy(cmds[i])
  }

  ghost predicate AllInstalled(fw: Fw, cmds: seq<Cmd>)
    requires AllTidy(cmds)
  {
    forall i :: 0 <= i < |cmds| ==> Installed(fw, cmds[i])
  }

  lemma {:induction false} InstalledSnoc(fw: Fw, rest: seq<Cmd>, cmd: Cmd)
    requires AllTidy(rest) && Tidy(cmd)
    ensures AllTidy(rest + [cmd])
    ensures AllInstalled(fw, rest + [cmd]) <==> AllInstalled(fw, rest) && Installed(fw, cmd)
  {
    var all := rest + [cmd];
    assert forall i :: 0 <= i < |all| ==> all[i] == if i < |rest| then rest[i] else cmd;
    if AllInstalled(fw, all) {
      assert all[|rest|] == cmd;
      assert forall i :: 0 <= i < |rest| ==> rest[i] == all[i];
    }
  }

  lemma {:induction false} CheckDecides(fw: Fw, cmd: Cmd)
    requires Tidy(cmd) && (Denote(cmd).value.Append? || Denote(cmd).value.InsertFirst?)
    ensures ExecAll(fw, [CheckOf(cmd)]) == if Installed(fw, cmd) then Some(fw) else None
  {
    CheckDenotesSame(cmd);
    OneCmd(fw, CheckOf(cmd));
  }

  lemma {:induction false} CheckCmdsSnoc(rest: seq<Cmd>, cmd: Cmd)
    requires Tidy(cmd)
    ensures CheckCmds(rest + [cmd]) ==
            if Denote(cmd).value.Append? || Denote(cmd).value.InsertFirst? then CheckCmds(rest) + [CheckOf(cmd)]
            else CheckCmds(rest)
  {
    assert (rest + [cmd])[..|rest|] == rest;
  }

  /** The checks of a command list pass exactly if every rule it adds is in its chain; they change nothing. */
  lemma {:induction false} ChecksDecide(fw: Fw, cmds: seq<Cmd>)
    requires AllTidy(cmds)
    ensures ExecAll(fw, CheckCmds(cmds)) == if AllInstalled(fw, cmds) then Some(fw) else None
  {
    if cmds != [] {
      var cmd, rest := cmds[|cmds| - 1], cmds[..|cmds| - 1];
      assert cmds == rest + [cmd];
      assert Tidy(cmd);
      ChecksDecide(fw, rest);
      ChecksDecideOneMore(fw, rest, cmd);
    }
  }

  lemma {:induction false} ChecksDecideOneMore(fw: Fw, rest: seq<Cmd>, cmd: Cmd)
    requires AllTidy(rest) && Tidy(cmd)
    requires ExecAll(fw, CheckCmds(rest)) == if AllInstalled(fw, rest) then Some(fw) else None
    ensures AllTidy(rest + [cmd])
    ensures ExecAll(fw, CheckCmds(rest + [cmd])) == if AllInstalled(fw, rest + [cmd]) then Some(fw) else None
  {
    InstalledSnoc(fw, rest, cmd);
    CheckCmdsSnoc(rest, cmd);
    if Denote(cmd).value.Append? || Denote(cmd).value.InsertFirst? {
      CheckDecides(fw, cmd);
      ExecSplit(fw, CheckCmds(rest), [CheckOf(cmd)]);
    }
  }

  lemma {:induction false} RuleCmdsAt(p: Plan, i: nat)
    requires i < |RuleCmds(p)|
    ensures var n, m := |EgressCmds(p)|, |IngressCmds(p)|;
            && |RuleCmds(p)| == n + m + 2
            && RuleCmds(p)[i] == (if i < n then EgressCmds(p)[i]
                                  else if i == n then EgressHook(p)
                                  else if i < n + 1 + m then IngressCmds(p)[i - n - 1]
                                  else IngressHook(p))
  {
  }

  /** The commands of one chain: open it, then append rules. */
  lemma {:induction false} ChainCmdAt(chain: string, body: seq<Cmd>, rules: seq<Rule>, i: nat)
    requires Appends(body, chain, rules) && i < |OpenChain(chain) + body|
    ensures var cmd := (OpenChain(chain) + body)[i];
            && Tidy(cmd)
            && Denote(cmd) == Some(if i == 0 then NewChain(chain) else if i == 1 then Flush(chain) else Append(chain, rules[i - 2]))
            && (i >= 2 ==> !rules[i - 2].target.Jump?)
  {
    DenoteOpen(chain);
    if i >= 2 {
      assert (OpenChain(chain) + body)[i] == body[i - 2];
    }
  }

  lemma {:induction false} PlanIsTidy(p: Plan)
    ensures AllTidy(RuleCmds(p))
  {
    EgressAppends(p);
    IngressAppends(p);
    DenoteHooks(p);
    forall i | 0 <= i < |RuleCmds(p)|
      ensures Tidy(RuleCmds(p)[i])
    {
      RuleCmdsAt(p, i);
      var n := |EgressCmds(p)|;
      if i < n {
        ChainCmdAt(Egress(p), EgressBody(p), EgressRules(p), i);
      } else if n < i < n + 1 + |IngressCmds(p)| {
        ChainCmdAt(Ingress(p), IngressBody(p), IngressRules(p), i - n - 1);
      }
    }
  }

  /** Every rule of the plan is in its chain. */
  ghost predicate PlanInstalled(fw: Fw, p: Plan) {
    AllTidy(RuleCmds(p)) && AllInstalled(fw, RuleCmds(p))
  }

  ghost predicate AllChecks(cs: seq<Cmd>) {
    forall k :: 0 <= k < |cs| ==> Denote(cs[k]).Some? && Denote(cs[k]).value.Check?
  }

  ghost predicate AllPass(fw: Fw, cs: seq<Cmd>) {
    forall k :: 0 <= k < |cs| ==> ExecCmd(fw, cs[k]).Some?
  }

  lemma {:induction false} ChecksOnly(cmds: seq<Cmd>)
    requires AllTidy(cmds)
    ensures AllChecks(CheckCmds(cmds))
  {
    if cmds != [] {
      var cmd, rest := cmds[|cmds| - 1], cmds[..|cmds| - 1];
      assert cmds == rest + [cmd];
      assert Tidy(cmd);
      ChecksOnly(rest);
      CheckCmdsSnoc(rest, cmd);
      if Denote(cmd).value.Append? || Denote(cmd).value.InsertFirst? {
        CheckDenotesSame(cmd);
      }
    }
  }

  /** Checks change nothing, so they may be run one by one. */
  lemma {:induction false} ChecksRunSingly(fw: Fw, cs: seq<Cmd>)
    requires AllChecks(cs)
    ensures ExecAll(fw, cs) == if AllPass(fw, cs) then Some(fw) else None
  {
    hide Denote, Refers;
    if cs != [] {
      var most := cs[..|cs| - 1];
      assert forall k :: 0 <= k < |most| ==> most[k] == cs[k];
      ChecksRunSingly(fw, most);
      assert AllPass(fw, cs) <==> AllPass(fw, most) && ExecCmd(fw, cs[|cs| - 1]).Some?;
    }
  }

  /** All checks of a plan pass exactly if all of its rules are installed. */
  lemma {:induction false} VerifyDecides(fw: Fw, p: Plan)
    ensures AllPass(fw, CheckCmds(RuleCmds(p))) <==> PlanInstalled(fw, p)
    ensures ExecAll(fw, CheckCmds(RuleCmds(p))) == if PlanInstalled(fw, p) then Some(fw) else None
  {
    PlanIsTidy(p);
    hide AllTidy, AllChecks, AllPass, AllInstalled, CheckCmds, RuleCmds;
    ChecksOnly(RuleCmds(p));
    ChecksRunSingly(fw, CheckCmds(RuleCmds(p)));
    ChecksDecide(fw, RuleCmds(p));
  }

  /** After a complete apply every check passes. */
  lemma {:induction false} VerifyAfterApply(fw: Fw, p: Plan)
    requires Untouched(fw, p)
    ensures ExecAll(Applied(fw, p), CheckCmds(RuleCmds(p))) == Some(Applied(fw, p))
    ensures PlanInstalled(Applied(fw, p), p)
  {
    var fw' := Applied(fw, p);
    EgressAppends(p);
    IngressAppends(p);
    DenoteHooks(p);
    AppliedAt(fw, p);
    forall i | 0 <= i < |RuleCmds(p)|
      ensures Tidy(RuleCmds(p)[i]) && Installed(fw', RuleCmds(p)[i])
    {
      RuleCmdsAt(p, i);
      var n := |EgressCmds(p)|;
      if i < n {
        ChainCmdAt(Egress(p), EgressBody(p), EgressRules(p), i);
      } else if n < i < n + 1 + |IngressCmds(p)| {
        ChainCmdAt(Ingress(p), IngressBody(p), IngressRules(p), i - n - 1);
      } else {
        assert EgressJump(p) in fw'[DockerUser] && IngressJump(p) in fw'[Input];
      }
    }
    ChecksDecide(fw', RuleCmds(p));
  }

  /** The four chains of an applied plan, and all others. */
  lemma {:induction false} AppliedAt(fw: Fw, p: Plan)
    requires Untouched(fw, p)
    ensures var fw' := Applied(fw, p);
            && Egress(p) in fw' && fw'[Egress(p)] == EgressRules(p)
            && Ingress(p) in fw' && fw'[Ingress(p)] == IngressRules(p)
            && DockerUser in fw' && fw'[DockerUser] == [EgressJump(p)] + fw[DockerUser]
            && Input in fw' && fw'[Input] == [IngressJump(p)] + fw[Input]
  {
    Names(p);
  }

  /******* Traffic *******/

  ghost predicate Jumps(rules: seq<Rule>, chain: string) {
    exists r :: r in rules && r.target == Jump(chain)
  }

  /** The packet on these rules never meets a hook of the plan that it matches, nor one of its chains. */
  ghost predicate Apart(fw: Fw, rules: seq<Rule>, plan: Plan, p: Packet) {
    && !Jumps(rules, Egress(plan)) && !Jumps(rules, Ingress(plan))
    && (Matches(EgressJump(plan), p) ==> !Jumps(rules, DockerUser) && !Refers(fw, DockerUser))
    && (Matches(IngressJump(plan), p) ==> !Jumps(rules, Input) && !Refers(fw, Input))
  }

  lemma {:induction false} ApartIn(fw: Fw, rules: seq<Rule>, plan: Plan, p: Packet, c: string)
    requires Untouched(fw, plan) && Apart(fw, rules, plan, p) && c in fw
    ensures Apart(fw, fw[c], plan, p)
  {
  }

  lemma {:induction false} ApartTail(fw: Fw, rules: seq<Rule>, plan: Plan, p: Packet)
    requires Apart(fw, rules, plan, p) && rules != []
    ensures Apart(fw, rules[1..], plan, p)
  {
    assert forall r :: r in rules[1..] ==> r in rules;
  }

  /** Chains that exist, and how the plan changed them: not at all, or by its hook in front. */
  lemma {:induction false} AppliedElsewhere(fw: Fw, plan: Plan, c: string)
    requires Untouched(fw, plan) && c != Egress(plan) && c != Ingress(plan)
    ensures var fw' := Applied(fw, plan);
            && (c in fw' <==> c in fw)
            && (c in fw ==> fw'[c] == (if c == DockerUser then [EgressJump(plan)] else if c == Input then [IngressJump(plan)] else [])
                                      + fw[c])
  {
    Names(plan);
  }

  /** A rule in front that does not match changes nothing. */
  lemma {:induction false} SkipHook(fw: Fw, hook: Rule, rules: seq<Rule>, p: Packet, depth: nat)
    requires !Matches(hook, p)
    ensures Traverse(fw, [hook] + rules, p, depth) == Traverse(fw, rules, p, depth)
  {
    assert ([hook] + rules)[1..] == rules;
  }

  /** What fares apart from the plan fares as before. */
  lemma {:induction false} FaresAsBefore(fw: Fw, plan: Plan, rules: seq<Rule>, p: Packet, depth: nat)
    requires Untouched(fw, plan) && Apart(fw, rules, plan, p)
    ensures Traverse(Applied(fw, plan), rules, p, depth) == Traverse(fw, rules, p, depth)
    decreases depth, |rules|
  {
    if rules != [] {
      ApartTail(fw, rules, plan, p);
      FaresAsBefore(fw, plan, rules[1..], p, depth);
      if Matches(rules[0], p) && rules[0].target.Jump? && depth > 0 {
        JumpAsBefore(fw, plan, rules, p, depth);
      }
    }
  }

  /** The jump of the first rule. */
  lemma {:induction false} JumpAsBefore(fw: Fw, plan: Plan, rules: seq<Rule>, p: Packet, depth: nat)
    requires Untouched(fw, plan) && Apart(fw, rules, plan, p) && depth > 0
    requires rules != [] && rules[0].target.Jump?
    ensures var c, fw' := rules[0].target.chain, Applied(fw, plan);
            && (c in fw' <==> c in fw)
            && (c in fw ==> Traverse(fw', fw'[c], p, depth - 1) == Traverse(fw, fw[c], p, depth - 1))
    decreases depth, 0
  {
    var c := rules[0].target.chain;
    assert rules[0] in rules;
    AppliedElsewhere(fw, plan, c);
    if c in fw {
      ApartIn(fw, rules, plan, p, c);
      FaresAsBefore(fw, plan, fw[c], p, depth - 1);
      hide Traverse, Untouched, Refers, Applied;
      if c == DockerUser {
        SkipHook(Applied(fw, plan), EgressJump(plan), fw[c], p, depth - 1);
      } else if c == Input {
        SkipHook(Applied(fw, plan), IngressJump(plan), fw[c], p, depth - 1);
      } else {
        assert [] + fw[c] == fw[c];
      }
    }
  }

  lemma {:induction false} BuiltInsApart(fw: Fw, plan: Plan, p: Packet, c: string)
    requires Untouched(fw, plan) && c in fw
    requires Matches(EgressJump(plan), p) ==> !Refers(fw, DockerUser)
    requires Matches(IngressJump(plan), p) ==> !Refers(fw, Input)
    ensures Apart(fw, fw[c], plan, p)
  {
  }

  /**
    A forwarded packet from the runtime's subnet is decided by the plan alone, unless the plan
    lets it through to the rules that were there before. Other packets fare exactly as before, and so
    does a packet let through, if no rule there jumps back to a built-in chain.
  */
  lemma {:induction false} ForwardedTraffic(fw: Fw, plan: Plan, p: Packet, depth: nat)
    requires Untouched(fw, plan) && depth > 0
    ensures var fw' := Applied(fw, plan);
            Traverse(fw', fw'[DockerUser], p, depth) ==
            if !plan.subnet.Contains(p.src) then Traverse(fw, fw[DockerUser], p, depth)
            else if DnsPacket(p) then (if p.dst in plan.dns then Accepted else Rejected)
            else if Denied(p.dst) then Rejected
            else Traverse(fw', fw[DockerUser], p, depth)
    ensures !Refers(fw, DockerUser) && !Refers(fw, Input) ==>
              Traverse(Applied(fw, plan), fw[DockerUser], p, depth) == Traverse(fw, fw[DockerUser], p, depth)
  {
    var fw' := Applied(fw, plan);
    AppliedAt(fw, plan);
    EgressVerdict(fw', plan, p, depth - 1);
    assert fw'[DockerUser][1..] == fw[DockerUser];
    if !plan.subnet.Contains(p.src) || (!Refers(fw, DockerUser) && !Refers(fw, Input)) {
      BuiltInsApart(fw, plan, p, DockerUser);
      FaresAsBefore(fw, plan, fw[DockerUser], p, depth);
    }
  }

  /**
    A packet from the runtime's bridge to the host itself passes only as DNS to an approved endpoint.
    Other packets fare exactly as before, those from the subnet if no rule jumps to DOCKER-USER.
  */
  lemma {:induction false} HostTraffic(fw: Fw, plan: Plan, p: Packet, depth: nat)
    requires Untouched(fw, plan) && depth > 0
    ensures var fw' := Applied(fw, plan);
            var ours := p.iface == plan.bridge && plan.subnet.Contains(p.src);
            && (ours ==> Traverse(fw', fw'[Input], p, depth) ==
                         if DnsPacket(p) && p.dst in plan.dns then Accepted else Rejected)
            && (!ours ==> Traverse(fw', fw'[Input], p, depth) == Traverse(fw', fw[Input], p, depth))
            && (!ours && (!plan.subnet.Contains(p.src) || !Refers(fw, DockerUser)) ==>
                  Traverse(fw', fw'[Input], p, depth) == Traverse(fw, fw[Input], p, depth))
  {
    var fw' := Applied(fw, plan);
    AppliedAt(fw, plan);
    IngressVerdict(fw', plan, p, depth - 1);
    assert fw'[Input][1..] == fw[Input];
    if !Matches(IngressJump(plan), p) && (!plan.subnet.Contains(p.src) || !Refers(fw, DockerUser)) {
      BuiltInsApart(fw, plan, p, Input);
      FaresAsBefore(fw, plan, fw[Input], p, depth);
    }
  }

  /******* Partial application *******/

  ghost predicate Ours(p: Plan, c: string) {
    c == Egress(p) || c == Ingress(p)
  }

  ghost predicate JumpFree(rules: seq<Rule>) {
    forall i :: 0 <= i < |rules| ==> !rules[i].target.Jump?
  }

  function Hooked(on: bool, r: Rule, rules: seq<Rule>): seq<Rule> {
    if on then [r] + rules else rules
  }

  /** Somewhere inside an apply: our two chains, if they exist, hold no jumps; at most our hooks were inserted. */
  ghost predicate Partial(fw0: Fw, fw: Fw, p: Plan, egress: bool, ingress: bool)
    requires DockerUser in fw0 && Input in fw0
  {
    && (forall c :: c != DockerUser && c != Input && !Ours(p, c) ==>
          (c in fw <==> c in fw0) && (c in fw && c in fw0 ==> fw[c] == fw0[c]))
    && (forall c :: Ours(p, c) && c in fw ==> JumpFree(fw[c]))
    && DockerUser in fw && fw[DockerUser] == Hooked(egress, EgressJump(p), fw0[DockerUser])
    && Input in fw && fw[Input] == Hooked(ingress, IngressJump(p), fw0[Input])
  }

  ghost predicate LocalStmt(p: Plan, s: Stmt) {
    Ours(p, s.chain) && (s.NewChain? || s.Flush? || (s.Append? && !s.rule.target.Jump?))
  }

  lemma {:induction false} LocalKeeps(fw0: Fw, fw: Fw, p: Plan, s: Stmt, egress: bool, ingress: bool)
    requires DockerUser in fw0 && Input in fw0 && Partial(fw0, fw, p, egress, ingress)
    requires LocalStmt(p, s) && Exec(fw, s).Some?
    ensures Partial(fw0, Exec(fw, s).value, p, egress, ingress)
  {
    Names(p);
  }

  ghost predicate LocalCmds(p: Plan, cmds: seq<Cmd>) {
    forall i :: 0 <= i < |cmds| ==> Denote(cmds[i]).Some? && LocalStmt(p, Denote(cmds[i]).value)
  }

  lemma {:induction false} LocalCmdsKeep(fw0: Fw, fw: Fw, p: Plan, cmds: seq<Cmd>, egress: bool, ingress: bool)
    requires DockerUser in fw0 && Input in fw0 && Partial(fw0, fw, p, egress, ingress)
    requires LocalCmds(p, cmds) && ExecAll(fw, cmds).Some?
    ensures Partial(fw0, ExecAll(fw, cmds).value, p, egress, ingress)
  {
    if cmds != [] {
      var n := |cmds| - 1;
      LocalCmdsKeep(fw0, fw, p, cmds[..n], egress, ingress);
      LocalKeeps(fw0, ExecAll(fw, cmds[..n]).value, p, Denote(cmds[n]).value, egress, ingress);
    }
  }

  lemma {:induction false} ChainsAreLocal(p: Plan)
    ensures LocalCmds(p, EgressCmds(p)) && LocalCmds(p, IngressCmds(p))
  {
    EgressAppends(p);
    IngressAppends(p);
    forall i | 0 <= i < |EgressCmds(p)|
      ensures Denote(EgressCmds(p)[i]).Some? && LocalStmt(p, Denote(EgressCmds(p)[i]).value)
    {
      ChainCmdAt(Egress(p), EgressBody(p), EgressRules(p), i);
    }
    forall i | 0 <= i < |IngressCmds(p)|
      ensures Denote(IngressCmds(p)[i]).Some? && LocalStmt(p, Denote(IngressCmds(p)[i]).value)
    {
      ChainCmdAt(Ingress(p), IngressBody(p), IngressRules(p), i);
    }
  }

  lemma {:induction false} EgressHookPartial(fw0: Fw, fw: Fw, p: Plan)
    requires DockerUser in fw0 && Input in fw0
    requires Partial(fw0, fw, p, false, false) && ExecCmd(fw, EgressHook(p)).Some?
    ensures Partial(fw0, ExecCmd(fw, EgressHook(p)).value, p, true, false)
  {
    hide Denote, ParseRule, Egress, Ingress, JumpFree;
    Names(p);
    DenoteEgressHook(p);
  }

  lemma {:induction false} IngressHookPartial(fw0: Fw, fw: Fw, p: Plan)
    requires DockerUser in fw0 && Input in fw0
    requires Partial(fw0, fw, p, true, false) && ExecCmd(fw, IngressHook(p)).Some?
    ensures Partial(fw0, ExecCmd(fw, IngressHook(p)).value, p, true, true)
  {
    hide Denote, ParseRule, Egress, Ingress, JumpFree;
    Names(p);
    DenoteIngressHook(p);
  }

  /** Executing a first part leaves a state from which the second part continues. */
  lemma {:induction false} FirstPart(fw: Fw, a: seq<Cmd>, b: seq<Cmd>)
    requires ExecAll(fw, a + b).Some?
    ensures ExecAll(fw, a).Some? && ExecAll(fw, a + b) == ExecAll(ExecAll(fw, a).value, b)
  {
    ExecSplit(fw, a, b);
  }

  lemma {:induction false} AfterEgressHook(fw0: Fw, p: Plan, more: seq<Cmd>)
    requires Untouched(fw0, p) && LocalCmds(p, EgressCmds(p)) && LocalCmds(p, more)
    requires ExecAll(fw0, EgressCmds(p) + [EgressHook(p)] + more).Some?
    ensures Partial(fw0, ExecAll(fw0, EgressCmds(p) + [EgressHook(p)] + more).value, p, true, false)
  {
    var e := EgressCmds(p);
    var open := e + [EgressHook(p)];
    FirstPart(fw0, open, more);
    FirstPart(fw0, e, [EgressHook(p)]);
    LocalCmdsKeep(fw0, fw0, p, e, false, false);
    var fw1 := ExecAll(fw0, e).value;
    OneCmd(fw1, EgressHook(p));
    EgressHookPartial(fw0, fw1, p);
    LocalCmdsKeep(fw0, ExecAll(fw0, open).value, p, more, true, false);
  }

  lemma {:induction false} AfterIngressHook(fw0: Fw, p: Plan)
    requires Untouched(fw0, p) && LocalCmds(p, EgressCmds(p)) && LocalCmds(p, IngressCmds(p))
    requires ExecAll(fw0, RuleCmds(p)).Some?
    ensures Partial(fw0, ExecAll(fw0, RuleCmds(p)).value, p, true, true)
  {
    var most := EgressCmds(p) + [EgressHook(p)] + IngressCmds(p);
    FirstPart(fw0, most, [IngressHook(p)]);
    AfterEgressHook(fw0, p, IngressCmds(p));
    var fw1 := ExecAll(fw0, most).value;
    OneCmd(fw1, IngressHook(p));
    IngressHookPartial(fw0, fw1, p);
  }

  /** The four kinds of prefixes of the command list. */
  lemma {:induction false} PrefixShape(p: Plan, k: nat)
    requires k <= |RuleCmds(p)|
    ensures var e, i := EgressCmds(p), IngressCmds(p);
            && |RuleCmds(p)| == |e| + |i| + 2
            && RuleCmds(p)[..k] == (if k <= |e| then e[..k]
                                    else if k <= |e| + 1 + |i| then e + [EgressHook(p)] + i[..k - |e| - 1]
                                    else RuleCmds(p))
  {
  }

  /** Every prefix of the apply leaves a partial state. */
  lemma {:induction false} PrefixIsPartial(fw0: Fw, p: Plan, k: nat)
    requires Untouched(fw0, p) && k <= |RuleCmds(p)| && ExecAll(fw0, RuleCmds(p)[..k]).Some?
    ensures exists egress, ingress :: Partial(fw0, ExecAll(fw0, RuleCmds(p)[..k]).value, p, egress, ingress)
  {
    ChainsAreLocal(p);
    PrefixShape(p, k);
    var e, i := EgressCmds(p), IngressCmds(p);
    var fw := ExecAll(fw0, RuleCmds(p)[..k]).value;
    if k <= |e| {
      LocalCmdsKeep(fw0, fw0, p, e[..k], false, false);
      assert Partial(fw0, fw, p, false, false);
    } else if k <= |e| + 1 + |i| {
      AfterEgressHook(fw0, p, i[..k - |e| - 1]);
      assert Partial(fw0, fw, p, true, false);
    } else {
      AfterIngressHook(fw0, p);
      assert Partial(fw0, fw, p, true, true);
    }
  }

  /******* remove *******/

  lemma {:induction false} DeleteHook(rules: seq<Rule>, r: Rule, on: bool)
    requires r !in rules
    ensures on ==> WithoutFirst(Hooked(on, r, rules), r) == rules
    ensures r in Hooked(on, r, rules) <==> on
  {
    if on {
      assert Hooked(on, r, rules)[0] == r && Hooked(on, r, rules)[1..] == rules;
    }
  }

  lemma {:induction false} HookAbsent(fw: Fw, p: Plan)
    requires Untouched(fw, p)
    ensures EgressJump(p) !in fw[DockerUser] && IngressJump(p) !in fw[Input]
  {
    assert EgressJump(p) in fw[DockerUser] ==> Refers(fw, Egress(p));
    assert IngressJump(p) in fw[Input] ==> Refers(fw, Ingress(p));
  }

  lemma {:induction false} UnhookEgress(fw0: Fw, fw: Fw, p: Plan, egress: bool, ingress: bool)
    requires Untouched(fw0, p) && Partial(fw0, fw, p, egress, ingress)
    ensures var (fw', failed) := CleanupCmd(fw, RemoveCmds(p)[0], true);
            !failed && Partial(fw0, fw', p, false, ingress)
  {
    Names(p);
    DenoteRemoves(p);
    HookAbsent(fw0, p);
    DeleteHook(fw0[DockerUser], EgressJump(p), egress);
  }

  lemma {:induction false} UnhookIngress(fw0: Fw, fw: Fw, p: Plan, ingress: bool)
    requires Untouched(fw0, p) && Partial(fw0, fw, p, false, ingress)
    ensures var (fw', failed) := CleanupCmd(fw, RemoveCmds(p)[1], true);
            !failed && Partial(fw0, fw', p, false, false)
  {
    Names(p);
    DenoteRemoves(p);
    HookAbsent(fw0, p);
    DeleteHook(fw0[Input], IngressJump(p), ingress);
  }

  /** Once unhooked, nothing refers to our chains. */
  lemma {:induction false} Unreferred(fw0: Fw, fw: Fw, p: Plan, chain: string)
    requires Untouched(fw0, p) && Partial(fw0, fw, p, false, false) && Ours(p, chain)
    ensures !Refers(fw, chain)
  {
    Names(p);
    assert Refers(fw0, chain) <==> exists c :: c in fw0 && exists r :: r in fw0[c] && r.target == Jump(chain);
  }

  /** Flush and drop one of our chains, whether it exists or not. */
  lemma {:induction false} DropOurs(fw0: Fw, fw: Fw, p: Plan, chain: string, flush: Cmd, drop: Cmd)
    requires Untouched(fw0, p) && Partial(fw0, fw, p, false, false) && Ours(p, chain)
    requires Denote(flush) == Some(Flush(chain)) && Denote(drop) == Some(DropChain(chain))
    ensures var (fw1, failed1) := CleanupCmd(fw, flush, true);
            var (fw2, failed2) := CleanupCmd(fw1, drop, true);
            !failed1 && !failed2 && fw2 == fw - {chain} && Partial(fw0, fw2, p, false, false)
  {
    Names(p);
    var fw1 := CleanupCmd(fw, flush, true).0;
    assert Partial(fw0, fw1, p, false, false);
    Unreferred(fw0, fw1, p, chain);
    if chain in fw {
      assert fw1 == fw[chain := []];
      assert fw1 - {chain} == fw - {chain};
    } else {
      assert fw - {chain} == fw;
    }
  }

  lemma {:induction false} CleanupStep(fw: Fw, cmds: seq<Cmd>, works: seq<bool>, n: nat)
    requires |cmds| == |works| && n < |cmds|
    ensures var (a, f) := CleanupAll(fw, cmds[..n], works[..n]);
            var (b, g) := CleanupCmd(a, cmds[n], works[n]);
            CleanupAll(fw, cmds[..n + 1], works[..n + 1]) == (b, f || g)
  {
    assert cmds[..n + 1][..n] == cmds[..n] && works[..n + 1][..n] == works[..n];
  }

  const AllWork := [true, true, true, true, true, true]

  /** Both hooks gone. */
  lemma {:induction false} UnhookBoth(fw0: Fw, fw: Fw, p: Plan, egress: bool, ingress: bool) returns (s1: Fw, s2: Fw)
    requires Untouched(fw0, p) && Partial(fw0, fw, p, egress, ingress)
    ensures CleanupCmd(fw, RemoveCmds(p)[0], true) == (s1, false)
    ensures CleanupCmd(s1, RemoveCmds(p)[1], true) == (s2, false)
    ensures Partial(fw0, s2, p, false, false)
  {
    s1 := CleanupCmd(fw, RemoveCmds(p)[0], true).0;
    UnhookEgress(fw0, fw, p, egress, ingress);
    s2 := CleanupCmd(s1, RemoveCmds(p)[1], true).0;
    UnhookIngress(fw0, s1, p, ingress);
  }

  lemma {:induction false} NothingOfOurs(fw0: Fw, fw: Fw, p: Plan)
    requires Untouched(fw0, p) && Partial(fw0, fw, p, false, false)
    requires Egress(p) !in fw && Ingress(p) !in fw
    ensures fw == fw0
  {
    forall c
      ensures (c in fw <==> c in fw0) && (c in fw ==> fw[c] == fw0[c])
    {
    }
  }

  /** Both chains gone. */
  lemma {:induction false} DropBoth(fw0: Fw, s2: Fw, p: Plan) returns (s3: Fw, s4: Fw, s5: Fw)
    requires Untouched(fw0, p) && Partial(fw0, s2, p, false, false)
    ensures CleanupCmd(s2, RemoveCmds(p)[2], true) == (s3, false)
    ensures CleanupCmd(s3, RemoveCmds(p)[3], true) == (s4, false)
    ensures CleanupCmd(s4, RemoveCmds(p)[4], true) == (s5, false)
    ensures CleanupCmd(s5, RemoveCmds(p)[5], true) == (fw0, false)
  {
    var cs := RemoveCmds(p);
    DenoteRemoves(p);
    s3 := CleanupCmd(s2, cs[2], true).0;
    s4 := CleanupCmd(s3, cs[3], true).0;
    DropOurs(fw0, s2, p, Egress(p), cs[2], cs[3]);
    s5 := CleanupCmd(s4, cs[4], true).0;
    DropOurs(fw0, s4, p, Ingress(p), cs[4], cs[5]);
    NothingOfOurs(fw0, CleanupCmd(s5, cs[5], true).0, p);
  }

  /** Removing from any partial state restores the firewall exactly, and reports no failure. */
  lemma {:induction false} RemoveRestores(fw0: Fw, fw: Fw, p: Plan, egress: bool, ingress: bool)
    requires Untouched(fw0, p) && Partial(fw0, fw, p, egress, ingress)
    ensures CleanupAll(fw, RemoveCmds(p), AllWork) == (fw0, false)
  {
    var s1, s2 := UnhookBoth(fw0, fw, p, egress, ingress);
    var s3, s4, s5 := DropBoth(fw0, s2, p);
    SixSteps(fw, RemoveCmds(p), s1, s2, s3, s4, s5, fw0);
  }

  lemma {:induction false} SixSteps(fw: Fw, cs: seq<Cmd>, s1: Fw, s2: Fw, s3: Fw, s4: Fw, s5: Fw, s6: Fw)
    requires |cs| == 6
    requires CleanupCmd(fw, cs[0], true) == (s1, false) && CleanupCmd(s1, cs[1], true) == (s2, false)
    requires CleanupCmd(s2, cs[2], true) == (s3, false) && CleanupCmd(s3, cs[3], true) == (s4, false)
    requires CleanupCmd(s4, cs[4], true) == (s5, false) && CleanupCmd(s5, cs[5], true) == (s6, false)
    ensures CleanupAll(fw, cs, AllWork) == (s6, false)
  {
    hide CleanupCmd;
    CleanupStep(fw, cs, AllWork, 0);
    CleanupStep(fw, cs, AllWork, 1);
    CleanupStep(fw, cs, AllWork, 2);
    CleanupStep(fw, cs, AllWork, 3);
    CleanupStep(fw, cs, AllWork, 4);
    CleanupStep(fw, cs, AllWork, 5);
    assert cs[..6] == cs && AllWork[..6] == AllWork;
    assert cs[..0] == [] && AllWork[..0] == [];
  }

  /**
    For every k: if exactly the first k rule commands took effect, removal restores the state
    before apply. k = |RuleCmds| is an apply whose verification failed.
  */
  lemma {:induction false} FailedApplyRollsBack(fw0: Fw, p: Plan, k: nat)
    requires Untouched(fw0, p) && k <= |RuleCmds(p)|
    requires ExecAll(fw0, RuleCmds(p)[..k]).Some?
    ensures CleanupAll(ExecAll(fw0, RuleCmds(p)[..k]).value, RemoveCmds(p), AllWork) == (fw0, false)
  {
    PrefixIsPartial(fw0, p, k);
    var fw := ExecAll(fw0, RuleCmds(p)[..k]).value;
    var egress, ingress :| Partial(fw0, fw, p, egress, ingress);
    RemoveRestores(fw0, fw, p, egress, ingress);
  }

  /** A removal that reports no failure had every command work. */
  lemma {:induction false} SilentRemovalWorked(fw: Fw, cmds: seq<Cmd>, works: seq<bool>)
    requires |cmds| == |works| && !CleanupAll(fw, cmds, works).1
    ensures forall i :: 0 <= i < |works| ==> works[i]
  {
    if cmds != [] {
      SilentRemovalWorked(fw, cmds[..|cmds| - 1], works[..|cmds| - 1]);
    }
  }

  /** One cleanup command that works and reports no failure adds no rule and no chain. */
  lemma {:induction false} CleanupOnlyRemoves(fw: Fw, cmd: Cmd, c: string)
    requires Denote(cmd).Some? && !CleanupCmd(fw, cmd, true).1
    requires var s := Denote(cmd).value; s.Flush? || s.DropChain? || s.Delete?
    ensures var (left, s) := (CleanupCmd(fw, cmd, true).0, Denote(cmd).value);
            && (c in left ==> c in fw)
            && (c in fw && !(s.DropChain? && s.chain == c) ==> c in left)
            && (s.DropChain? && s.chain == c ==> c !in left && (c in fw ==> !Refers(left, c)))
            && (Refers(left, c) ==> Refers(fw, c))
  {
    var left: Fw := CleanupCmd(fw, cmd, true).0;
    var s := Denote(cmd).value;
    if s.Delete? && s.chain in fw {
      WithoutFirstOnlyRemoves(fw[s.chain], s.rule);
    }
    if Refers(left, c) {
      var d: string :| d in left && exists r: Rule :: r in left[d] && r.target == Jump(c);
      var r: Rule :| r in left[d] && r.target == Jump(c);
      assert d in fw && r in fw[d];
    }
  }

  lemma {:induction false} WithoutFirstOnlyRemoves(rules: seq<Rule>, r: Rule)
    ensures forall x :: x in WithoutFirst(rules, r) ==> x in rules
  {
    if rules != [] {
      WithoutFirstOnlyRemoves(rules[1..], r);
      assert forall x :: x in rules[1..] ==> x in rules;
    }
  }

  /** The state before the n-th cleanup command, all of which work. */
  ghost function CleanedUpTo(fw: Fw, p: Plan, n: nat): Fw
    requires n <= 6
  {
    CleanupAll(fw, RemoveCmds(p)[..n], AllWork[..n]).0
  }

  /** No command of a silent removal fails. */
  lemma {:induction false} SilentSteps(fw: Fw, cmds: seq<Cmd>, works: seq<bool>, n: nat)
    requires |cmds| == |works| && !CleanupAll(fw, cmds, works).1 && n < |cmds|
    ensures !CleanupAll(fw, cmds[..n], works[..n]).1
    ensures !CleanupCmd(CleanupAll(fw, cmds[..n], works[..n]).0, cmds[n], works[n]).1
    ensures CleanupAll(fw, cmds[..n + 1], works[..n + 1]).0 ==
            CleanupCmd(CleanupAll(fw, cmds[..n], works[..n]).0, cmds[n], works[n]).0
  {
    hide CleanupCmd;
    CleanupStep(fw, cmds, works, n);
    if n + 1 == |cmds| {
      assert cmds[..n + 1] == cmds && works[..n + 1] == works;
    } else {
      var most, mostWorks := cmds[..|cmds| - 1], works[..|cmds| - 1];
      SilentSteps(fw, most, mostWorks, n);
      assert most[..n] == cmds[..n] && mostWorks[..n] == works[..n];
    }
  }

  /** Neither chain survives its own drop, and nothing later brings it or a jump to it back. */
  lemma {:induction false} DropHolds(fw: Fw, p: Plan, c: string, drop: nat, n: nat)
    requires !CleanupAll(fw, RemoveCmds(p), AllWork).1 && drop < n <= 6
    requires (c == Egress(p) && drop == 3) || (c == Ingress(p) && drop == 5)
    ensures c !in CleanedUpTo(fw, p, n)
    ensures c in CleanedUpTo(fw, p, drop) ==> !Refers(CleanedUpTo(fw, p, n), c)
  {
    DenoteRemoves(p);
    hide Denote, CleanupCmd, Refers, CleanupAll, RemoveCmds;
    assert |RemoveCmds(p)| == 6 by { LengthOfRemoves(p); }
    SilentSteps(fw, RemoveCmds(p), AllWork, n - 1);
    CleanupOnlyRemoves(CleanedUpTo(fw, p, n - 1), RemoveCmds(p)[n - 1], c);
    if n > drop + 1 {
      DropHolds(fw, p, c, drop, n - 1);
    }
  }

  lemma {:induction false} LengthOfRemoves(p: Plan)
    ensures |RemoveCmds(p)| == 6
  {
  }

  /** Until its drop a chain of the plan stays. */
  lemma {:induction false} ChainStays(fw: Fw, p: Plan, c: string, drop: nat, n: nat)
    requires !CleanupAll(fw, RemoveCmds(p), AllWork).1 && n <= drop && c in fw
    requires (c == Egress(p) && drop == 3) || (c == Ingress(p) && drop == 5)
    ensures c in CleanedUpTo(fw, p, n)
  {
    LengthOfRemoves(p);
    if n > 0 {
      ChainStays(fw, p, c, drop, n - 1);
      Names(p);
      DenoteRemoves(p);
      SilentSteps(fw, RemoveCmds(p), AllWork, n - 1);
      hide Denote, CleanupCmd, Refers, CleanupAll, RemoveCmds;
      CleanupOnlyRemoves(CleanedUpTo(fw, p, n - 1), RemoveCmds(p)[n - 1], c);
    }
  }

  /**
    Whatever the firewall was, a removal that reports no failure leaves neither chain of the plan, and
    no jump to a chain that was there.
  */
  lemma {:induction false} SilentRemovalLeavesNothing(fw: Fw, p: Plan, works: seq<bool>)
    requires |works| == 6 && !CleanupAll(fw, RemoveCmds(p), works).1
    ensures var left := CleanupAll(fw, RemoveCmds(p), works).0;
            && Egress(p) !in left && Ingress(p) !in left
            && (Egress(p) in fw ==> !Refers(left, Egress(p)))
            && (Ingress(p) in fw ==> !Refers(left, Ingress(p)))
  {
    LengthOfRemoves(p);
    SilentRemovalWorked(fw, RemoveCmds(p), works);
    assert works == AllWork;
    hide CleanupAll, RemoveCmds, Refers;
    assert RemoveCmds(p)[..6] == RemoveCmds(p) && AllWork[..6] == AllWork;
    DropHolds(fw, p, Egress(p), 3, 6);
    DropHolds(fw, p, Ingress(p), 5, 6);
    if Egress(p) in fw {
      ChainStays(fw, p, Egress(p), 3, 3);
    }
    if Ingress(p) in fw {
      ChainStays(fw, p, Ingress(p), 5, 5);
    }
  }
}
