/** Two plans on one host: their chains are their own, and each can come and go without the other. */
module FirewallIsolation {
  import opened Options
  import opened FirewallSpec
  import opened FirewallResults
  import opened FirewallRollback

  /******* Chain names *******/

  /** Both digests of a plan have the eight characters that the source cuts out. */
  predicate EightDigits(p: Plan) {
    |p.digest("egress:" + p.network)| == 8 && |p.digest("input:" + p.network)| == 8
  }

  /** The digests of the two networks differ, as digests of different names do. */
  predicate OwnDigests(a: Plan, b: Plan) {
    && EightDigits(a) && EightDigits(b)
    && a.digest("egress:" + a.network) != b.digest("egress:" + b.network)
    && a.digest("input:" + a.network) != b.digest("input:" + b.network)
  }

  lemma {:induction false} LastEight(x: string, d: string, y: string, e: string)
    requires |d| == |e| == 8 && d != e
    ensures x + d != y + e
  {
    assert (x + d)[|x + d| - 8..] == d && (y + e)[|y + e| - 8..] == e;
  }

  lemma {:induction false} FourthDiffers(p: Plan, q: Plan)
    ensures Egress(p) != Ingress(q)
  {
    assert Egress(p)[3] == 'E' && Ingress(q)[3] == 'I';
  }

  /** The four chains of two plans are pairwise distinct. */
  lemma {:induction false} ChainsAreOwn(a: Plan, b: Plan)
    requires OwnDigests(a, b)
    ensures Egress(a) != Egress(b) && Ingress(a) != Ingress(b)
    ensures Egress(a) != Ingress(b) && Ingress(a) != Egress(b)
    ensures Egress(a) != Ingress(a) && Egress(b) != Ingress(b)
  {
    FourthDiffers(a, b);
    FourthDiffers(b, a);
    FourthDiffers(a, a);
    FourthDiffers(b, b);
    LastEight("NL4E" + First9(Alphanumeric(a.network)), a.digest("egress:" + a.network),
              "NL4E" + First9(Alphanumeric(b.network)), b.digest("egress:" + b.network));
    LastEight("NL4I" + First9(Alphanumeric(a.network)), a.digest("input:" + a.network),
              "NL4I" + First9(Alphanumeric(b.network)), b.digest("input:" + b.network));
  }

  /******* The second plan finds the firewall untouched *******/

  /** The rules of an applied plan jump only to its own two chains. */
  lemma {:induction false} OwnJumps(fw: Fw, a: Plan, chain: string)
    requires Untouched(fw, a) && !Refers(fw, chain) && chain != Egress(a) && chain != Ingress(a)
    ensures !Refers(Applied(fw, a), chain)
  {
    var fw' := Applied(fw, a);
    AppliedAt(fw, a);
    forall c, r: Rule | c in fw' && r in fw'[c]
      ensures r.target != Jump(chain)
    {
      if c == Egress(a) {
        RulesJumpNowhere(a, r);
      } else if c == Ingress(a) {
        RulesJumpNowhere(a, r);
      } else {
        AppliedElsewhere(fw, a, c);
        if r in fw[c] {
          assert r.target == Jump(chain) ==> Refers(fw, chain);
        }
      }
    }
  }

  lemma {:induction false} RulesJumpNowhere(p: Plan, r: Rule)
    ensures r in EgressRules(p) || r in IngressRules(p) ==> !r.target.Jump?
  {
    EgressAppends(p);
    IngressAppends(p);
  }

  lemma {:induction false} SecondPlanUntouched(fw: Fw, a: Plan, b: Plan)
    requires Untouched(fw, a) && Untouched(fw, b) && OwnDigests(a, b)
    ensures Untouched(Applied(fw, a), b)
  {
    ChainsAreOwn(a, b);
    AppliedAt(fw, a);
    Names(b);
    AppliedElsewhere(fw, a, Egress(b));
    AppliedElsewhere(fw, a, Ingress(b));
    OwnJumps(fw, a, Egress(b));
    OwnJumps(fw, a, Ingress(b));
  }

  /******* The second plan comes and goes *******/

  /** So applying the second plan succeeds, and however far it gets, its rollback restores the first one exactly. */
  lemma {:induction false} SecondApply(fw: Fw, a: Plan, b: Plan, k: nat)
    requires Untouched(fw, a) && Untouched(fw, b) && OwnDigests(a, b) && k <= |RuleCmds(b)|
    ensures ExecAll(Applied(fw, a), RuleCmds(b)) == Some(Applied(Applied(fw, a), b))
    ensures ExecAll(Applied(fw, a), RuleCmds(b)[..k]).Some? ==>
              CleanupAll(ExecAll(Applied(fw, a), RuleCmds(b)[..k]).value, RemoveCmds(b), AllWork) == (Applied(fw, a), false)
  {
    SecondPlanUntouched(fw, a, b);
    hide Untouched, RuleCmds, Applied, ExecAll;
    ApplyAll(Applied(fw, a), b);
    if ExecAll(Applied(fw, a), RuleCmds(b)[..k]).Some? {
      FailedApplyRollsBack(Applied(fw, a), b, k);
    }
  }

  /** No address belongs to both subnets. */
  ghost predicate Disjoint(a: Plan, b: Plan) {
    forall x: Addr :: !(a.subnet.Contains(x) && b.subnet.Contains(x))
  }

  /** While the second plan is applied, every packet of the first one's subnet gets the verdict it got without it. */
  lemma {:induction false} FirstPlanKeeps(fw: Fw, a: Plan, b: Plan, p: Packet, depth: nat)
    requires Untouched(fw, a) && Untouched(fw, b) && OwnDigests(a, b) && Disjoint(a, b)
    requires a.subnet.Contains(p.src) && depth > 0
    ensures var one := Applied(fw, a);
            var two := Applied(one, b);
            && Traverse(two, two[DockerUser], p, depth) == Traverse(one, one[DockerUser], p, depth)
            && Traverse(two, two[Input], p, depth) == Traverse(one, one[Input], p, depth)
  {
    SecondPlanUntouched(fw, a, b);
    ForwardedTraffic(Applied(fw, a), b, p, depth);
    HostTraffic(Applied(fw, a), b, p, depth);
  }

  /******* The first plan goes while the second stays *******/

  /** Both plans applied, whichever came first. */
  lemma {:induction false} BothAt(fw: Fw, a: Plan, b: Plan)
    requires Untouched(fw, a) && Untouched(fw, b) && OwnDigests(a, b)
    ensures var two, only := Applied(Applied(fw, a), b), Applied(fw, b);
            && (forall c :: c != DockerUser && c != Input && !Ours(a, c) ==>
                  (c in two <==> c in only) && (c in two ==> two[c] == only[c]))
            && (forall c :: Ours(a, c) ==> c in two && JumpFree(two[c]))
            && DockerUser in two && two[DockerUser] == [EgressJump(b)] + ([EgressJump(a)] + fw[DockerUser])
            && Input in two && two[Input] == [IngressJump(b)] + ([IngressJump(a)] + fw[Input])
            && DockerUser in only && only[DockerUser] == [EgressJump(b)] + fw[DockerUser]
            && Input in only && only[Input] == [IngressJump(b)] + fw[Input]
  {
    ChainsAreOwn(a, b);
    SecondPlanUntouched(fw, a, b);
    AppliedAt(fw, a);
    AppliedAt(fw, b);
    AppliedAt(Applied(fw, a), b);
    OwnJumpFree(a);
    Names(a);
    Names(b);
    hide Egress, Ingress, Untouched, EgressRules, IngressRules, JumpFree, EgressJump, IngressJump;
    forall c | Ours(a, c)
      ensures c in Applied(Applied(fw, a), b) && JumpFree(Applied(Applied(fw, a), b)[c])
    {
    }
  }

  lemma {:induction false} OwnJumpFree(p: Plan)
    ensures JumpFree(EgressRules(p)) && JumpFree(IngressRules(p))
  {
    EgressAppends(p);
    IngressAppends(p);
  }

  lemma {:induction false} DeleteSecond(rules: seq<Rule>, x: Rule, y: Rule)
    requires x != y
    ensures WithoutFirst([x] + ([y] + rules), y) == [x] + rules
  {
    assert ([x] + ([y] + rules))[1..] == [y] + rules && ([y] + rules)[1..] == rules;
  }

  lemma {:induction false} DeleteWorks(fw: Fw, cmd: Cmd, chain: string, r: Rule, left: seq<Rule>)
    requires Denote(cmd) == Some(Delete(chain, r)) && chain in fw && r in fw[chain] && left == WithoutFirst(fw[chain], r)
    ensures CleanupCmd(fw, cmd, true) == (fw[chain := left], false)
  {
    hide Denote, WithoutFirst;
  }

  /** With its hooks gone, a plan is applied in part over what is there without it. */
  lemma {:induction false} HooksGone(only: Fw, two: Fw, a: Plan)
    requires DockerUser in only && Input in only && DockerUser != Input
    requires !Ours(a, DockerUser) && !Ours(a, Input)
    requires forall c :: c != DockerUser && c != Input && !Ours(a, c) ==> (c in two <==> c in only) && (c in two ==> two[c] == only[c])
    requires forall c :: Ours(a, c) ==> c in two && JumpFree(two[c])
    ensures Partial(only, two[DockerUser := only[DockerUser]][Input := only[Input]], a, false, false)
  {
    hide JumpFree, Ours;
  }

  /** The hooks of the plan are deleted where they stand. */
  lemma {:induction false} UnhookBelow(fw: Fw, a: Plan, b: Plan) returns (s1: Fw, s2: Fw)
    requires Untouched(fw, a) && Untouched(fw, b) && OwnDigests(a, b)
    ensures CleanupCmd(Applied(Applied(fw, a), b), RemoveCmds(a)[0], true) == (s1, false)
    ensures CleanupCmd(s1, RemoveCmds(a)[1], true) == (s2, false)
    ensures Partial(Applied(fw, b), s2, a, false, false)
  {
    var two, only := Applied(Applied(fw, a), b), Applied(fw, b);
    BothAt(fw, a, b);
    ChainsAreOwn(a, b);
    Names(a);
    DenoteRemoves(a);
    HooksGone(only, two, a);
    assert EgressJump(a) != EgressJump(b) && IngressJump(a) != IngressJump(b);
    hide Egress, Ingress, Untouched, Applied, Denote, RemoveCmds, EgressJump, IngressJump, JumpFree, OwnDigests,
         CleanupCmd, WithoutFirst, Partial, Ours;
    DeleteSecond(fw[DockerUser], EgressJump(b), EgressJump(a));
    DeleteSecond(fw[Input], IngressJump(b), IngressJump(a));
    s1 := two[DockerUser := [EgressJump(b)] + fw[DockerUser]];
    DeleteWorks(two, RemoveCmds(a)[0], DockerUser, EgressJump(a), [EgressJump(b)] + fw[DockerUser]);
    s2 := s1[Input := [IngressJump(b)] + fw[Input]];
    DeleteWorks(s1, RemoveCmds(a)[1], Input, IngressJump(a), [IngressJump(b)] + fw[Input]);
  }

  /** Removing the first plan while the second is applied leaves exactly the second one. */
  lemma {:induction false} FirstPlanRemoved(fw: Fw, a: Plan, b: Plan)
    requires Untouched(fw, a) && Untouched(fw, b) && OwnDigests(a, b)
    ensures CleanupAll(Applied(Applied(fw, a), b), RemoveCmds(a), AllWork) == (Applied(fw, b), false)
  {
    assert OwnDigests(b, a);
    SecondPlanUntouched(fw, b, a);
    var s1, s2 := UnhookBelow(fw, a, b);
    var s3, s4, s5 := DropBoth(Applied(fw, b), s2, a);
    LengthOfRemoves(a);
    hide CleanupCmd, CleanupAll, RemoveCmds, Applied, Untouched, OwnDigests;
    SixSteps(Applied(Applied(fw, a), b), RemoveCmds(a), s1, s2, s3, s4, s5, Applied(fw, b));
  }
}
