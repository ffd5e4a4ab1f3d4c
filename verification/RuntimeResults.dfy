/** No container runs without its policy, and nothing is left behind an inactive session. */
module RuntimeResults {
  import opened Options
  import opened StateSpec
  import opened RuntimeSpec

  ghost predicate Left(sys: Sys, s: SessionId) {
    s in sys.alive || s in sys.nets
  }

  ghost predicate Covered(sys: Sys, s: SessionId) {
    Left(sys, s) ==> s in sys.sessions && Active(sys.sessions[s].state)
  }

  ghost predicate OneActive(sys: Sys) {
    forall s, t ::
      (s in sys.sessions && t in sys.sessions && Active(sys.sessions[s].state) && Active(sys.sessions[t].state)
       && sys.sessions[s].ws == sys.sessions[t].ws) ==> s == t
  }

  ghost predicate Inv(sys: Sys) {
    && sys.alive <= sys.nets
    && (forall s :: Covered(sys, s))
    && OneActive(sys)
  }

  /** Everything but this session's container, network and row state is as before. */
  ghost predicate OnlyTouches(sys: Sys, sys': Sys, id: SessionId) {
    && sys'.alive - {id} == sys.alive - {id} && sys'.nets - {id} == sys.nets - {id}
    && sys'.sessions.Keys == sys.sessions.Keys
    && (forall s :: s in sys.sessions && s != id ==> sys'.sessions[s] == sys.sessions[s])
    && (id in sys.sessions ==>
          sys'.sessions[id].ws == sys.sessions[id].ws
          && (Active(sys'.sessions[id].state) ==> Active(sys.sessions[id].state)))
  }

  /** So the invariant is this session's own affair. */
  lemma {:induction false} TouchKeepsInv(sys: Sys, sys': Sys, id: SessionId)
    requires Inv(sys) && OnlyTouches(sys, sys', id)
    requires id in sys'.alive ==> id in sys'.nets
    requires Covered(sys', id)
    ensures Inv(sys')
  {
    forall s
      ensures Covered(sys', s) && (s in sys'.alive ==> s in sys'.nets)
    {
      if s != id {
        assert Covered(sys, s);
        assert s in sys'.alive <==> s in sys'.alive - {id};
        assert s in sys.alive <==> s in sys.alive - {id};
        assert s in sys'.nets <==> s in sys'.nets - {id};
        assert s in sys.nets <==> s in sys.nets - {id};
      }
    }
  }

  /**
    The cleanup takes the policy from a live container: the container survives, the confirming probe
    wrongly answers no, and the removal takes effect because Docker does not refuse it.
  */
  predicate Uncovers(alive: bool, stopIfAlive: bool, c: Cleanup) {
    && alive && !c.first.Raises?
    && (c.first.WrongNo? || !stopIfAlive || c.stop.StopRaises? || c.stop.StopIgnored?)
    && c.second.WrongNo? && !c.refuses && !c.remove.RemoveRaises?
  }

  /**
    A cleanup takes the policy from a running container exactly if it uncovers it. If it does not,
    and reports no failure, then neither the container nor the network is left.
  */
  lemma {:induction false} CleanUpExactly(sys: Sys, id: SessionId, stopIfAlive: bool, planned: bool, c: Cleanup)
    requires id in sys.alive ==> id in sys.nets
    ensures var (sys', failed) := CleanUp(sys, id, stopIfAlive, planned, c);
            var uncovers := planned && Uncovers(id in sys.alive, stopIfAlive, c);
            && sys'.alive - {id} == sys.alive - {id} && sys'.nets - {id} == sys.nets - {id}
            && sys'.sessions == sys.sessions && sys'.owners == sys.owners
            && sys'.alive <= sys.alive && sys'.nets <= sys.nets
            && (id in sys'.alive && id !in sys'.nets <==> uncovers)
            && (!failed && planned && !uncovers ==> !Left(sys', id))
            && (!failed && !planned && c.second.Truth? ==> id !in sys'.alive)
  {
  }

  /**
    A cleanup reports no failure exactly if both probes answered, no stop that was tried raised, the
    container is not seen any more and a planned removal neither raised nor was refused.
  */
  lemma {:induction false} CleanUpReports(sys: Sys, id: SessionId, stopIfAlive: bool, planned: bool, c: Cleanup)
    ensures var tried := Says(c.first, id in sys.alive) && stopIfAlive;
            var gone := tried && (c.stop.Stops? || c.stop.StopsThenRaises?);
            !CleanUp(sys, id, stopIfAlive, planned, c).1 <==>
              && !c.first.Raises? && !c.second.Raises?
              && (tried ==> c.stop.Stops? || c.stop.StopIgnored?)
              && (id in sys.alive && !gone ==> c.second.WrongNo?)
              && (planned ==> c.remove.Removes? && !(c.refuses && id in sys.alive && !gone && id in sys.nets))
  {
  }

  /** A live container without its network breaks the invariant. */
  lemma {:induction false} BareContainer(sys: Sys, id: SessionId)
    requires id in sys.alive && id !in sys.nets
    ensures !Inv(sys)
  {
  }

  lemma {:induction false} RetireTouches(sys: Sys, id: SessionId, stopIfAlive: bool, c: Cleanup)
    requires id in sys.sessions && Active(sys.sessions[id].state)
    ensures OnlyTouches(sys, Retire(sys, id, stopIfAlive, c).0, id)
  {
  }

  /** Retiring a session keeps the invariant exactly if its cleanup does not uncover the container. */
  lemma {:induction false} RetireExactly(sys: Sys, id: SessionId, stopIfAlive: bool, c: Cleanup)
    requires Inv(sys) && id in sys.sessions && Active(sys.sessions[id].state)
    ensures Inv(Retire(sys, id, stopIfAlive, c).0) <==> !Uncovers(id in sys.alive, stopIfAlive, c)
  {
    var sys' := Retire(sys, id, stopIfAlive, c).0;
    CleanUpExactly(sys, id, stopIfAlive, true, c);
    RetireTouches(sys, id, stopIfAlive, c);
    if Uncovers(id in sys.alive, stopIfAlive, c) {
      BareContainer(sys', id);
    } else {
      TouchKeepsInv(sys, sys', id);
    }
  }

  /** So does stopping one, for every probe, stop, removal and bookkeeping. */
  lemma {:induction false} StopExactly(sys: Sys, id: SessionId, c: Cleanup)
    requires Inv(sys)
    ensures var (sys', stopped) := Stop(sys, id, c);
            && (Inv(sys') <==> !Uncovers(id in sys.alive, true, c))
            && (stopped && !Uncovers(id in sys.alive, true, c) ==>
                  !Left(sys', id) && id in sys'.sessions && !Active(sys'.sessions[id].state))
  {
    assert Covered(sys, id);
    if id in sys.sessions && Active(sys.sessions[id].state) {
      var sys' := Stop(sys, id, c).0;
      CleanUpExactly(Put(sys, id, Stopping), id, true, true, c);
      if Uncovers(id in sys.alive, true, c) {
        BareContainer(sys', id);
      } else {
        TouchKeepsInv(sys, sys', id);
      }
    }
  }

  /** A stop leaves an active session stopped exactly if it reports success, and stopping otherwise; a finished one as it is. */
  lemma {:induction false} StopOutcome(sys: Sys, id: SessionId, c: Cleanup)
    requires id in sys.sessions
    ensures var (sys', stopped) := Stop(sys, id, c);
            var s := sys.sessions[id];
            && id in sys'.sessions
            && (Active(s.state) ==> sys'.sessions[id] == s.(state := if stopped then Stopped else Stopping))
            && (!Active(s.state) ==> sys' == sys)
            && (forall o :: o in sys.sessions && o != id ==> o in sys'.sessions && sys'.sessions[o] == sys.sessions[o])
  {
  }

  /** The retirement that reuse decides on, if any, and whether it uncovers. */
  predicate ReuseUncovers(sys: Sys, id: SessionId, alive: Probe, attested: bool, compatible: bool, c: Cleanup)
    requires id in sys.sessions
  {
    var s := sys.sessions[id];
    if s.state.Ready? then
      if !(s.sandbox && s.network && s.collaboration) then Uncovers(id in sys.alive, true, c)
      else if alive.Raises? then false
      else if !Says(alive, id in sys.alive) then Uncovers(id in sys.alive, false, c)
      else compatible && !attested && Uncovers(id in sys.alive, true, c)
    else s.state.Starting? && id !in sys.owners && Uncovers(id in sys.alive, true, c)
  }

  lemma {:induction false} ReuseExactly(sys: Sys, id: SessionId, alive: Probe, attested: bool, compatible: bool, c: Cleanup)
    requires Inv(sys) && id in sys.sessions
    ensures Inv(Reuse(sys, id, alive, attested, compatible, c)) <==>
            !ReuseUncovers(sys, id, alive, attested, compatible, c)
  {
    if Active(sys.sessions[id].state) {
      RetireExactly(sys, id, true, c);
      RetireExactly(sys, id, false, c);
      hide Inv, Retire, Uncovers;
    }
  }

  /** One of the retirements uncovers. */
  predicate ReconcileUncovers(sys: Sys, ids: seq<SessionId>, cs: seq<Cleanup>)
    requires |ids| == |cs|
    decreases |ids|
  {
    if ids == [] then false
    else if !Abandoned(sys, ids[0]) then ReconcileUncovers(sys, ids[1..], cs[1..])
    else
      var (sys1, raised) := Retire(sys, ids[0], true, cs[0]);
      || Uncovers(ids[0] in sys.alive, true, cs[0])
      || (!raised && ReconcileUncovers(sys1, ids[1..], cs[1..]))
  }

  /** What is no longer starting is out of reach of the rest of the loop. */
  lemma {:induction false} ReconcileLeaves(sys: Sys, ids: seq<SessionId>, cs: seq<Cleanup>, id: SessionId)
    requires |ids| == |cs| && id in sys.sessions && !sys.sessions[id].state.Starting?
    ensures var sys' := ReconcileStarts(sys, ids, cs).0;
            (id in sys'.alive <==> id in sys.alive) && (id in sys'.nets <==> id in sys.nets)
    decreases |ids|
  {
    if ids != [] {
      if !Abandoned(sys, ids[0]) {
        ReconcileLeaves(sys, ids[1..], cs[1..], id);
      } else {
        var sys1 := Retire(sys, ids[0], true, cs[0]).0;
        RetireTouches(sys, ids[0], true, cs[0]);
        assert id in sys1.alive - {ids[0]} <==> id in sys.alive - {ids[0]};
        assert id in sys1.nets - {ids[0]} <==> id in sys.nets - {ids[0]};
        ReconcileLeaves(sys1, ids[1..], cs[1..], id);
      }
    }
  }

  lemma {:induction false} ReconcileExactly(sys: Sys, ids: seq<SessionId>, cs: seq<Cleanup>)
    requires Inv(sys) && |ids| == |cs|
    ensures Inv(ReconcileStarts(sys, ids, cs).0) <==> !ReconcileUncovers(sys, ids, cs)
    decreases |ids|, 1
  {
    if ids != [] {
      if !Abandoned(sys, ids[0]) {
        ReconcileExactly(sys, ids[1..], cs[1..]);
      } else {
        ReconcileOne(sys, ids, cs);
      }
    }
  }

  lemma {:induction false} ReconcileOne(sys: Sys, ids: seq<SessionId>, cs: seq<Cleanup>)
    requires Inv(sys) && |ids| == |cs| && ids != [] && Abandoned(sys, ids[0])
    ensures Inv(ReconcileStarts(sys, ids, cs).0) <==> !ReconcileUncovers(sys, ids, cs)
    decreases |ids|, 0
  {
    var (sys1, raised) := Retire(sys, ids[0], true, cs[0]);
    RetireExactly(sys, ids[0], true, cs[0]);
    if Uncovers(ids[0] in sys.alive, true, cs[0]) {
      CleanUpExactly(sys, ids[0], true, true, cs[0]);
      if !raised {
        ReconcileLeaves(sys1, ids[1..], cs[1..], ids[0]);
      }
      BareContainer(ReconcileStarts(sys, ids, cs).0, ids[0]);
    } else if !raised {
      ReconcileExactly(sys1, ids[1..], cs[1..]);
    }
  }

  /******* run *******/

  lemma {:induction false} ClaimInv(sys: Sys, ws: WsId, id: SessionId, gpu: bool, mode: AgentMode)
    requires Inv(sys) && MayClaim(sys, ws, id)
    ensures Inv(Claimed(sys, ws, id, gpu, mode)) && !Left(sys, id)
  {
    var sys' := Claimed(sys, ws, id, gpu, mode);
    assert Covered(sys, id);
    forall s
      ensures Covered(sys', s)
    {
      assert Covered(sys, s);
    }
    forall s | s in sys.sessions && Active(sys.sessions[s].state)
      ensures sys.sessions[s].ws != ws
    {
      assert s !in ActiveIn(sys, ws);
    }
  }

  /** The state in which a rollback starts: the session is active and its container, if any, has its network. */
  ghost predicate Running(sys: Sys, id: SessionId) {
    && Inv(sys) && id in sys.sessions && Active(sys.sessions[id].state)
  }

  lemma {:induction false} RollbackExactly(sys: Sys, id: SessionId, planned: bool, e: RunEnv)
    requires Running(sys, id) && (!planned ==> !Left(sys, id))
    ensures Inv(Rollback(sys, id, planned, e)) <==> !Uncovers(id in sys.alive, true, e.cleanup)
  {
    var sys' := Rollback(sys, id, planned, e);
    CleanUpExactly(sys, id, true, planned, e.cleanup);
    if Uncovers(id in sys.alive, true, e.cleanup) {
      BareContainer(sys', id);
    } else {
      TouchKeepsInv(sys, sys', id);
    }
  }

  lemma {:induction false} AddLeft(sys: Sys, id: SessionId, net: bool, alive: bool)
    requires Running(sys, id) && (alive ==> net)
    ensures Running(sys.(nets := if net then sys.nets + {id} else sys.nets,
                         alive := if alive then sys.alive + {id} else sys.alive), id)
  {
    var sys' := sys.(nets := if net then sys.nets + {id} else sys.nets,
                     alive := if alive then sys.alive + {id} else sys.alive);
    TouchKeepsInv(sys, sys', id);
  }

  lemma {:induction false} StartedRunning(sys: Sys, id: SessionId, e: RunEnv)
    requires Running(sys, id) && id in sys.nets
    ensures Running(Started(sys, id, e), id) && id in Started(sys, id, e).nets
    ensures Started(sys, id, e).sessions == sys.sessions
  {
    TouchKeepsInv(sys, Started(sys, id, e), id);
  }

  predicate StartsContainer(e: RunEnv) {
    !e.start.StartRaises? && !e.dies
  }

  /** After its network, run reaches the ready launch without a rollback. */
  predicate Completes(state: SessionState, e: RunEnv) {
    e.start.Starts? && e.ready && state.Starting? && e.launched
  }

  lemma {:induction false} AfterNetworkExactly(sys: Sys, id: SessionId, e: RunEnv)
    requires Running(sys, id) && id in sys.nets && id !in sys.alive
    ensures Inv(AfterNetwork(sys, id, e)) <==>
            (e.crash.AfterStart? || Completes(sys.sessions[id].state, e) || !Uncovers(StartsContainer(e), true, e.cleanup))
  {
    StartedRunning(sys, id, e);
    var sys1 := Started(sys, id, e);
    assert id in sys1.alive <==> StartsContainer(e);
    RollbackExactly(sys1, id, true, e);
    var s := sys1.sessions[id].(state := Ready, sandbox := true, network := true, collaboration := true);
    var sys2 := sys1.(sessions := sys1.sessions[id := s]);
    TouchKeepsInv(sys1, sys2, id);
    RollbackExactly(sys2, id, true, e);
    hide Inv, Rollback, Uncovers, Started;
  }

  /** The container runs and the rollback that then happens uncovers it. */
  predicate TailUncovers(state: SessionState, e: RunEnv) {
    && e.crash.NoCrash? && e.bound && e.apply.Applies?
    && !Completes(state, e) && Uncovers(StartsContainer(e), true, e.cleanup)
  }

  /**
    What run does after its claim keeps the invariant exactly if it does not uncover, as long as the
    session is still active, so also if a stop has made it stopping in between.
  */
  lemma {:induction false} RunTailExactly(sys: Sys, id: SessionId, e: RunEnv)
    requires Running(sys, id) && !Left(sys, id)
    ensures Inv(RunTail(sys, id, e)) <==> !TailUncovers(sys.sessions[id].state, e)
  {
    if !e.crash.BeforeApply? {
      if !e.bound {
        RollbackExactly(sys, id, false, e);
      } else {
        AddLeft(sys, id, !e.apply.FailsClean?, false);
        var sys1 := if e.apply.FailsClean? then sys else sys.(nets := sys.nets + {id});
        assert sys.alive == sys1.alive;
        if !e.apply.Applies? {
          RollbackExactly(sys1, id, true, e);
        } else {
          AfterNetworkExactly(sys1, id, e);
        }
      }
    }
  }

  predicate RunUncovers(sys: Sys, ws: WsId, id: SessionId, e: RunEnv) {
    MayClaim(sys, ws, id) && TailUncovers(Starting, e)
  }

  /** Owners are not part of the invariant. */
  lemma {:induction false} OwnersFree(sys: Sys, owners: set<SessionId>)
    ensures Inv(sys.(owners := owners)) <==> Inv(sys)
  {
    assert forall s :: Covered(sys.(owners := owners), s) <==> Covered(sys, s);
  }

  lemma {:induction false} RunFreshExactly(sys: Sys, ws: WsId, id: SessionId, gpu: bool, mode: AgentMode, e: RunEnv)
    requires Inv(sys)
    ensures Inv(RunFresh(sys, ws, id, gpu, mode, e)) <==> !RunUncovers(sys, ws, id, e)
  {
    if MayClaim(sys, ws, id) {
      ClaimInv(sys, ws, id, gpu, mode);
      RunTailExactly(Claimed(sys, ws, id, gpu, mode), id, e);
      var tail := RunTail(Claimed(sys, ws, id, gpu, mode), id, e);
      OwnersFree(tail, Disown(tail, id, e).owners);
    }
  }

  /******* All runs *******/

  datatype Op =
    | OpRun(ws: WsId, id: SessionId, gpu: bool, mode: AgentMode, env: RunEnv)
    | OpReuse(id: SessionId, probe: Probe, attested: bool, compatible: bool, c: Cleanup)
    | OpStop(id: SessionId, c: Cleanup)
    | OpReconcile(ids: seq<SessionId>, cs: seq<Cleanup>)
    | OpDies(id: SessionId)  // a container exits on its own

  function Step(sys: Sys, op: Op): Sys {
    match op
    case OpRun(ws, id, gpu, mode, e) => RunFresh(sys, ws, id, gpu, mode, e)
    case OpReuse(id, p, attested, compatible, c) =>
      if id in sys.sessions then Reuse(sys, id, p, attested, compatible, c) else sys
    case OpStop(id, c) => Stop(sys, id, c).0
    case OpReconcile(ids, cs) => if |ids| == |cs| then ReconcileStarts(sys, ids, cs).0 else sys
    case OpDies(id) => sys.(alive := sys.alive - {id})
  }

  function Run(ops: seq<Op>): Sys {
    if ops == [] then Empty else Step(Run(ops[..|ops| - 1]), ops[|ops| - 1])
  }

  /** The operation takes the policy from a live container. */
  predicate StepUncovers(sys: Sys, op: Op) {
    match op
    case OpRun(ws, id, _, _, e) => RunUncovers(sys, ws, id, e)
    case OpReuse(id, p, attested, compatible, c) =>
      id in sys.sessions && ReuseUncovers(sys, id, p, attested, compatible, c)
    case OpStop(id, c) => Uncovers(id in sys.alive, true, c)
    case OpReconcile(ids, cs) => |ids| == |cs| && ReconcileUncovers(sys, ids, cs)
    case OpDies(_) => false
  }

  /** Every operation keeps the invariant exactly if it does not uncover a live container. */
  lemma {:induction false} StepExactly(sys: Sys, op: Op)
    requires Inv(sys)
    ensures Inv(Step(sys, op)) <==> !StepUncovers(sys, op)
  {
    match op
    case OpRun(ws, id, gpu, mode, e) => RunFreshExactly(sys, ws, id, gpu, mode, e);
    case OpReuse(id, p, attested, compatible, c) =>
      if id in sys.sessions {
        ReuseExactly(sys, id, p, attested, compatible, c);
      }
    case OpStop(id, c) => StopExactly(sys, id, c);
    case OpReconcile(ids, cs) =>
      if |ids| == |cs| {
        ReconcileExactly(sys, ids, cs);
      }
    case OpDies(id) => DiesInv(sys, id);
  }

  lemma {:induction false} DiesInv(sys: Sys, id: SessionId)
    requires Inv(sys)
    ensures Inv(sys.(alive := sys.alive - {id}))
  {
    forall s
      ensures Covered(sys.(alive := sys.alive - {id}), s)
    {
      assert Covered(sys, s);
    }
  }

  predicate UncoversAt(ops: seq<Op>, n: nat)
    requires n < |ops|
  {
    StepUncovers(Run(ops[..n]), ops[n])
  }

  /** No operation of the run takes the policy from a live container. */
  ghost predicate Guarded(ops: seq<Op>) {
    forall n :: 0 <= n < |ops| ==> !UncoversAt(ops, n)
  }

  lemma {:induction false} GuardedPrefix(ops: seq<Op>)
    requires ops != []
    ensures Guarded(ops) <==> Guarded(ops[..|ops| - 1]) && !UncoversAt(ops, |ops| - 1)
  {
    var most := ops[..|ops| - 1];
    assert forall n :: 0 <= n < |most| ==> most[..n] == ops[..n];
    assert forall n :: 0 <= n < |most| ==> (UncoversAt(most, n) <==> UncoversAt(ops, n));
  }

  lemma {:induction false} RunInv(ops: seq<Op>)
    requires Guarded(ops)
    ensures Inv(Run(ops))
  {
    if ops != [] {
      GuardedPrefix(ops);
      RunInv(ops[..|ops| - 1]);
      StepExactly(Run(ops[..|ops| - 1]), ops[|ops| - 1]);
    } else {
      assert forall s :: Covered(Empty, s);
    }
  }

  /** The invariant holds at every point of a run exactly if no operation of it uncovers a live container. */
  lemma {:induction false} RunExactly(ops: seq<Op>)
    ensures (forall n :: 0 <= n <= |ops| ==> Inv(Run(ops[..n]))) <==> Guarded(ops)
  {
    if Guarded(ops) {
      forall n | 0 <= n <= |ops|
        ensures Inv(Run(ops[..n]))
      {
        GuardedUpTo(ops, n);
        RunInv(ops[..n]);
      }
    } else {
      var n :| 0 <= n < |ops| && UncoversAt(ops, n);
      assert ops[..n + 1][..n] == ops[..n];
      if Inv(Run(ops[..n])) {
        StepExactly(Run(ops[..n]), ops[n]);
        assert !Inv(Run(ops[..n + 1]));
      }
    }
  }

  lemma {:induction false} GuardedUpTo(ops: seq<Op>, n: nat)
    requires Guarded(ops) && n <= |ops|
    ensures Guarded(ops[..n])
  {
    forall k | 0 <= k < n
      ensures !UncoversAt(ops[..n], k)
    {
      assert ops[..n][..k] == ops[..k];
      assert !UncoversAt(ops, k);
    }
  }

  lemma {:induction false} RunSnoc(ops: seq<Op>, op: Op)
    ensures Run(ops + [op]) == Step(Run(ops), op)
  {
    assert (ops + [op])[..|ops + [op]| - 1] == ops;
  }

  /** A run that does: the stop is ignored, `docker inspect` errs, and the network of the live container goes. */
  lemma {:induction false} UncoveredRun() returns (ops: seq<Op>)
    ensures !Guarded(ops) && 0 in Run(ops).alive && 0 !in Run(ops).nets
    ensures 0 in Run(ops).sessions && Run(ops).sessions[0].state.Stopped?
  {
    var fine := Cleanup(Truth, Stops, Truth, Removes, true, false);
    var bad := Cleanup(Truth, StopIgnored, WrongNo, Removes, false, false);
    var first := OpRun(0, 0, false, WriteMode, RunEnv(true, Applies, Starts, false, true, true, NoCrash, true, fine));
    ops := [first, OpStop(0, bad)];
    assert ops[..1] == [first];
    assert MayClaim(Empty, 0, 0) by { assert ActiveIn(Empty, 0) == {}; }
    var sys := Run([first]);
    RunSnoc([], first);
    assert [] + [first] == [first] && sys == Step(Empty, first);
    RunSnoc([first], OpStop(0, bad));
    assert ops == [first] + [OpStop(0, bad)];
    assert 0 in sys.alive && 0 in sys.nets && sys.sessions[0].state.Ready?;
    assert UncoversAt(ops, 1);
  }

  /******* A condition on the environment alone *******/

  ghost predicate SoundOp(op: Op) {
    match op
    case OpRun(_, _, _, _, e) => Sound(e.cleanup)
    case OpReuse(_, _, _, _, c) => Sound(c)
    case OpStop(_, c) => Sound(c)
    case OpReconcile(_, cs) => forall i :: 0 <= i < |cs| ==> Sound(cs[i])
    case OpDies(_) => true
  }

  lemma {:induction false} SoundReconcile(sys: Sys, ids: seq<SessionId>, cs: seq<Cleanup>)
    requires |ids| == |cs| && forall i :: 0 <= i < |cs| ==> Sound(cs[i])
    ensures !ReconcileUncovers(sys, ids, cs)
    decreases |ids|
  {
    if ids != [] {
      SoundReconcile(sys, ids[1..], cs[1..]);
      if Abandoned(sys, ids[0]) {
        SoundReconcile(Retire(sys, ids[0], true, cs[0]).0, ids[1..], cs[1..]);
      }
    }
  }

  /** If Docker refuses to remove a network in use whenever the confirming probe may be wrong, nothing uncovers. */
  lemma {:induction false} SoundIsGuarded(ops: seq<Op>)
    requires forall i :: 0 <= i < |ops| ==> SoundOp(ops[i])
    ensures Guarded(ops)
  {
    forall n | 0 <= n < |ops|
      ensures !UncoversAt(ops, n)
    {
      SoundStep(Run(ops[..n]), ops[n]);
    }
  }

  lemma {:induction false} SoundStep(sys: Sys, op: Op)
    requires SoundOp(op)
    ensures !StepUncovers(sys, op)
  {
    if op.OpReconcile? && |op.ids| == |op.cs| {
      SoundReconcile(sys, op.ids, op.cs);
    }
  }

  /******* What it means *******/

  /**
    In every guarded run a session with a container or a network left is starting, ready or stopping,
    a live container has its network policy, and a workspace has at most one such session.
  */
  lemma {:induction false} NothingLeftBehind(ops: seq<Op>, s: SessionId, t: SessionId)
    requires Guarded(ops) && Left(Run(ops), s)
    ensures s in Run(ops).sessions && Active(Run(ops).sessions[s].state)
    ensures s in Run(ops).alive ==> s in Run(ops).nets
    ensures Left(Run(ops), t) && t in Run(ops).sessions && Run(ops).sessions[s].ws == Run(ops).sessions[t].ws ==> s == t
  {
    RunInv(ops);
    assert Covered(Run(ops), s) && Covered(Run(ops), t);
  }

  /** No new session is claimed while the workspace has a container or a network left. */
  lemma {:induction false} NoClaimBeforeCleanup(ops: seq<Op>, ws: WsId, id: SessionId, s: SessionId)
    requires Guarded(ops)
    requires Left(Run(ops), s) && s in Run(ops).sessions && Run(ops).sessions[s].ws == ws
    ensures !MayClaim(Run(ops), ws, id)
  {
    RunInv(ops);
    assert Covered(Run(ops), s);
    assert s in ActiveIn(Run(ops), ws);
  }

  /** Nothing raised and nothing was ignored. */
  predicate Works(c: Cleanup) {
    c.first.Truth? && c.stop.Stops? && c.second.Truth? && c.remove.Removes? && !c.booksRaise
  }

  /** And a stop whose cleanup works reopens the workspace: nothing is left there, and a new session can be claimed. */
  lemma {:induction false} CleanupReopens(ops: seq<Op>, s: SessionId, c: Cleanup, id: SessionId)
    requires Guarded(ops)
    requires s in Run(ops).sessions && Active(Run(ops).sessions[s].state) && Works(c) && id !in Run(ops).sessions
    ensures var sys := Run(ops);
            var (sys', stopped) := Stop(sys, s, c);
            && stopped && !Left(sys', s) && sys'.sessions[s].state.Stopped?
            && MayClaim(sys', sys.sessions[s].ws, id)
            && (forall t :: t != s ==> (Left(sys', t) <==> Left(sys, t)))
  {
    RunInv(ops);
    var sys := Run(ops);
    var (sys', stopped) := Stop(sys, s, c);
    forall t | t in sys'.sessions && sys'.sessions[t].ws == sys.sessions[s].ws
      ensures !Active(sys'.sessions[t].state)
    {
      assert t != s ==> sys'.sessions[t] == sys.sessions[t];
    }
    assert ActiveIn(sys', sys.sessions[s].ws) == {};
  }

  /******* How a launch ends *******/

  /** The row is ready with everything verified, the container runs behind its network, and nobody owns the start. */
  lemma {:induction false} CompletedRunIsReady(sys: Sys, ws: WsId, id: SessionId, gpu: bool, mode: AgentMode, e: RunEnv)
    requires MayClaim(sys, ws, id) && id !in sys.alive
    requires e.crash.NoCrash? && e.bound && e.apply.Applies? && Completes(Starting, e)
    ensures var sys' := RunFresh(sys, ws, id, gpu, mode, e);
            && sys'.sessions == sys.sessions[id := Session(ws, gpu, mode, true, true, true, Ready)]
            && id in sys'.nets && (id in sys'.alive <==> !e.dies)
            && sys'.owners == sys.owners - {id}
            && sys'.alive - {id} == sys.alive - {id} && sys'.nets - {id} == sys.nets - {id}
  {
  }

  /** run raises before the session row is ready. */
  predicate FailsEarly(e: RunEnv) {
    e.crash.NoCrash? && !(e.bound && e.apply.Applies? && e.start.Starts? && e.ready)
  }

  /** The rollback of a session that is not ready yet. */
  lemma {:induction false} WorkingRollback(sys: Sys, id: SessionId, planned: bool, e: RunEnv)
    requires Running(sys, id) && sys.sessions[id].state.Starting? && (!planned ==> !Left(sys, id))
    requires Works(e.cleanup) && e.rollbackMoves
    ensures var sys' := Rollback(sys, id, planned, e);
            && sys' == sys.(alive := sys.alive - {id}, nets := sys.nets - {id},
                            sessions := sys.sessions[id := sys.sessions[id].(state := Failed)])
  {
    if !planned {
      assert sys.alive - {id} == sys.alive && sys.nets - {id} == sys.nets;
    }
    assert id !in sys.alive ==> sys.alive - {id} == sys.alive;
  }

  /** After the claim: whatever was created until the failure is gone again. */
  lemma {:induction false} FailedTail(sys: Sys, id: SessionId, e: RunEnv)
    requires Running(sys, id) && sys.sessions[id].state.Starting? && !Left(sys, id)
    requires FailsEarly(e) && Works(e.cleanup) && e.rollbackMoves
    ensures RunTail(sys, id, e) == sys.(sessions := sys.sessions[id := sys.sessions[id].(state := Failed)])
  {
    assert sys.alive - {id} == sys.alive && sys.nets - {id} == sys.nets;
    if !e.bound {
      WorkingRollback(sys, id, false, e);
    } else {
      AddLeft(sys, id, !e.apply.FailsClean?, false);
      var sys1 := if e.apply.FailsClean? then sys else sys.(nets := sys.nets + {id});
      assert sys1.alive == sys.alive && sys1.nets - {id} == sys.nets;
      if !e.apply.Applies? {
        WorkingRollback(sys1, id, true, e);
      } else {
        StartedRunning(sys1, id, e);
        var sys2 := Started(sys1, id, e);
        assert sys2.alive - {id} == sys.alive && sys2.nets == sys1.nets;
        WorkingRollback(sys2, id, true, e);
      }
    }
  }

  /**
    A launch that fails before its session is ready, and whose rollback works, ends failed: nothing is
    left of it, nothing else has changed, and the workspace takes a new session at once.
  */
  lemma {:induction false} FailedRunReopens(sys: Sys, ws: WsId, id: SessionId, gpu: bool, mode: AgentMode, e: RunEnv, next: SessionId)
    requires Inv(sys) && MayClaim(sys, ws, id)
    requires FailsEarly(e) && Works(e.cleanup) && e.rollbackMoves
    requires next !in sys.sessions && next != id
    ensures var sys' := RunFresh(sys, ws, id, gpu, mode, e);
            && sys'.sessions == sys.sessions[id := Session(ws, gpu, mode, false, false, false, Failed)]
            && sys'.alive == sys.alive && sys'.nets == sys.nets && !Left(sys', id)
            && sys'.owners == sys.owners - {id}
            && MayClaim(sys', ws, next)
  {
    ClaimInv(sys, ws, id, gpu, mode);
    FailedTail(Claimed(sys, ws, id, gpu, mode), id, e);
    var sys' := RunFresh(sys, ws, id, gpu, mode, e);
    assert ActiveIn(sys', ws) == {} by {
      forall s | s in sys'.sessions && sys'.sessions[s].ws == ws
        ensures !Active(sys'.sessions[s].state)
      {
        assert s != id ==> s !in ActiveIn(sys, ws);
      }
    }
  }

  /** And a rollback that reports a failure keeps the session's claim, as stopping. */
  lemma {:induction false} FailedRollbackKeepsClaim(sys: Sys, id: SessionId, planned: bool, e: RunEnv)
    requires id in sys.sessions && (sys.sessions[id].state.Starting? || sys.sessions[id].state.Stopping?)
    requires CleanUp(sys, id, true, planned, e.cleanup).1
    ensures var sys' := Rollback(sys, id, planned, e);
            && id in sys'.sessions
            && (sys'.sessions[id].state == sys.sessions[id].state || sys'.sessions[id].state.Stopping?)
            && (!e.cleanup.booksRaise && e.rollbackMoves ==> sys'.sessions[id].state.Stopping?)
  {
  }

  /** If only the launch row cannot be written, the session stays ready with nothing behind it; the next reuse retires it. */
  lemma {:induction false} UnlaunchedRunIsRetired(sys: Sys, ws: WsId, id: SessionId, gpu: bool, mode: AgentMode, e: RunEnv, c: Cleanup)
    requires Inv(sys) && MayClaim(sys, ws, id)
    requires e.crash.NoCrash? && e.bound && e.apply.Applies? && e.start.Starts? && e.ready && !e.launched && Works(e.cleanup)
    requires Works(c)
    ensures var sys' := RunFresh(sys, ws, id, gpu, mode, e);
            && !Left(sys', id) && id in sys'.sessions && sys'.sessions[id].state.Ready?
            && Reuse(sys', id, Truth, true, true, c).sessions[id].state.Failed?
  {
  }

  /******* How a retirement ends *******/

  /** A retirement ends failed exactly if it raised nothing; then nothing is left and the workspace takes a new session. */
  lemma {:induction false} RetireReopens(sys: Sys, id: SessionId, stopIfAlive: bool, c: Cleanup, next: SessionId)
    requires Inv(sys) && id in sys.sessions && Active(sys.sessions[id].state)
    requires !Uncovers(id in sys.alive, stopIfAlive, c) && next !in sys.sessions
    ensures var (sys', raised) := Retire(sys, id, stopIfAlive, c);
            && sys'.sessions[id].state == (if !raised then Failed else if c.booksRaise then sys.sessions[id].state else Stopping)
            && (!raised ==> !Left(sys', id) && MayClaim(sys', sys.sessions[id].ws, next))
            && (Works(c) && (stopIfAlive || id !in sys.alive) ==> !raised)
  {
    var (sys', raised) := Retire(sys, id, stopIfAlive, c);
    CleanUpExactly(sys, id, stopIfAlive, true, c);
    RetireTouches(sys, id, stopIfAlive, c);
    if !raised {
      forall s | s in sys'.sessions && sys'.sessions[s].ws == sys.sessions[id].ws
        ensures !Active(sys'.sessions[s].state)
      {
        assert s != id ==> sys'.sessions[s] == sys.sessions[s];
      }
      assert ActiveIn(sys', sys.sessions[id].ws) == {};
    }
  }

  /** A dead, unverified or unattested session, and a start nobody owns, is retired by its next reuse. */
  lemma {:induction false} ReuseReopens(sys: Sys, id: SessionId, alive: Probe, attested: bool, compatible: bool, c: Cleanup, next: SessionId)
    requires Inv(sys) && id in sys.sessions && Works(c) && alive.Truth? && next !in sys.sessions
    requires var s := sys.sessions[id];
             || (s.state.Starting? && id !in sys.owners)
             || (s.state.Ready? && (!(s.sandbox && s.network && s.collaboration) || id !in sys.alive || (compatible && !attested)))
    ensures var sys' := Reuse(sys, id, alive, attested, compatible, c);
            sys'.sessions[id].state.Failed? && !Left(sys', id) && MayClaim(sys', sys.sessions[id].ws, next)
  {
    RetireReopens(sys, id, true, c, next);
    RetireReopens(sys, id, false, c, next);
    hide Inv, Retire, MayClaim, Left;
  }

  /** And a session that may be reused is left as it is. */
  lemma {:induction false} ReuseKeeps(sys: Sys, id: SessionId, c: Cleanup)
    requires id in sys.sessions && sys.sessions[id].state.Ready? && id in sys.alive
    requires var s := sys.sessions[id]; s.sandbox && s.network && s.collaboration
    ensures Reuse(sys, id, Truth, true, true, c) == sys
  {
  }

  /** The listed rows that are abandoned, each counted once. */
  function AbandonedOf(sys: Sys, ids: seq<SessionId>): seq<SessionId> {
    if ids == [] then []
    else
      var rest := AbandonedOf(sys, ids[1..]);
      if Abandoned(sys, ids[0]) then [ids[0]] + rest else rest
  }

  lemma {:induction false} AbandonedElsewhere(sys: Sys, sys': Sys, ids: seq<SessionId>, id: SessionId)
    requires OnlyTouches(sys, sys', id) && sys'.owners == sys.owners && id !in ids
    ensures AbandonedOf(sys', ids) == AbandonedOf(sys, ids)
  {
    if ids != [] {
      assert Abandoned(sys', ids[0]) <==> Abandoned(sys, ids[0]);
      AbandonedElsewhere(sys, sys', ids[1..], id);
    }
  }

  /** A reconciliation whose cleanups work retires, and counts, exactly the abandoned starts of its listing. */
  lemma {:induction false} ReconcileRetires(sys: Sys, ids: seq<SessionId>, cs: seq<Cleanup>)
    requires |ids| == |cs| && (forall i :: 0 <= i < |cs| ==> Works(cs[i]))
    requires forall i, j :: 0 <= i < j < |ids| ==> ids[i] != ids[j]
    ensures var (sys', count) := ReconcileStarts(sys, ids, cs);
            && count == Some(|AbandonedOf(sys, ids)|)
            && sys'.sessions.Keys == sys.sessions.Keys
            && forall s :: s in sys.sessions ==>
                 sys'.sessions[s] == if s in ids && Abandoned(sys, s) then sys.sessions[s].(state := Failed) else sys.sessions[s]
    decreases |ids|
  {
    if ids != [] {
      assert ids == [ids[0]] + ids[1..];
      if !Abandoned(sys, ids[0]) {
        ReconcileRetires(sys, ids[1..], cs[1..]);
      } else {
        var (sys1, raised) := Retire(sys, ids[0], true, cs[0]);
        assert Works(cs[0]) && !raised;
        RetireTouches(sys, ids[0], true, cs[0]);
        AbandonedElsewhere(sys, sys1, ids[1..], ids[0]);
        ReconcileRetires(sys1, ids[1..], cs[1..]);
      }
    }
  }

  /******* A stop between claim and start *******/

  /** The rollback's probe, stop and removal all took effect. */
  predicate Clears(c: Cleanup) {
    c.first.Truth? && (c.stop.Stops? || c.stop.StopsThenRaises?) && !c.second.Raises? && !c.remove.RemoveRaises?
  }

  /** Without a container there is nothing to stop, but both probes must answer before the network goes. */
  predicate ClearsNetwork(c: Cleanup) {
    !c.first.Raises? && !c.second.Raises? && !c.remove.RemoveRaises?
  }

  /** What is left of a run whose session a stop has already finished is cleaned up. */
  predicate Survives(e: RunEnv) {
    || e.crash.BeforeApply? || !e.bound || e.apply.FailsClean?
    || (&& !e.crash.AfterApply?
        && if !e.apply.Applies? then ClearsNetwork(e.cleanup)
           else !e.crash.AfterStart? && if StartsContainer(e) then Clears(e.cleanup) else ClearsNetwork(e.cleanup))
  }

  /** A session that a stop has finished. */
  ghost predicate Overtaken(sys: Sys, id: SessionId) {
    Inv(sys) && id in sys.sessions && !Active(sys.sessions[id].state)
  }

  /** The session's row stays as the stop left it, so the invariant is that nothing is left. */
  lemma {:induction false} OvertakenExactly(sys: Sys, sys': Sys, id: SessionId)
    requires Overtaken(sys, id) && sys'.sessions == sys.sessions
    requires sys'.alive - {id} == sys.alive - {id} && sys'.nets - {id} == sys.nets - {id}
    ensures Inv(sys') <==> !Left(sys', id)
  {
    if !Left(sys', id) {
      TouchKeepsInv(sys, sys', id);
    } else {
      assert !Covered(sys', id);
    }
  }

  /** The rollback of such a run, with the network and perhaps the container there. */
  lemma {:induction false} OvertakenRollback(sys: Sys, id: SessionId, net: bool, alive: bool, e: RunEnv)
    requires Overtaken(sys, id) && (alive ==> net)
    ensures var sys1 := sys.(nets := if net then sys.nets + {id} else sys.nets,
                             alive := if alive then sys.alive + {id} else sys.alive);
            Inv(Rollback(sys1, id, true, e)) <==>
            (!net || if alive then Clears(e.cleanup) else ClearsNetwork(e.cleanup))
  {
    assert Covered(sys, id);
    var sys1 := sys.(nets := if net then sys.nets + {id} else sys.nets,
                     alive := if alive then sys.alive + {id} else sys.alive);
    CleanUpExactly(sys1, id, true, true, e.cleanup);
    var sys2 := CleanUp(sys1, id, true, true, e.cleanup).0;
    assert Rollback(sys1, id, true, e) == sys2;
    OvertakenExactly(sys, sys2, id);
  }

  /** After the network: the run starts its container, conflicts on the ready row and rolls back. */
  lemma {:induction false} OvertakenNetwork(sys: Sys, id: SessionId, e: RunEnv)
    requires Overtaken(sys, id)
    ensures Inv(AfterNetwork(sys.(nets := sys.nets + {id}), id, e)) <==>
            (!e.crash.AfterStart? && if StartsContainer(e) then Clears(e.cleanup) else ClearsNetwork(e.cleanup))
  {
    assert Covered(sys, id);
    var net := sys.(nets := sys.nets + {id});
    var sys1 := Started(net, id, e);
    assert sys1 == net.(alive := if StartsContainer(e) then net.alive + {id} else net.alive);
    if e.crash.AfterStart? {
      OvertakenExactly(sys, sys1, id);
    } else {
      OvertakenRollback(sys, id, true, StartsContainer(e), e);
      hide Inv, Rollback, Clears, ClearsNetwork;
    }
  }

  /**
    A stop that finished the session between its claim and its container start: run does not notice,
    goes on and only conflicts on the ready row. For every environment the invariant survives exactly
    if whatever run then created is cleaned up again; a crash after the network never is.
  */
  lemma {:induction false} StopOvertakesStart(sys: Sys, id: SessionId, e: RunEnv)
    requires Overtaken(sys, id)
    ensures Inv(RunTail(sys, id, e)) <==> Survives(e)
  {
    assert Covered(sys, id);
    if e.crash.BeforeApply? {
    } else if !e.bound {
      CleanUpExactly(sys, id, true, false, e.cleanup);
      OvertakenExactly(sys, Rollback(sys, id, false, e), id);
    } else if e.apply.FailsClean? {
      OvertakenRollback(sys, id, false, false, e);
    } else if e.crash.AfterApply? {
      OvertakenExactly(sys, sys.(nets := sys.nets + {id}), id);
    } else if !e.apply.Applies? {
      OvertakenRollback(sys, id, true, false, e);
    } else {
      OvertakenNetwork(sys, id, e);
    }
  }

  /** Such an overtaken run from an empty system: claim, stop, then a start whose rollback cannot stop the container. */
  lemma {:induction false} OvertakenContainerStays() returns (sys: Sys, e: RunEnv)
    ensures Overtaken(sys, 0) && sys == Stop(Claimed(Empty, 0, 0, false, WriteMode), 0, e.cleanup.(stop := Stops)).0
    ensures Sound(e.cleanup) && !Survives(e)
    ensures 0 in RunTail(sys, 0, e).alive && RunTail(sys, 0, e).sessions[0].state.Stopped?
  {
    var c := Cleanup(Truth, StopRaises, Truth, Removes, true, false);
    e := RunEnv(true, Applies, Starts, false, true, true, NoCrash, true, c);
    sys := Stop(Claimed(Empty, 0, 0, false, WriteMode), 0, c.(stop := Stops)).0;
    assert forall s :: Covered(sys, s);
  }
}
