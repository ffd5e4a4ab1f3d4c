/**
  Containers and network policies of sessions, with whole pipeline operations as steps. Probes,
  stops, applies, starts and removals may raise, before or after they took effect.
*/
module RuntimeSpec {
  import opened Options
  import opened StateSpec

  /** What is on the host (containers, networks), in the session rows and in this process (owners). */
  datatype Sys = Sys(
    sessions: map<SessionId, Session>,
    alive: set<SessionId>,
    nets: set<SessionId>,
    owners: set<SessionId>)

  const Empty := Sys(map[], {}, {}, {})

  /** A liveness probe. is_alive answers false also when docker inspect exits with an error. */
  datatype Probe = Truth | Raises | WrongNo

  datatype StopAct = Stops | StopsThenRaises | StopRaises | StopIgnored
  datatype RemoveAct = Removes | RemovesThenRaises | RemoveRaises

  /** The environment of one cleanup. `refuses`: Docker keeps a network with a running container. */
  datatype Cleanup = Cleanup(
    first: Probe, stop: StopAct, second: Probe, remove: RemoveAct, refuses: bool, booksRaise: bool)

  /** A container can only be mistaken for stopped if Docker still protects its network. */
  predicate Sound(c: Cleanup) {
    c.second.WrongNo? ==> c.refuses
  }

  predicate Says(p: Probe, alive: bool) {
    p.Truth? && alive
  }

  /** _stop_and_confirm_runtime: the containers left, whether stopped is confirmed, whether anything failed. */
  function Confirm(alive: set<SessionId>, id: SessionId, stopIfAlive: bool, c: Cleanup): (set<SessionId>, bool, bool) {
    if c.first.Raises? then (alive, false, true)
    else
      var stopping := Says(c.first, id in alive) && stopIfAlive;
      var left := if stopping && (c.stop.Stops? || c.stop.StopsThenRaises?) then alive - {id} else alive;
      var failed := stopping && (c.stop.StopsThenRaises? || c.stop.StopRaises?);
      if c.second.Raises? || Says(c.second, id in left) then (left, false, true) else (left, true, failed)
  }

  /** network.remove: the networks left and whether it raised. */
  function RemoveNetwork(nets: set<SessionId>, alive: set<SessionId>, id: SessionId, c: Cleanup): (set<SessionId>, bool) {
    if c.refuses && id in alive && id in nets then (nets, true)
    else (if c.remove.RemoveRaises? then nets else nets - {id}, !c.remove.Removes?)
  }

  /** Stop, then remove the network only once the runtime is confirmed stopped. */
  function CleanUp(sys: Sys, id: SessionId, stopIfAlive: bool, planned: bool, c: Cleanup): (Sys, bool) {
    var (alive, confirmed, failed) := Confirm(sys.alive, id, stopIfAlive, c);
    if planned && confirmed then
      var (nets, raised) := RemoveNetwork(sys.nets, alive, id, c);
      (sys.(alive := alive, nets := nets), failed || raised)
    else (sys.(alive := alive), failed)
  }

  function Put(sys: Sys, id: SessionId, state: SessionState): Sys
    requires id in sys.sessions
  {
    sys.(sessions := sys.sessions[id := sys.sessions[id].(state := state)])
  }

  /******* run *******/

  datatype ApplyAct = Applies | FailsClean | FailsLeft
  datatype StartAct = Starts | StartRaises | StartsThenRaises
  datatype Crash = NoCrash | BeforeApply | AfterApply | AfterStart

  /** The environment of one fresh launch. */
  datatype RunEnv = RunEnv(
    bound: bool, apply: ApplyAct, start: StartAct, dies: bool, ready: bool, launched: bool,
    crash: Crash, rollbackMoves: bool, cleanup: Cleanup)

  function ActiveIn(sys: Sys, ws: WsId): set<SessionId> {
    set s | s in sys.sessions && sys.sessions[s].ws == ws && Active(sys.sessions[s].state)
  }

  predicate MayClaim(sys: Sys, ws: WsId, id: SessionId) {
    ActiveIn(sys, ws) == {} && id !in sys.sessions
  }

  function Claimed(sys: Sys, ws: WsId, id: SessionId, gpu: bool, mode: AgentMode): Sys {
    sys.(sessions := sys.sessions[id := Session(ws, gpu, mode, false, false, false, Starting)],
         owners := sys.owners + {id})
  }

  /** The except branch: clean up, then fail the session, or keep it as stopping if anything is left. */
  function Rollback(sys: Sys, id: SessionId, planned: bool, e: RunEnv): Sys {
    var (sys1, failed) := CleanUp(sys, id, true, planned, e.cleanup);
    if e.cleanup.booksRaise || id !in sys1.sessions || !e.rollbackMoves then sys1
    else
      var state := sys1.sessions[id].state;
      if (state.Starting? || state.Stopping?) && !failed then Put(sys1, id, Failed)
      else if state.Starting? then Put(sys1, id, Stopping)
      else sys1
  }

  function Started(sys: Sys, id: SessionId, e: RunEnv): Sys {
    var sys1 := if e.start.StartRaises? then sys else sys.(alive := sys.alive + {id});
    if e.dies then sys1.(alive := sys1.alive - {id}) else sys1
  }

  /** From the network on: start, readiness, the ready row, the launch row. */
  function AfterNetwork(sys: Sys, id: SessionId, e: RunEnv): Sys {
    var sys1 := Started(sys, id, e);
    if e.crash.AfterStart? then sys1
    else if !e.start.Starts? || !e.ready then Rollback(sys1, id, true, e)
    else if id !in sys1.sessions || !sys1.sessions[id].state.Starting? then Rollback(sys1, id, true, e)
    else
      var s := sys1.sessions[id].(state := Ready, sandbox := true, network := true, collaboration := true);
      var sys2 := sys1.(sessions := sys1.sessions[id := s]);
      if e.launched then sys2 else Rollback(sys2, id, true, e)
  }

  /** Everything run does after its claim; it does not read the session's state again. */
  function RunTail(sys: Sys, id: SessionId, e: RunEnv): Sys {
    if e.crash.BeforeApply? then sys
    else if !e.bound then Rollback(sys, id, false, e)
    else
      var sys1 := if e.apply.FailsClean? then sys else sys.(nets := sys.nets + {id});
      if e.crash.AfterApply? then sys1
      else if !e.apply.Applies? then Rollback(sys1, id, true, e)
      else AfterNetwork(sys1, id, e)
  }

  /** A crash of the launcher loses every owner; otherwise run gives up its own. */
  function Disown(sys: Sys, id: SessionId, e: RunEnv): Sys {
    sys.(owners := if e.crash.NoCrash? then sys.owners - {id} else {})
  }

  function RunFresh(sys: Sys, ws: WsId, id: SessionId, gpu: bool, mode: AgentMode, e: RunEnv): Sys {
    if MayClaim(sys, ws, id) then Disown(RunTail(Claimed(sys, ws, id, gpu, mode), id, e), id, e) else sys
  }

  /******* Retiring and stopping *******/

  /** _retire_session on a session that is in its expected state. */
  function Retire(sys: Sys, id: SessionId, stopIfAlive: bool, c: Cleanup): (Sys, bool)
    requires id in sys.sessions
  {
    var (sys1, failed) := CleanUp(sys, id, stopIfAlive, true, c);
    if c.booksRaise then (sys1, true)
    else if failed then (Put(sys1, id, Stopping), true)
    else (Put(sys1, id, Failed), false)
  }

  /** _reuse_existing_session on the workspace's active session; what it retires it may clean up. */
  function Reuse(sys: Sys, id: SessionId, alive: Probe, attested: bool, compatible: bool, c: Cleanup): Sys
    requires id in sys.sessions
  {
    var s := sys.sessions[id];
    if s.state.Ready? then
      if !(s.sandbox && s.network && s.collaboration) then Retire(sys, id, true, c).0
      else if alive.Raises? then sys
      else if !Says(alive, id in sys.alive) then Retire(sys, id, false, c).0
      else if !compatible || attested then sys
      else Retire(sys, id, true, c).0
    else if s.state.Starting? && id !in sys.owners then Retire(sys, id, true, c).0
    else sys
  }

  /** stop, which first makes the session stopping. */
  function Stop(sys: Sys, id: SessionId, c: Cleanup): (Sys, bool) {
    if id !in sys.sessions then (sys, false)
    else if !Active(sys.sessions[id].state) then (sys, !c.booksRaise)
    else
      var (sys1, failed) := CleanUp(Put(sys, id, Stopping), id, true, true, c);
      if c.booksRaise || failed then (sys1, false) else (Put(sys1, id, Stopped), true)
  }

  /** Rows that reconcile_starting_sessions retires. */
  predicate Abandoned(sys: Sys, id: SessionId) {
    id in sys.sessions && sys.sessions[id].state.Starting? && id !in sys.owners
  }

  /**
    reconcile_starting_sessions over a listing of the starting rows: what is left and how many were
    retired; a raising retirement ends it without a count.
  */
  function ReconcileStarts(sys: Sys, ids: seq<SessionId>, cs: seq<Cleanup>): (Sys, Option<nat>)
    requires |ids| == |cs|
    decreases |ids|
  {
    if ids == [] then (sys, Some(0))
    else if !Abandoned(sys, ids[0]) then ReconcileStarts(sys, ids[1..], cs[1..])
    else
      var (sys1, raised) := Retire(sys, ids[0], true, cs[0]);
      if raised then (sys1, None)
      else
        var (left, count) := ReconcileStarts(sys1, ids[1..], cs[1..]);
        (left, if count.Some? then Some(count.value + 1) else None)
  }
}
