/** The pipeline's runtime operations as an object, each proved to have exactly its specified effect. */
module Runtime {
  import opened Options
  import opened StateSpec
  import opened S = RuntimeSpec

  class Pipeline {
    var sessions: map<SessionId, Session>
    var alive: set<SessionId>
    var nets: set<SessionId>
    var owners: set<SessionId>

    ghost function View(): Sys
      reads this
    {
      Sys(sessions, alive, nets, owners)
    }

    constructor ()
      ensures View() == S.Empty
    {
      sessions, alive, nets, owners := map[], {}, {}, {};
    }

    method StopAndConfirm(id: SessionId, stopIfAlive: bool, c: Cleanup) returns (confirmed: bool, failed: bool)
      modifies this`alive
      ensures (alive, confirmed, failed) == Confirm(old(alive), id, stopIfAlive, c)
    {
      if c.first.Raises? {
        return false, true;
      }
      failed := false;
      if c.first.Truth? && id in alive && stopIfAlive {
        if c.stop.Stops? || c.stop.StopsThenRaises? {
          alive := alive - {id};
        }
        if c.stop.StopsThenRaises? || c.stop.StopRaises? {
          failed := true;
        }
      }
      if c.second.Raises? {
        return false, true;
      }
      if c.second.Truth? && id in alive {
        return false, true;
      }
      confirmed := true;
    }

    method RemoveNetwork(id: SessionId, c: Cleanup) returns (raised: bool)
      modifies this`nets
      ensures (nets, raised) == S.RemoveNetwork(old(nets), alive, id, c)
    {
      if c.refuses && id in alive && id in nets {
        return true;
      }
      if !c.remove.RemoveRaises? {
        nets := nets - {id};
      }
      return !c.remove.Removes?;
    }

    method CleanUp(id: SessionId, stopIfAlive: bool, planned: bool, c: Cleanup) returns (failed: bool)
      modifies this`alive, this`nets
      ensures (View(), failed) == S.CleanUp(old(View()), id, stopIfAlive, planned, c)
    {
      var confirmed;
      confirmed, failed := StopAndConfirm(id, stopIfAlive, c);
      if planned && confirmed {
        var raised := RemoveNetwork(id, c);
        failed := failed || raised;
      }
    }

    method Rollback(id: SessionId, planned: bool, e: RunEnv)
      modifies this
      ensures View() == S.Rollback(old(View()), id, planned, e)
    {
      var failed := CleanUp(id, true, planned, e.cleanup);
      if e.cleanup.booksRaise || id !in sessions || !e.rollbackMoves {
        return;
      }
      var state := sessions[id].state;
      if state.Starting? || state.Stopping? {
        if !failed {
          sessions := sessions[id := sessions[id].(state := Failed)];
        } else if state.Starting? {
          sessions := sessions[id := sessions[id].(state := Stopping)];
        }
      }
    }

    method Run(ws: WsId, id: SessionId, gpu: bool, mode: AgentMode, e: RunEnv)
      modifies this
      ensures View() == RunFresh(old(View()), ws, id, gpu, mode, e)
    {
      var active := set s | s in sessions && sessions[s].ws == ws && Active(sessions[s].state);
      assert active == ActiveIn(View(), ws);
      if active != {} || id in sessions {
        return;
      }
      sessions := sessions[id := Session(ws, gpu, mode, false, false, false, Starting)];
      owners := owners + {id};
      Tail(id, e);
      if e.crash.NoCrash? {
        owners := owners - {id};
      } else {
        owners := {};
      }
    }

    method Tail(id: SessionId, e: RunEnv)
      modifies this
      ensures View() == RunTail(old(View()), id, e)
    {
      if e.crash.BeforeApply? {
        return;
      }
      if !e.bound {
        Rollback(id, false, e);
        return;
      }
      if !e.apply.FailsClean? {
        nets := nets + {id};
      }
      if e.crash.AfterApply? {
        return;
      }
      if !e.apply.Applies? {
        Rollback(id, true, e);
        return;
      }
      if !e.start.StartRaises? {
        alive := alive + {id};
      }
      if e.dies {
        alive := alive - {id};
      }
      if e.crash.AfterStart? {
        return;
      }
      if !e.start.Starts? || !e.ready || id !in sessions || !sessions[id].state.Starting? {
        Rollback(id, true, e);
        return;
      }
      sessions := sessions[id := sessions[id].(state := Ready, sandbox := true, network := true, collaboration := true)];
      if !e.launched {
        Rollback(id, true, e);
      }
    }

    method RetireSession(id: SessionId, stopIfAlive: bool, c: Cleanup) returns (raised: bool)
      requires id in sessions
      modifies this`sessions, this`alive, this`nets
      ensures (View(), raised) == Retire(old(View()), id, stopIfAlive, c)
    {
      var failed := CleanUp(id, stopIfAlive, true, c);
      if c.booksRaise {
        return true;
      }
      sessions := sessions[id := sessions[id].(state := if failed then Stopping else Failed)];
      return failed;
    }

    /** _reuse_existing_session; `probe`, `attested` and `compatible` are what its checks found. */
    method ReuseExistingSession(id: SessionId, probe: Probe, attested: bool, compatible: bool, c: Cleanup)
      requires id in sessions
      modifies this`sessions, this`alive, this`nets
      ensures View() == Reuse(old(View()), id, probe, attested, compatible, c)
    {
      var s := sessions[id];
      if s.state.Stopping? || s.state.Stopped? || s.state.Failed? {
        return;
      }
      if s.state.Ready? {
        if !s.sandbox || !s.network || !s.collaboration {
          var _ := RetireSession(id, true, c);
          return;
        }
        if probe.Raises? {
          return;
        }
        if !(probe.Truth? && id in alive) {
          var _ := RetireSession(id, false, c);
          return;
        }
        if compatible && !attested {
          var _ := RetireSession(id, true, c);
        }
        return;
      }
      if id !in owners {
        var _ := RetireSession(id, true, c);
      }
    }

    method StopSession(id: SessionId, c: Cleanup) returns (stopped: bool)
      modifies this`sessions, this`alive, this`nets
      ensures (View(), stopped) == Stop(old(View()), id, c)
    {
      if id !in sessions {
        return false;
      }
      var s := sessions[id];
      if s.state.Stopped? || s.state.Failed? {
        return !c.booksRaise;
      }
      sessions := sessions[id := s.(state := Stopping)];
      var failed := CleanUp(id, true, true, c);
      if c.booksRaise || failed {
        return false;
      }
      sessions := sessions[id := s.(state := Stopped)];
      return true;
    }

    method ReconcileStarting(ids: seq<SessionId>, cs: seq<Cleanup>) returns (reconciled: Option<nat>)
      requires |ids| == |cs|
      modifies this`sessions, this`alive, this`nets
      ensures (View(), reconciled) == ReconcileStarts(old(View()), ids, cs)
    {
      var count := 0;
      for i := 0 to |ids|
        invariant var (left, more) := ReconcileStarts(View(), ids[i..], cs[i..]);
                  ReconcileStarts(old(View()), ids, cs) ==
                  (left, if more.Some? then Some(count + more.value) else None)
      {
        assert ids[i..][1..] == ids[i + 1..] && cs[i..][1..] == cs[i + 1..];
        if ids[i] in sessions && sessions[ids[i]].state.Starting? && ids[i] !in owners {
          var raised := RetireSession(ids[i], true, cs[i]);
          if raised {
            return None;
          }
          count := count + 1;
        }
      }
      reconciled := Some(count);
    }
  }
}
