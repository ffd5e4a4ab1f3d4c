/** The stores as objects over the rows: every method is one transaction. */
module StateStore {
  import opened Options
  import opened S = StateSpec

  class Store {
    var sessions: map<SessionId, Session>
    var leases: map<LeaseId, Lease>
    var launches: map<LaunchId, Launch>
    const staleAfter: nat

    ghost function View(): Db
      reads this
    {
      Db(sessions, leases, launches)
    }

    constructor (staleAfter: nat)
      requires staleAfter > 0
      ensures View() == EmptyDb && this.staleAfter == staleAfter
    {
      sessions, leases, launches := map[], map[], map[];
      this.staleAfter := staleAfter;
    }

    method ClaimSession(id: SessionId, ws: WsId, gpu: bool, mode: AgentMode, reuse: bool) returns (r: Claim)
      modifies this`sessions
      ensures ClaimSpec(old(View()), View(), id, ws, gpu, mode, reuse, r)
    {
      var active := set s | s in sessions && sessions[s].ws == ws && Active(sessions[s].state);
      assert active == ActiveOf(View(), ws);
      if active != {} {
        if reuse {
          var s :| s in active;
          return Existing(s);
        }
        return WorkspaceActive;
      }
      if id in sessions {
        return WorkspaceActive;
      }
      sessions := sessions[id := Session(ws, gpu, mode, false, false, false, Starting)];
      return Created;
    }

    method TransitionSession(id: SessionId, expected: set<SessionState>, state: SessionState, flags: Flags)
      returns (moved: bool)
      modifies this`sessions
      ensures View() == S.TransitionSession(old(View()), id, expected, state, flags)
      ensures moved <==> MayTransition(old(View()), id, expected, state)
    {
      if expected == {} || id !in sessions || sessions[id].state !in expected {
        return false;
      }
      var others := set s | s in sessions && sessions[s].ws == sessions[id].ws && Active(sessions[s].state);
      assert others == ActiveOf(View(), sessions[id].ws);
      if Active(state) && !(others <= {id}) {
        return false;
      }
      var s := sessions[id].(state := state);
      if flags.Set? {
        s := s.(sandbox := flags.sandbox, network := flags.network, collaboration := flags.collaboration);
      }
      sessions := sessions[id := s];
      return true;
    }

    method Acquire(id: LeaseId, s: SessionId, now: Time) returns (ok: bool)
      modifies this`leases
      ensures View() == S.Acquire(old(View()), id, s, now, staleAfter)
      ensures ok <==> MayAcquire(old(View()), id, s, now, staleAfter)
    {
      if s !in sessions || !sessions[s].state.Ready? || !sessions[s].mode.WriteMode? {
        return false;
      }
      var begun := leases;
      var limit := staleAfter;
      leases := ReleaseWhere(leases, (l: Lease) => l.session == s && Beat(l) < now - limit, now);
      assert leases == Reclaimed(old(View()), s, now, staleAfter);
      var holders := set l | l in leases && leases[l].released.None? && leases[l].session == s;
      if id in leases || holders != {} {
        assert holders != {} ==> exists l :: l in holders;
        leases := begun;
        return false;
      }
      assert NoneHeld(leases, s) by {
        forall l | l in leases && Held(leases[l])
          ensures leases[l].session != s
        {
          assert l !in holders;
        }
      }
      leases := leases[id := Lease(s, now, Some(now), None)];
      return true;
    }

    method Heartbeat(id: LeaseId, now: Time) returns (beating: bool)
      modifies this`leases
      ensures View() == S.Heartbeat(old(View()), id, now)
      ensures beating <==> id in old(leases) && Held(old(leases)[id])
    {
      beating := id in leases && leases[id].released.None?;
      if beating {
        leases := leases[id := leases[id].(heartbeat := Some(now))];
      }
    }

    method Release(id: LeaseId, now: Time)
      modifies this`leases
      ensures View() == S.Release(old(View()), id, now)
    {
      if id in leases && leases[id].released.None? {
        leases := leases[id := leases[id].(released := Some(now))];
      }
    }

    method ReleaseSession(s: SessionId, now: Time)
      modifies this`leases
      ensures View() == S.ReleaseSession(old(View()), s, now)
    {
      leases := map l | l in leases ::
        if leases[l].session == s && leases[l].released.None? then leases[l].(released := Some(now)) else leases[l];
    }

    method Reconcile(now: Time) returns (count: nat)
      modifies this`leases
      ensures View() == S.Reconcile(old(View()), now, staleAfter)
      ensures count == |set l | l in old(leases) && Held(old(leases)[l]) &&
                                Expired(old(View()), old(leases)[l], now, staleAfter)|
    {
      var gone := set l | l in leases && leases[l].released.None? &&
        (Beat(leases[l]) < now - staleAfter ||
         (leases[l].session in sessions && !Active(sessions[leases[l].session].state)));
      assert gone == set l | l in leases && Held(leases[l]) && Expired(View(), leases[l], now, staleAfter);
      leases := map l | l in leases :: if l in gone then leases[l].(released := Some(now)) else leases[l];
      count := |gone|;
    }

    method UpdateLaunch(id: LaunchId, expected: set<LaunchState>, state: LaunchState,
                        ws: Option<WsId>, session: Option<SessionId>) returns (moved: bool)
      modifies this`launches
      ensures View() == S.UpdateLaunch(old(View()), id, expected, state, ws, session)
      ensures moved <==> MayUpdateLaunch(old(View()), id, expected)
    {
      if expected == {} || id !in launches || launches[id].state !in expected {
        return false;
      }
      var l := launches[id].(state := state);
      if ws.Some? {
        l := l.(ws := ws);
      }
      if session.Some? {
        l := l.(session := session);
      }
      launches := launches[id := l];
      return true;
    }
  }
}
