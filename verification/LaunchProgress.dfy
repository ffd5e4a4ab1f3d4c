/** Undisturbed launches end ready: started fresh, on a ready session, or behind another launch's start. */
module LaunchProgress {
  import opened Options
  import opened StateSpec
  import SessionResults
  import opened LaunchPipeline

  /** The system after some actions. */
  function After(sys: Sys, actions: seq<Action>): Sys
    decreases |actions|
  {
    if actions == [] then sys else After(Step(sys, actions[0]), actions[1..])
  }

  lemma {:induction false} AfterOne(sys: Sys, a: Action, more: seq<Action>)
    ensures After(sys, [a] + more) == After(Step(sys, a), more)
  {
    hide Step;
    assert ([a] + more)[1..] == more;
  }

  lemma {:induction false} AfterConcat(sys: Sys, a: seq<Action>, b: seq<Action>)
    ensures After(sys, a + b) == After(After(sys, a), b)
    decreases |a|
  {
    hide Step;
    if a == [] {
      assert a + b == b;
    } else {
      AfterConcat(Step(sys, a[0]), a[1..], b);
      assert (a + b)[1..] == a[1..] + b && (a + b)[0] == a[0];
    }
  }

  /******* Up to the workspace *******/

  /** The launch is authorized, the request is bound to it, and the worker is new. */
  ghost predicate MayBegin(sys: Sys, w: WorkerId, l: LaunchId, request: Request, ws: WsId) {
    && w !in sys.workers && l in sys.db.launches && sys.db.launches[l].state.Authorized?
    && Binds(sys.db.launches[l], request) && (request.ws.Some? ==> request.ws == Some(ws))
  }

  function Beginning(w: WorkerId, l: LaunchId, request: Request, ws: WsId): seq<Action> {
    [Begin(w, l, request)] + ([MoveToStarting(w)] + ([Prepare(w, ws)] + []))
  }

  /** The worker holds its prepared workspace and its launch is starting there; nothing else differs. */
  ghost predicate PreparedIn(sys: Sys, w: WorkerId, l: LaunchId, request: Request, ws: WsId) {
    && w in sys.workers && sys.workers[w] == Worker(l, request, Prepared(ws))
    && l in sys.db.launches && sys.db.launches[l].state.LaunchStarting? && sys.db.launches[l].ws == Some(ws)
  }

  lemma {:induction false} ReachesPrepared(sys: Sys, w: WorkerId, l: LaunchId, request: Request, ws: WsId)
    requires MayBegin(sys, w, l, request, ws)
    ensures var sys' := After(sys, Beginning(w, l, request, ws));
            && PreparedIn(sys', w, l, request, ws)
            && sys'.db.sessions == sys.db.sessions && sys'.owners == sys.owners
            && sys'.starts == sys.starts + multiset{l}
            && (forall o :: o in sys.db.launches && o != l ==> o in sys'.db.launches && sys'.db.launches[o] == sys.db.launches[o])
  {
    var s1 := Step(sys, Begin(w, l, request));
    var s2 := Step(s1, MoveToStarting(w));
    AfterOne(sys, Begin(w, l, request), [MoveToStarting(w)] + ([Prepare(w, ws)] + []));
    AfterOne(s1, MoveToStarting(w), [Prepare(w, ws)] + []);
    AfterOne(s2, Prepare(w, ws), []);
    var s3 := Step(s2, Prepare(w, ws));
    assert After(s3, []) == s3;
    hide After;
    assert s2.workers[w] == Worker(l, request, Started);
    assert s2.db.launches[l].state.LaunchStarting?;
  }

  /******* From there *******/

  /** The launch is ready on this session, and its worker is done. */
  ghost predicate EndsReady(sys: Sys, w: WorkerId, l: LaunchId, ws: WsId, id: SessionId) {
    && w in sys.workers && sys.workers[w].pc.Finished?
    && l in sys.db.launches && sys.db.launches[l].state.LaunchReady?
    && sys.db.launches[l].ws == Some(ws) && sys.db.launches[l].session == Some(id)
    && id in sys.db.sessions && sys.db.sessions[id].state.Ready? && sys.db.sessions[id].ws == ws
  }

  function OwnEnd(w: WorkerId): seq<Action> {
    [BindOwn(w)] + ([ReadyOwn(w)] + ([MarkOwn(w)] + []))
  }

  lemma {:induction false} OwnEndsReady(sys: Sys, w: WorkerId, l: LaunchId, request: Request, ws: WsId, id: SessionId)
    requires w in sys.workers && sys.workers[w] == Worker(l, request, Own(ws, id))
    requires l in sys.db.launches && sys.db.launches[l].state.LaunchStarting?
    requires id in sys.db.sessions && sys.db.sessions[id].state.Starting? && sys.db.sessions[id].ws == ws
    requires ActiveOf(sys.db, ws) == {id}
    ensures EndsReady(After(sys, OwnEnd(w)), w, l, ws, id)
  {
    var s1 := Step(sys, BindOwn(w));
    var s2 := Step(s1, ReadyOwn(w));
    AfterOne(sys, BindOwn(w), [ReadyOwn(w)] + ([MarkOwn(w)] + []));
    AfterOne(s1, ReadyOwn(w), [MarkOwn(w)] + []);
    AfterOne(s2, MarkOwn(w), []);
    var s3 := Step(s2, MarkOwn(w));
    assert After(s3, []) == s3;
    hide After;
    assert s1.workers[w].pc == OwnBound(ws, id) && s1.db.sessions == sys.db.sessions;
    assert ActiveOf(s1.db, ws) == {id};
    assert s2.workers[w].pc == OwnReady(ws, id) && s2.db.launches == s1.db.launches;
    assert s2.db.sessions[id].state.Ready? && s2.db.sessions[id].ws == ws;
  }

  function FreshStart(w: WorkerId, id: SessionId, host: Probe, container: Probe): seq<Action> {
    [Look(w, id)] + ([ClaimOwn(w, id, host, container, id)] + OwnEnd(w))
  }

  /** Without a session in the workspace the worker claims, starts and readies its own. */
  lemma {:induction false} FreshStartEndsReady(sys: Sys, w: WorkerId, l: LaunchId, request: Request, ws: WsId, id: SessionId,
                                               host: Probe, container: Probe)
    requires PreparedIn(sys, w, l, request, ws) && ActiveOf(sys.db, ws) == {} && id !in sys.db.sessions
    requires ResolveGpu(request.gpu, host, container).Some?
    ensures EndsReady(After(sys, FreshStart(w, id, host, container)), w, l, ws, id)
  {
    var s1 := Step(sys, Look(w, id));
    var s2 := Step(s1, ClaimOwn(w, id, host, container, id));
    AfterOne(sys, Look(w, id), [ClaimOwn(w, id, host, container, id)] + OwnEnd(w));
    AfterOne(s1, ClaimOwn(w, id, host, container, id), OwnEnd(w));
    hide After, ResolveGpu, OwnEnd;
    assert s1.workers[w] == Worker(l, request, Building(ws)) && s1.db == sys.db;
    assert s2.workers[w] == Worker(l, request, Own(ws, id)) && s2.db.launches == sys.db.launches;
    assert ActiveOf(s2.db, ws) == {id} by {
      forall s | s in ActiveOf(s2.db, ws)
        ensures s == id
      {
        assert s != id ==> s in ActiveOf(sys.db, ws);
      }
    }
    hide Step, PreparedIn, EndsReady;
    OwnEndsReady(s2, w, l, request, ws, id);
  }

  function ReuseEnd(w: WorkerId): seq<Action> {
    [Inspect(w, true, true)] + ([MarkReused(w)] + [])
  }

  lemma {:induction false} ReuseEndsReady(sys: Sys, w: WorkerId, l: LaunchId, request: Request, id: SessionId)
    requires id in sys.db.sessions
    requires var s := sys.db.sessions[id];
             && s.state.Ready? && Verified(s) && Compatible(s, request)
             && w in sys.workers && sys.workers[w] == Worker(l, request, Reusing(id, s))
    requires l in sys.db.launches && sys.db.launches[l].state.LaunchStarting?
    ensures EndsReady(After(sys, ReuseEnd(w)), w, l, sys.db.sessions[id].ws, id)
  {
    var s1 := Step(sys, Inspect(w, true, true));
    AfterOne(sys, Inspect(w, true, true), [MarkReused(w)] + []);
    AfterOne(s1, MarkReused(w), []);
    var s2 := Step(s1, MarkReused(w));
    assert After(s2, []) == s2;
    hide After, Verified, Compatible;
    assert s1.workers[w].pc == Attested(id, sys.db.sessions[id]) && s1.db == sys.db;
  }

  /** A ready, verified and compatible session of the workspace is reused. */
  lemma {:induction false} ReusedEndsReady(sys: Sys, w: WorkerId, l: LaunchId, request: Request, ws: WsId, id: SessionId)
    requires PreparedIn(sys, w, l, request, ws) && id in ActiveOf(sys.db, ws)
    requires var s := sys.db.sessions[id]; s.state.Ready? && Verified(s) && Compatible(s, request)
    ensures EndsReady(After(sys, [Look(w, id)] + ReuseEnd(w)), w, l, ws, id)
  {
    var s1 := Step(sys, Look(w, id));
    AfterOne(sys, Look(w, id), ReuseEnd(w));
    assert s1.workers[w] == Worker(l, request, Reusing(id, sys.db.sessions[id])) && s1.db == sys.db;
    hide After, Step, PreparedIn, EndsReady, Verified, Compatible, ReuseEnd;
    ReuseEndsReady(s1, w, l, request, id);
  }

  function FollowEnd(w: WorkerId, id: SessionId): seq<Action> {
    [Transition(id, {Starting}, Ready, Set(true, true, true))] + ([OwnerDone(id)] + ([Follow(w, true)] + ReuseEnd(w)))
  }

  /** The owner readies the session and is done; the follower then reuses it. */
  lemma {:induction false} FollowerEndsReady(sys: Sys, w: WorkerId, l: LaunchId, request: Request, ws: WsId, id: SessionId, seen: Session)
    requires w in sys.workers && sys.workers[w] == Worker(l, request, Following(id, seen))
    requires l in sys.db.launches && sys.db.launches[l].state.LaunchStarting?
    requires id in sys.db.sessions && ActiveOf(sys.db, ws) == {id}
    requires var s := sys.db.sessions[id]; s.state.Starting? && s.ws == ws && Compatible(s, request)
    ensures EndsReady(After(sys, FollowEnd(w, id)), w, l, ws, id)
  {
    var readied := Transition(id, {Starting}, Ready, Set(true, true, true));
    var s1 := Step(sys, readied);
    var s2 := Step(s1, OwnerDone(id));
    var s3 := Step(s2, Follow(w, true));
    AfterOne(sys, readied, [OwnerDone(id)] + ([Follow(w, true)] + ReuseEnd(w)));
    AfterOne(s1, OwnerDone(id), [Follow(w, true)] + ReuseEnd(w));
    AfterOne(s2, Follow(w, true), ReuseEnd(w));
    hide After, ReuseEnd;
    var s := sys.db.sessions[id].(state := Ready, sandbox := true, network := true, collaboration := true);
    assert s1.db.sessions[id] == s && s1.workers == sys.workers && s1.db.launches == sys.db.launches;
    assert s2.db == s1.db && id !in s2.owners && s2.workers == sys.workers;
    assert s3.workers[w] == Worker(l, request, Reusing(id, s)) && s3.db == s1.db;
    hide Step;
    ReuseEndsReady(s3, w, l, request, id);
  }

  /** A start that another launch owns is followed. */
  lemma {:induction false} FollowedEndsReady(sys: Sys, w: WorkerId, l: LaunchId, request: Request, ws: WsId, id: SessionId)
    requires PreparedIn(sys, w, l, request, ws) && ActiveOf(sys.db, ws) == {id} && id in sys.owners
    requires var s := sys.db.sessions[id]; s.state.Starting? && Compatible(s, request)
    ensures EndsReady(After(sys, [Look(w, id)] + ([Inspect(w, true, true)] + FollowEnd(w, id))), w, l, ws, id)
  {
    var seen := sys.db.sessions[id];
    assert id in ActiveOf(sys.db, ws);
    var s1 := Step(sys, Look(w, id));
    var s2 := Step(s1, Inspect(w, true, true));
    AfterOne(sys, Look(w, id), [Inspect(w, true, true)] + FollowEnd(w, id));
    AfterOne(s1, Inspect(w, true, true), FollowEnd(w, id));
    hide After, Compatible, FollowEnd;
    assert s1.workers[w] == Worker(l, request, Reusing(id, seen)) && s1.db == sys.db && s1.owners == sys.owners;
    assert s2.workers[w] == Worker(l, request, Following(id, seen)) && s2.db.sessions == sys.db.sessions;
    assert s2.db.launches[l].state.LaunchStarting?;
    assert ActiveOf(s2.db, ws) == {id};
    hide Step, PreparedIn, EndsReady;
    FollowerEndsReady(s2, w, l, request, ws, id, seen);
  }

  /** The session is dead, unverified or nobody's start: it is given up and the worker builds its own. */
  lemma {:induction false} RetiredEndsReady(sys: Sys, w: WorkerId, l: LaunchId, request: Request, ws: WsId, id: SessionId, own: SessionId,
                                            host: Probe, container: Probe)
    requires PreparedIn(sys, w, l, request, ws) && ActiveOf(sys.db, ws) == {id} && own !in sys.db.sessions
    requires sys.db.sessions[id].state.Ready? || (sys.db.sessions[id].state.Starting? && id !in sys.owners)
    requires ResolveGpu(request.gpu, host, container).Some?
    ensures var retired := Transition(id, {sys.db.sessions[id].state}, Failed, Keep);
            EndsReady(After(sys, [Look(w, id)] + ([Inspect(w, false, false)] + ([retired] +
                                 ([ClaimOwn(w, own, host, container, own)] + OwnEnd(w))))), w, l, ws, own)
  {
    var seen := sys.db.sessions[id];
    assert id in ActiveOf(sys.db, ws);
    var retired := Transition(id, {seen.state}, Failed, Keep);
    var claim := ClaimOwn(w, own, host, container, own);
    var s1 := Step(sys, Look(w, id));
    var s2 := Step(s1, Inspect(w, false, false));
    var s3 := Step(s2, retired);
    var s4 := Step(s3, claim);
    AfterOne(sys, Look(w, id), [Inspect(w, false, false)] + ([retired] + ([claim] + OwnEnd(w))));
    AfterOne(s1, Inspect(w, false, false), [retired] + ([claim] + OwnEnd(w)));
    AfterOne(s2, retired, [claim] + OwnEnd(w));
    AfterOne(s3, claim, OwnEnd(w));
    hide After, ResolveGpu, OwnEnd;
    assert s1.workers[w] == Worker(l, request, Reusing(id, seen)) && s1.db == sys.db && s1.owners == sys.owners;
    assert s2.workers[w] == Worker(l, request, Building(ws)) && s2.db == sys.db;
    GivenUp(s2, id, ws);
    assert s3.workers == s2.workers && s3.db.launches == s2.db.launches && own !in s3.db.sessions;
    assert s4.workers[w] == Worker(l, request, Own(ws, own)) && s4.db.launches == s3.db.launches;
    assert ActiveOf(s4.db, ws) == {own} by {
      forall s | s in ActiveOf(s4.db, ws)
        ensures s == own
      {
        assert s != own ==> s in ActiveOf(s3.db, ws);
      }
    }
    hide Step, PreparedIn, EndsReady;
    OwnEndsReady(s4, w, l, request, ws, own);
  }

  /** The one active session of a workspace given up leaves it without one. */
  lemma {:induction false} GivenUp(sys: Sys, id: SessionId, ws: WsId)
    requires ActiveOf(sys.db, ws) == {id} && (sys.db.sessions[id].state.Ready? || sys.db.sessions[id].state.Starting?)
    ensures var sys' := Step(sys, Transition(id, {sys.db.sessions[id].state}, Failed, Keep));
            && ActiveOf(sys'.db, ws) == {} && sys'.workers == sys.workers && sys'.db.launches == sys.db.launches
            && sys'.db.sessions.Keys == sys.db.sessions.Keys
  {
    assert id in ActiveOf(sys.db, ws);
    var sys' := Step(sys, Transition(id, {sys.db.sessions[id].state}, Failed, Keep));
    forall s
      ensures s !in ActiveOf(sys'.db, ws)
    {
      assert s in ActiveOf(sys'.db, ws) ==> s in ActiveOf(sys.db, ws) && s != id;
    }
  }

  /******* Whole launches *******/

  /**
    An authorized launch that nobody disturbs ends ready, in each of the three situations its workspace
    may be in: no session, a ready one that fits, or a start that fits and somebody owns.
  */
  lemma {:induction false} LaunchEndsReady(sys: Sys, w: WorkerId, l: LaunchId, request: Request, ws: WsId, id: SessionId,
                                           host: Probe, container: Probe)
    returns (rest: seq<Action>)
    requires MayBegin(sys, w, l, request, ws)
    requires
      || (ActiveOf(sys.db, ws) == {} && id !in sys.db.sessions && ResolveGpu(request.gpu, host, container).Some?)
      || (&& ActiveOf(sys.db, ws) == {id} && id in sys.db.sessions
          && var s := sys.db.sessions[id];
          Compatible(s, request) && ((s.state.Ready? && Verified(s)) || (s.state.Starting? && id in sys.owners)))
    ensures EndsReady(After(sys, Beginning(w, l, request, ws) + rest), w, l, ws, id)
    ensures After(sys, Beginning(w, l, request, ws) + rest).starts == sys.starts + multiset{l}
  {
    ReachesPrepared(sys, w, l, request, ws);
    var begun := After(sys, Beginning(w, l, request, ws));
    assert ActiveOf(begun.db, ws) == ActiveOf(sys.db, ws);
    hide PreparedIn, EndsReady, Step, MayBegin, ResolveGpu, Compatible, Verified, Beginning, After;
    if ActiveOf(sys.db, ws) == {} {
      rest := FreshStart(w, id, host, container);
      FreshStartEndsReady(begun, w, l, request, ws, id, host, container);
    } else {
      assert id in ActiveOf(begun.db, ws);
      if sys.db.sessions[id].state.Ready? {
        rest := [Look(w, id)] + ReuseEnd(w);
        ReusedEndsReady(begun, w, l, request, ws, id);
      } else {
        rest := [Look(w, id)] + ([Inspect(w, true, true)] + FollowEnd(w, id));
        FollowedEndsReady(begun, w, l, request, ws, id);
      }
    }
    AfterConcat(sys, Beginning(w, l, request, ws), rest);
    KeepsStarts(begun, rest);
  }

  /** Only the move from authorized to starting is counted as a start. */
  lemma {:induction false} KeepsStarts(sys: Sys, actions: seq<Action>)
    requires forall i :: 0 <= i < |actions| ==> !actions[i].MoveToStarting?
    ensures After(sys, actions).starts == sys.starts
    decreases |actions|
  {
    if actions != [] {
      StepKeepsStarts(sys, actions[0]);
      hide Step;
      KeepsStarts(Step(sys, actions[0]), actions[1..]);
    }
  }

  lemma {:induction false} StepKeepsStarts(sys: Sys, a: Action)
    requires !a.MoveToStarting?
    ensures Step(sys, a).starts == sys.starts
  {
  }

  /******* Launches that end otherwise *******/

  /** A worker that gives up fails its launch if it was starting, and nobody's else. */
  lemma {:induction false} GiveUpFails(sys: Sys, w: WorkerId, ws: Option<WsId>)
    requires w in sys.workers && !sys.workers[w].pc.Bound? && sys.workers[w].launch in sys.db.launches
    ensures var sys', l := Step(sys, GiveUp(w, ws)), sys.workers[w].launch;
            && l in sys'.db.launches && sys'.workers[w].pc.Finished?
            && sys'.db.launches[l].state ==
               (if sys.db.launches[l].state.LaunchStarting? then LaunchFailed else sys.db.launches[l].state)
            && sys'.db.launches[l].session == sys.db.launches[l].session
            && sys'.db.launches[l].ws ==
               (if sys.db.launches[l].state.LaunchStarting? && ws.Some? then ws else sys.db.launches[l].ws)
            && sys'.db.sessions == sys.db.sessions
            && (forall o :: o in sys.db.launches && o != l ==> o in sys'.db.launches && sys'.db.launches[o] == sys.db.launches[o])
  {
  }

  /** A stop ends a launch that still is as it was seen, starting or ready, and no other. */
  lemma {:induction false} StopEndsLaunch(sys: Sys, l: LaunchId, ws: WsId, seen: LaunchState)
    requires l in sys.db.launches
    ensures var sys', row := Step(sys, StopLaunch(l, ws, seen)), sys.db.launches[l];
            && l in sys'.db.launches
            && sys'.db.launches[l] ==
               (if row.state == seen && (seen.LaunchStarting? || seen.LaunchReady?)
                then row.(state := LaunchStopped, ws := Some(ws)) else row)
            && (forall o :: o in sys.db.launches && o != l ==> o in sys'.db.launches && sys'.db.launches[o] == sys.db.launches[o])
  {
  }

  /** A trust decision moves a pending launch to authorized or failed, and no other launch. */
  lemma {:induction false} TrustDecides(sys: Sys, l: LaunchId, granted: bool)
    requires l in sys.db.launches
    ensures var sys', row := Step(sys, Trust(l, granted)), sys.db.launches[l];
            && l in sys'.db.launches
            && sys'.db.launches[l] ==
               (if row.state.PendingTrust? then row.(state := if granted then Authorized else LaunchFailed) else row)
  {
  }

  /** When a session is given up, exactly the launches that were starting on it fail. */
  lemma {:induction false} GivenUpSessionFailsLaunches(sys: Sys, s: SessionId, l: LaunchId)
    requires l in sys.db.launches
    ensures var sys', row := Step(sys, FailFor(s)), sys.db.launches[l];
            && l in sys'.db.launches
            && (sys'.db.launches[l] != row <==> row.state.LaunchStarting? && row.session == Some(s))
            && (sys'.db.launches[l] != row ==> sys'.db.launches[l] == row.(state := LaunchFailed))
  {
  }

  /** The GPU is used exactly if it is not switched off and host and container offer the same devices; on insists. */
  lemma {:induction false} ResolvedGpuExactly(mode: Gpu, host: Probe, container: Probe)
    ensures var r, usable := ResolveGpu(mode, host, container), host.available && container.available && host.devices == container.devices;
            && (r == Some(true) <==> !mode.Off? && usable)
            && (r == None <==> mode.On? && !usable)
  {
  }
}
