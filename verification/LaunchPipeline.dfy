/**
  Launch workers as interleaved transactions. A worker is one execution of the pipeline's run; it
  carries what it has read, which other transactions may have overtaken, to its next transaction.
*/
module LaunchPipeline {
  import opened Options
  import opened StateSpec
  import SessionResults

  type WorkerId = nat

  datatype Request = Request(ws: Option<WsId>, gpu: Gpu, mode: AgentMode)

  /** Where a worker is, with the values it holds there. */
  datatype Pc =
    | Bound                                                // saw the row authorized, policy binding verified
    | Started                                              // moved the launch to starting
    | Prepared(ws: WsId)                                   // workspace created or reopened
    | Reusing(id: SessionId, seen: Session)                // holds a session record it read
    | Attested(id: SessionId, seen: Session)               // found it reusable
    | Following(id: SessionId, seen: Session)              // waits for its owner
    | Building(ws: WsId)                                   // no session to reuse
    | Own(ws: WsId, id: SessionId)                         // claimed its own session
    | OwnBound(ws: WsId, id: SessionId)                    // launch row names it
    | OwnReady(ws: WsId, id: SessionId)                    // session row is ready
    | Finished

  datatype Worker = Worker(launch: LaunchId, request: Request, pc: Pc)

  datatype Sys = Sys(
    db: Db,
    owners: set<SessionId>,
    workers: map<WorkerId, Worker>,
    starts: multiset<LaunchId>)  // history: which launches moved from authorized to starting

  /******* GPU policy *******/

  datatype Probe = Probe(available: bool, devices: set<string>)

  /** effective_gpu_probe; None when it raises. The container is probed only if it can matter. */
  function ResolveGpu(mode: Gpu, host: Probe, container: Probe): Option<bool> {
    if mode.Off? then Some(false)
    else if !host.available || !container.available then (if mode.On? then None else Some(false))
    else if host.devices != container.devices then (if mode.On? then None else Some(false))
    else Some(true)
  }

  predicate GpuSatisfies(policy: Gpu, enabled: bool) {
    (policy.On? ==> enabled) && (policy.Off? ==> !enabled)
  }

  lemma {:induction false} ResolvedGpuSatisfies(mode: Gpu, host: Probe, container: Probe)
    ensures var r := ResolveGpu(mode, host, container); r.Some? ==> GpuSatisfies(mode, r.value)
  {
  }

  /** _assert_session_compatible */
  predicate Compatible(s: Session, r: Request) {
    s.mode == r.mode && GpuSatisfies(r.gpu, s.gpu)
  }

  predicate Verified(s: Session) {
    s.sandbox && s.network && s.collaboration
  }

  /** _verify_launch_binding, apart from the source identity. */
  predicate Binds(l: Launch, r: Request) {
    l.gpu == r.gpu && l.mode == r.mode && (r.ws.Some? ==> l.ws == r.ws)
  }

  /******* Steps *******/

  datatype Action =
    | Begin(w: WorkerId, launch: LaunchId, request: Request)
    | MoveToStarting(w: WorkerId)
    | Prepare(w: WorkerId, ws: WsId)
    | Look(w: WorkerId, found: SessionId)
    | ClaimOwn(w: WorkerId, id: SessionId, host: Probe, container: Probe, found: SessionId)
    | BindOwn(w: WorkerId)
    | ReadyOwn(w: WorkerId)
    | MarkOwn(w: WorkerId)
    | Inspect(w: WorkerId, alive: bool, attested: bool)
    | Follow(w: WorkerId, inTime: bool)
    | MarkReused(w: WorkerId)
    | GiveUp(w: WorkerId, known: Option<WsId>)
    | Transition(id: SessionId, expected: set<SessionState>, state: SessionState, flags: Flags)
    | OwnerDone(id: SessionId)
    | CreateLaunch(id: LaunchId, row: Launch)
    | Trust(id: LaunchId, granted: bool)
    | FailFor(session: SessionId)
    | StopLaunch(id: LaunchId, ws: WsId, seen: LaunchState)

  function Go(sys: Sys, w: WorkerId, db: Db, pc: Pc): Sys
    requires w in sys.workers
  {
    sys.(db := db, workers := sys.workers[w := sys.workers[w].(pc := pc)])
  }

  /** One update_launch_state by a worker: on a conflict it raises, and the worker ends up giving up. */
  function Update(sys: Sys, w: WorkerId, state: LaunchState, ws: Option<WsId>, session: Option<SessionId>, pc: Pc): Sys
    requires w in sys.workers
  {
    var l := sys.workers[w].launch;
    if MayUpdateLaunch(sys.db, l, {LaunchStarting})
    then Go(sys, w, UpdateLaunch(sys.db, l, {LaunchStarting}, state, ws, session), pc)
    else sys
  }

  function InspectStep(sys: Sys, w: WorkerId, alive: bool, attested: bool): Sys
    requires w in sys.workers && sys.workers[w].pc.Reusing?
  {
    var me := sys.workers[w];
    var id, seen := me.pc.id, me.pc.seen;
    if seen.state.Ready? then
      if !Verified(seen) || !alive then Go(sys, w, sys.db, Building(seen.ws))  // retired, then built afresh
      else if !Compatible(seen, me.request) then sys
      else if !attested then Go(sys, w, sys.db, Building(seen.ws))
      else Go(sys, w, sys.db, Attested(id, seen))
    else if seen.state.Starting? then
      if id !in sys.owners then
        if id !in sys.db.sessions then sys
        else if !sys.db.sessions[id].state.Starting? then Go(sys, w, sys.db, Reusing(id, sys.db.sessions[id]))
        else Go(sys, w, sys.db, Building(seen.ws))
      else if !Compatible(seen, me.request) then sys
      else Update(sys, w, LaunchStarting, Some(seen.ws), Some(id), Following(id, seen))
    else sys
  }

  function FollowStep(sys: Sys, w: WorkerId, inTime: bool): Sys
    requires w in sys.workers && sys.workers[w].pc.Following?
  {
    var me := sys.workers[w];
    var id := me.pc.id;
    if !inTime || id in sys.owners || id !in sys.db.sessions then sys
    else if !Compatible(sys.db.sessions[id], me.request) || !sys.db.sessions[id].state.Ready? then sys
    else Go(sys, w, sys.db, Reusing(id, sys.db.sessions[id]))
  }

  function ClaimStep(sys: Sys, w: WorkerId, id: SessionId, host: Probe, container: Probe, found: SessionId): Sys
    requires w in sys.workers && sys.workers[w].pc.Building?
  {
    var me := sys.workers[w];
    var ws := me.pc.ws;
    var gpu := ResolveGpu(me.request.gpu, host, container);
    if gpu.None? || id in sys.db.sessions then sys
    else if ActiveOf(sys.db, ws) == {} then
      Go(sys, w, SessionResults.Claimed(sys.db, id, ws, gpu.value, me.request.mode), Own(ws, id))
        .(owners := sys.owners + {id})
    else if found in ActiveOf(sys.db, ws) then Go(sys, w, sys.db, Reusing(found, sys.db.sessions[found]))
    else sys
  }

  /** An action that is not enabled leaves the system as it is. */
  function Step(sys: Sys, a: Action): Sys {
    match a
    case Begin(w, launch, request) =>
      if w !in sys.workers && launch in sys.db.launches && sys.db.launches[launch].state.Authorized?
         && Binds(sys.db.launches[launch], request)
      then sys.(workers := sys.workers[w := Worker(launch, request, Bound)]) else sys
    case MoveToStarting(w) =>
      if w in sys.workers && sys.workers[w].pc.Bound? then
        var l := sys.workers[w].launch;
        if MayUpdateLaunch(sys.db, l, {Authorized})
        then Go(sys, w, UpdateLaunch(sys.db, l, {Authorized}, LaunchStarting, None, None), Started)
               .(starts := sys.starts + multiset{l})
        else Go(sys, w, sys.db, Finished)
      else sys
    case Prepare(w, ws) =>
      if w in sys.workers && sys.workers[w].pc.Started? && (sys.workers[w].request.ws.Some? ==> sys.workers[w].request.ws == Some(ws))
      then Update(sys, w, LaunchStarting, Some(ws), None, Prepared(ws)) else sys
    case Look(w, found) =>
      if w in sys.workers && sys.workers[w].pc.Prepared? then
        var ws := sys.workers[w].pc.ws;
        if ActiveOf(sys.db, ws) == {} then Go(sys, w, sys.db, Building(ws))
        else if found in ActiveOf(sys.db, ws) then Go(sys, w, sys.db, Reusing(found, sys.db.sessions[found]))
        else sys
      else sys
    case ClaimOwn(w, id, host, container, found) =>
      if w in sys.workers && sys.workers[w].pc.Building? then ClaimStep(sys, w, id, host, container, found) else sys
    case BindOwn(w) =>
      if w in sys.workers && sys.workers[w].pc.Own? then
        var pc := sys.workers[w].pc;
        Update(sys, w, LaunchStarting, Some(pc.ws), Some(pc.id), OwnBound(pc.ws, pc.id))
      else sys
    case ReadyOwn(w) =>
      if w in sys.workers && sys.workers[w].pc.OwnBound? then
        var pc := sys.workers[w].pc;
        if MayTransition(sys.db, pc.id, {Starting}, Ready)
        then Go(sys, w, TransitionSession(sys.db, pc.id, {Starting}, Ready, Set(true, true, true)), OwnReady(pc.ws, pc.id))
        else sys
      else sys
    case MarkOwn(w) =>
      if w in sys.workers && sys.workers[w].pc.OwnReady? then
        var pc := sys.workers[w].pc;
        Update(sys, w, LaunchReady, Some(pc.ws), Some(pc.id), Finished)
      else sys
    case Inspect(w, alive, attested) =>
      if w in sys.workers && sys.workers[w].pc.Reusing? then InspectStep(sys, w, alive, attested) else sys
    case Follow(w, inTime) =>
      if w in sys.workers && sys.workers[w].pc.Following? then FollowStep(sys, w, inTime) else sys
    case MarkReused(w) =>
      if w in sys.workers && sys.workers[w].pc.Attested? then
        var pc := sys.workers[w].pc;
        Update(sys, w, LaunchReady, Some(pc.seen.ws), Some(pc.id), Finished)
      else sys
    case GiveUp(w, ws) =>
      if w in sys.workers && !sys.workers[w].pc.Bound?
      then Go(sys, w, UpdateLaunch(sys.db, sys.workers[w].launch, {LaunchStarting}, LaunchFailed, ws, None), Finished)
      else sys
    case Transition(id, expected, state, flags) =>
      if SessionResults.CallSite(expected, state, flags)
      then sys.(db := TransitionSession(sys.db, id, expected, state, flags)) else sys
    case OwnerDone(id) => sys.(owners := sys.owners - {id})
    case CreateLaunch(id, launch) =>
      if id !in sys.db.launches && (launch.state.PendingTrust? || launch.state.Authorized?)
      then sys.(db := sys.db.(launches := sys.db.launches[id := launch])) else sys
    case Trust(id, granted) =>
      sys.(db := UpdateLaunch(sys.db, id, {PendingTrust}, if granted then Authorized else LaunchFailed, None, None))
    case FailFor(s) => sys.(db := FailLaunchesFor(sys.db, s))
    case StopLaunch(id, ws, seen) =>
      if seen.LaunchStarting? || seen.LaunchReady?
      then sys.(db := UpdateLaunch(sys.db, id, {seen}, LaunchStopped, Some(ws), None)) else sys
  }

  const Empty := Sys(EmptyDb, {}, map[], multiset{})

  function Run(actions: seq<Action>): Sys {
    if actions == [] then Empty else Step(Run(actions[..|actions| - 1]), actions[|actions| - 1])
  }

  /******* What a ready launch promises *******/

  /** The launch names a verified session of its own workspace that fits its policy. */
  ghost predicate Backed(db: Db, l: Launch) {
    && l.session.Some? && l.session.value in db.sessions
    && var s := db.sessions[l.session.value];
    && l.ws == Some(s.ws) && Verified(s) && s.mode == l.mode && GpuSatisfies(l.gpu, s.gpu)
  }

  ghost predicate LaunchesBacked(db: Db) {
    forall l :: l in db.launches && db.launches[l].state.LaunchReady? ==> Backed(db, db.launches[l])
  }

  /** The record a worker holds is of this session; flags once set stay set. */
  ghost predicate RecordOf(seen: Session, now: Session) {
    seen.ws == now.ws && seen.gpu == now.gpu && seen.mode == now.mode && (Verified(seen) ==> Verified(now))
  }

  ghost predicate PcHolds(db: Db, r: Request, pc: Pc) {
    && (pc.Reusing? || pc.Attested? || pc.Following? ==> pc.id in db.sessions && RecordOf(pc.seen, db.sessions[pc.id]))
    && (pc.Attested? ==> Verified(pc.seen) && Compatible(pc.seen, r))
    && (pc.Own? || pc.OwnBound? || pc.OwnReady? ==>
          pc.id in db.sessions && db.sessions[pc.id].ws == pc.ws && Compatible(db.sessions[pc.id], r))
    && (pc.OwnReady? ==> Verified(db.sessions[pc.id]))
  }

  ghost predicate WorkerHolds(db: Db, w: Worker) {
    && w.launch in db.launches
    && db.launches[w.launch].gpu == w.request.gpu && db.launches[w.launch].mode == w.request.mode
    && PcHolds(db, w.request, w.pc)
  }

  ghost predicate WorkersHold(sys: Sys) {
    forall w :: w in sys.workers ==> WorkerHolds(sys.db, sys.workers[w])
  }

  function LaunchRank(s: LaunchState): nat {
    match s
    case PendingTrust => 0
    case Authorized => 1
    case LaunchStarting => 2
    case LaunchReady => 3
    case LaunchFailed => 4
    case LaunchStopped => 4
  }

  /** A launch moved into starting at most once, and not at all while it is only authorized. */
  ghost predicate StartedOnce(sys: Sys) {
    forall l :: sys.starts[l] <= (if l in sys.db.launches && LaunchRank(sys.db.launches[l].state) >= 2 then 1 else 0)
  }

  ghost predicate Inv(sys: Sys) {
    LaunchesBacked(sys.db) && WorkersHold(sys) && StartedOnce(sys)
  }

  /** Sessions keep their identity and their flags; launches keep their policy and only advance. */
  ghost predicate Grows(db: Db, db': Db) {
    && (forall s :: s in db.sessions ==> s in db'.sessions && RecordOf(db.sessions[s], db'.sessions[s]))
    && (forall l :: l in db.launches ==>
          && l in db'.launches
          && db'.launches[l].gpu == db.launches[l].gpu && db'.launches[l].mode == db.launches[l].mode
          && LaunchRank(db.launches[l].state) <= LaunchRank(db'.launches[l].state))
  }

  lemma {:induction false} GrowsWorker(db: Db, db': Db, w: Worker)
    requires Grows(db, db') && WorkerHolds(db, w)
    ensures WorkerHolds(db', w)
  {
    if w.pc.Reusing? || w.pc.Attested? || w.pc.Following? || w.pc.Own? || w.pc.OwnBound? || w.pc.OwnReady? {
      assert RecordOf(db.sessions[w.pc.id], db'.sessions[w.pc.id]);
    }
  }

  lemma {:induction false} GrowsBacked(db: Db, db': Db, l: Launch)
    requires Grows(db, db') && Backed(db, l)
    ensures Backed(db', l)
  {
    assert RecordOf(db.sessions[l.session.value], db'.sessions[l.session.value]);
  }

  /** The rows grew, one worker moved to a place it can justify, nothing was started. */
  lemma {:induction false} MoveKeepsInv(sys: Sys, w: WorkerId, db: Db, pc: Pc)
    requires Inv(sys) && w in sys.workers && Grows(sys.db, db) && LaunchesBacked(db)
    requires PcHolds(db, sys.workers[w].request, pc)
    ensures Inv(Go(sys, w, db, pc))
  {
    var sys' := Go(sys, w, db, pc);
    forall o | o in sys'.workers
      ensures WorkerHolds(db, sys'.workers[o])
    {
      GrowsWorker(sys.db, db, sys.workers[o]);
    }
    forall l
      ensures sys'.starts[l] <= (if l in db.launches && LaunchRank(db.launches[l].state) >= 2 then 1 else 0)
    {
    }
  }

  lemma {:induction false} DbKeepsInv(sys: Sys, db: Db)
    requires Inv(sys) && Grows(sys.db, db) && LaunchesBacked(db)
    ensures Inv(sys.(db := db))
  {
    forall o | o in sys.workers
      ensures WorkerHolds(db, sys.workers[o])
    {
      GrowsWorker(sys.db, db, sys.workers[o]);
    }
    forall l
      ensures sys.starts[l] <= (if l in db.launches && LaunchRank(db.launches[l].state) >= 2 then 1 else 0)
    {
    }
  }

  /** A launch update that does not step back, and that is backed when it reaches ready. */
  lemma {:induction false} UpdateKeepsLaunches(db: Db, id: LaunchId, expected: set<LaunchState>, state: LaunchState,
                            ws: Option<WsId>, session: Option<SessionId>)
    requires LaunchesBacked(db)
    requires forall s :: s in expected ==> LaunchRank(s) <= LaunchRank(state)
    requires state.LaunchReady? && id in db.launches ==>
               && ws.Some? && session.Some?
               && Backed(db, db.launches[id].(ws := ws, session := session))
    ensures var db' := UpdateLaunch(db, id, expected, state, ws, session); Grows(db, db') && LaunchesBacked(db')
  {
    var db' := UpdateLaunch(db, id, expected, state, ws, session);
    forall l | l in db'.launches && db'.launches[l].state.LaunchReady?
      ensures Backed(db', db'.launches[l])
    {
      if l != id {
        assert Backed(db, db.launches[l]);
      }
    }
  }

  lemma {:induction false} TransitionGrows(db: Db, id: SessionId, expected: set<SessionState>, state: SessionState, flags: Flags)
    requires LaunchesBacked(db) && SessionResults.CallSite(expected, state, flags)
    ensures var db' := TransitionSession(db, id, expected, state, flags); Grows(db, db') && LaunchesBacked(db')
  {
    var db' := TransitionSession(db, id, expected, state, flags);
    assert flags.Keep? || flags == Set(true, true, true);
    assert Grows(db, db');
    forall l | l in db'.launches && db'.launches[l].state.LaunchReady?
      ensures Backed(db', db'.launches[l])
    {
      GrowsBacked(db, db', db.launches[l]);
    }
  }

  lemma {:induction false} ClaimGrows(db: Db, id: SessionId, ws: WsId, gpu: bool, mode: AgentMode)
    requires LaunchesBacked(db) && id !in db.sessions
    ensures var db' := SessionResults.Claimed(db, id, ws, gpu, mode); Grows(db, db') && LaunchesBacked(db')
  {
    var db' := SessionResults.Claimed(db, id, ws, gpu, mode);
    forall l | l in db'.launches && db'.launches[l].state.LaunchReady?
      ensures Backed(db', db'.launches[l])
    {
      GrowsBacked(db, db', db.launches[l]);
    }
  }

  lemma {:induction false} WorkerUpdateInv(sys: Sys, w: WorkerId, state: LaunchState, ws: Option<WsId>, session: Option<SessionId>, pc: Pc)
    requires Inv(sys) && w in sys.workers && (state.LaunchStarting? || state.LaunchReady?)
    requires PcHolds(sys.db, sys.workers[w].request, pc)
    requires state.LaunchReady? ==>
               && ws.Some? && session.Some? && session.value in sys.db.sessions
               && var s := sys.db.sessions[session.value];
               s.ws == ws.value && Verified(s) && Compatible(s, sys.workers[w].request)
    ensures Inv(Update(sys, w, state, ws, session, pc))
  {
    var l := sys.workers[w].launch;
    assert WorkerHolds(sys.db, sys.workers[w]);
    UpdateKeepsLaunches(sys.db, l, {LaunchStarting}, state, ws, session);
    var db := UpdateLaunch(sys.db, l, {LaunchStarting}, state, ws, session);
    assert db.sessions == sys.db.sessions;
    MoveKeepsInv(sys, w, db, pc);
  }

  /******* The steps keep it *******/

  lemma {:induction false} MoveToStartingInv(sys: Sys, w: WorkerId)
    requires Inv(sys) && w in sys.workers && sys.workers[w].pc.Bound?
    requires MayUpdateLaunch(sys.db, sys.workers[w].launch, {Authorized})
    ensures Inv(Step(sys, MoveToStarting(w)))
  {
    var l := sys.workers[w].launch;
    UpdateKeepsLaunches(sys.db, l, {Authorized}, LaunchStarting, None, None);
    var db := UpdateLaunch(sys.db, l, {Authorized}, LaunchStarting, None, None);
    MoveKeepsInv(sys, w, db, Started);
    var sys' := Step(sys, MoveToStarting(w));
    assert sys.starts[l] == 0;
    forall o
      ensures sys'.starts[o] <= (if o in db.launches && LaunchRank(db.launches[o].state) >= 2 then 1 else 0)
    {
    }
  }

  lemma {:induction false} InspectInv(sys: Sys, w: WorkerId, alive: bool, attested: bool)
    requires Inv(sys) && w in sys.workers && sys.workers[w].pc.Reusing?
    ensures Inv(InspectStep(sys, w, alive, attested))
  {
    var me := sys.workers[w];
    assert WorkerHolds(sys.db, me) && LaunchesBacked(sys.db);
    GrowsRefl(sys.db);
    hide Inv, LaunchesBacked, Grows, UpdateLaunch, Update, Go;
    var id, seen := me.pc.id, me.pc.seen;
    MoveKeepsInv(sys, w, sys.db, Building(seen.ws));
    if seen.state.Ready? {
      if Verified(seen) && Compatible(seen, me.request) {
        MoveKeepsInv(sys, w, sys.db, Attested(id, seen));
      }
    } else if seen.state.Starting? {
      if id !in sys.owners {
        MoveKeepsInv(sys, w, sys.db, Reusing(id, sys.db.sessions[id]));
      } else {
        WorkerUpdateInv(sys, w, LaunchStarting, Some(seen.ws), Some(id), Following(id, seen));
      }
    }
  }

  lemma {:induction false} FollowInv(sys: Sys, w: WorkerId, inTime: bool)
    requires Inv(sys) && w in sys.workers && sys.workers[w].pc.Following?
    ensures Inv(FollowStep(sys, w, inTime))
  {
    var id := sys.workers[w].pc.id;
    if id in sys.db.sessions {
      MoveKeepsInv(sys, w, sys.db, Reusing(id, sys.db.sessions[id]));
    }
  }

  lemma {:induction false} ClaimInv(sys: Sys, w: WorkerId, id: SessionId, host: Probe, container: Probe, found: SessionId)
    requires Inv(sys) && w in sys.workers && sys.workers[w].pc.Building?
    ensures Inv(ClaimStep(sys, w, id, host, container, found))
  {
    var me := sys.workers[w];
    var ws, gpu := me.pc.ws, ResolveGpu(me.request.gpu, host, container);
    if gpu.Some? && id !in sys.db.sessions {
      ResolvedGpuSatisfies(me.request.gpu, host, container);
      if ActiveOf(sys.db, ws) == {} {
        var db := SessionResults.Claimed(sys.db, id, ws, gpu.value, me.request.mode);
        ClaimGrows(sys.db, id, ws, gpu.value, me.request.mode);
        MoveKeepsInv(sys, w, db, Own(ws, id));
        assert Inv(Go(sys, w, db, Own(ws, id)).(owners := sys.owners + {id}));
      } else if found in ActiveOf(sys.db, ws) {
        MoveKeepsInv(sys, w, sys.db, Reusing(found, sys.db.sessions[found]));
      }
    }
  }

  lemma {:induction false} OwnInv(sys: Sys, a: Action)
    requires Inv(sys) && (a.BindOwn? || a.ReadyOwn? || a.MarkOwn? || a.MarkReused?)
    ensures Inv(Step(sys, a))
  {
    if a.w in sys.workers {
      var me := sys.workers[a.w];
      assert WorkerHolds(sys.db, me);
      if a.BindOwn? && me.pc.Own? {
        WorkerUpdateInv(sys, a.w, LaunchStarting, Some(me.pc.ws), Some(me.pc.id), OwnBound(me.pc.ws, me.pc.id));
      } else if a.ReadyOwn? && me.pc.OwnBound? {
        if MayTransition(sys.db, me.pc.id, {Starting}, Ready) {
          TransitionGrows(sys.db, me.pc.id, {Starting}, Ready, Set(true, true, true));
          MoveKeepsInv(sys, a.w, TransitionSession(sys.db, me.pc.id, {Starting}, Ready, Set(true, true, true)),
                       OwnReady(me.pc.ws, me.pc.id));
        }
      } else if a.MarkOwn? && me.pc.OwnReady? {
        WorkerUpdateInv(sys, a.w, LaunchReady, Some(me.pc.ws), Some(me.pc.id), Finished);
      } else if a.MarkReused? && me.pc.Attested? {
        WorkerUpdateInv(sys, a.w, LaunchReady, Some(me.pc.seen.ws), Some(me.pc.id), Finished);
      }
    }
  }

  lemma {:induction false} CreateGrows(db: Db, id: LaunchId, launch: Launch)
    requires LaunchesBacked(db) && id !in db.launches && !launch.state.LaunchReady?
    ensures var db' := db.(launches := db.launches[id := launch]); Grows(db, db') && LaunchesBacked(db')
  {
    var db' := db.(launches := db.launches[id := launch]);
    forall l | l in db'.launches && db'.launches[l].state.LaunchReady?
      ensures Backed(db', db'.launches[l])
    {
      assert Backed(db, db.launches[l]);
    }
  }

  lemma {:induction false} FailForGrows(db: Db, s: SessionId)
    requires LaunchesBacked(db)
    ensures var db' := FailLaunchesFor(db, s); Grows(db, db') && LaunchesBacked(db')
  {
    var db' := FailLaunchesFor(db, s);
    forall l | l in db'.launches && db'.launches[l].state.LaunchReady?
      ensures Backed(db', db'.launches[l])
    {
      assert Backed(db, db.launches[l]);
    }
  }

  lemma {:induction false} OwnersInv(sys: Sys, owners: set<SessionId>)
    requires Inv(sys)
    ensures Inv(sys.(owners := owners))
  {
  }

  /** Any launch update outside the workers that is not a step back and not one to ready. */
  lemma {:induction false} LaunchUpdateInv(sys: Sys, id: LaunchId, expected: LaunchState, state: LaunchState, ws: Option<WsId>)
    requires Inv(sys) && LaunchRank(expected) <= LaunchRank(state) && !state.LaunchReady?
    ensures Inv(sys.(db := UpdateLaunch(sys.db, id, {expected}, state, ws, None)))
  {
    UpdateKeepsLaunches(sys.db, id, {expected}, state, ws, None);
    hide LaunchesBacked, Grows, UpdateLaunch;
    DbKeepsInv(sys, UpdateLaunch(sys.db, id, {expected}, state, ws, None));
  }

  lemma {:induction false} TransitionInv(sys: Sys, id: SessionId, expected: set<SessionState>, state: SessionState, flags: Flags)
    requires Inv(sys) && SessionResults.CallSite(expected, state, flags)
    ensures Inv(sys.(db := TransitionSession(sys.db, id, expected, state, flags)))
  {
    hide LaunchesBacked, Grows, TransitionSession, SessionResults.CallSite;
    TransitionGrows(sys.db, id, expected, state, flags);
    DbKeepsInv(sys, TransitionSession(sys.db, id, expected, state, flags));
  }

  lemma {:induction false} CreateInv(sys: Sys, id: LaunchId, launch: Launch)
    requires Inv(sys) && id !in sys.db.launches && !launch.state.LaunchReady?
    ensures Inv(sys.(db := sys.db.(launches := sys.db.launches[id := launch])))
  {
    hide LaunchesBacked, Grows;
    CreateGrows(sys.db, id, launch);
    DbKeepsInv(sys, sys.db.(launches := sys.db.launches[id := launch]));
  }

  lemma {:induction false} FailForInv(sys: Sys, s: SessionId)
    requires Inv(sys)
    ensures Inv(sys.(db := FailLaunchesFor(sys.db, s)))
  {
    hide LaunchesBacked, Grows, FailLaunchesFor;
    FailForGrows(sys.db, s);
    DbKeepsInv(sys, FailLaunchesFor(sys.db, s));
  }

  lemma {:induction false} EnvironmentInv(sys: Sys, a: Action)
    requires Inv(sys)
    requires a.Transition? || a.OwnerDone? || a.CreateLaunch? || a.Trust? || a.FailFor? || a.StopLaunch?
    ensures Inv(Step(sys, a))
  {
    hide Inv, UpdateLaunch, TransitionSession, FailLaunchesFor, SessionResults.CallSite;
    match a
    case Transition(id, expected, state, flags) =>
      if SessionResults.CallSite(expected, state, flags) {
        TransitionInv(sys, id, expected, state, flags);
      }
    case OwnerDone(id) => OwnersInv(sys, sys.owners - {id});
    case CreateLaunch(id, launch) =>
      if id !in sys.db.launches && (launch.state.PendingTrust? || launch.state.Authorized?) {
        CreateInv(sys, id, launch);
      }
    case Trust(id, granted) =>
      LaunchUpdateInv(sys, id, PendingTrust, if granted then Authorized else LaunchFailed, None);
    case FailFor(s) =>
      FailForInv(sys, s);
    case StopLaunch(id, ws, seen) =>
      if seen.LaunchStarting? || seen.LaunchReady? {
        LaunchUpdateInv(sys, id, seen, LaunchStopped, Some(ws));
      }
  }

  lemma {:induction false} GrowsRefl(db: Db)
    ensures Grows(db, db)
  {
  }

  lemma {:induction false} BeginInv(sys: Sys, w: WorkerId, launch: LaunchId, request: Request)
    requires Inv(sys)
    ensures Inv(Step(sys, Begin(w, launch, request)))
  {
    assert forall o :: o in sys.workers ==> WorkerHolds(sys.db, sys.workers[o]);
  }

  lemma {:induction false} EarlyInv(sys: Sys, a: Action)
    requires Inv(sys) && (a.Begin? || a.MoveToStarting? || a.Prepare? || a.Look? || a.GiveUp?)
    ensures Inv(Step(sys, a))
  {
    assert LaunchesBacked(sys.db);
    GrowsRefl(sys.db);
    hide Inv, LaunchesBacked, Grows, UpdateLaunch;
    match a
    case Begin(w, launch, request) => BeginInv(sys, w, launch, request);
    case MoveToStarting(w) =>
      if w in sys.workers && sys.workers[w].pc.Bound? {
        if MayUpdateLaunch(sys.db, sys.workers[w].launch, {Authorized}) {
          MoveToStartingInv(sys, w);
        } else {
          MoveKeepsInv(sys, w, sys.db, Finished);
        }
      }
    case Prepare(w, ws) =>
      if w in sys.workers && sys.workers[w].pc.Started? {
        WorkerUpdateInv(sys, w, LaunchStarting, Some(ws), None, Prepared(ws));
      }
    case Look(w, found) =>
      if w in sys.workers && sys.workers[w].pc.Prepared? {
        var ws := sys.workers[w].pc.ws;
        MoveKeepsInv(sys, w, sys.db, Building(ws));
        if found in ActiveOf(sys.db, ws) {
          MoveKeepsInv(sys, w, sys.db, Reusing(found, sys.db.sessions[found]));
        }
      }
    case GiveUp(w, ws) =>
      if w in sys.workers {
        var l := sys.workers[w].launch;
        UpdateKeepsLaunches(sys.db, l, {LaunchStarting}, LaunchFailed, ws, None);
        MoveKeepsInv(sys, w, UpdateLaunch(sys.db, l, {LaunchStarting}, LaunchFailed, ws, None), Finished);
      }
  }

  lemma {:induction false} StepInv(sys: Sys, a: Action)
    requires Inv(sys)
    ensures Inv(Step(sys, a))
  {
    match a
    case ClaimOwn(w, id, host, container, found) =>
      if w in sys.workers && sys.workers[w].pc.Building? {
        ClaimInv(sys, w, id, host, container, found);
      }
    case Inspect(w, alive, attested) =>
      if w in sys.workers && sys.workers[w].pc.Reusing? {
        InspectInv(sys, w, alive, attested);
      }
    case Follow(w, inTime) =>
      if w in sys.workers && sys.workers[w].pc.Following? {
        FollowInv(sys, w, inTime);
      }
    case _ =>
      if a.BindOwn? || a.ReadyOwn? || a.MarkOwn? || a.MarkReused? {
        OwnInv(sys, a);
      } else if a.Begin? || a.MoveToStarting? || a.Prepare? || a.Look? || a.GiveUp? {
        EarlyInv(sys, a);
      } else {
        EnvironmentInv(sys, a);
      }
  }

  lemma {:induction false} RunInv(actions: seq<Action>)
    ensures Inv(Run(actions))
  {
    if actions != [] {
      RunInv(actions[..|actions| - 1]);
      StepInv(Run(actions[..|actions| - 1]), actions[|actions| - 1]);
    }
  }

  /**
    In every interleaving a launch that reads ready names a verified session of its own workspace
    that has its agent mode and satisfies its GPU policy, started fresh, reused or followed.
  */
  lemma {:induction false} ReadyLaunchIsBacked(actions: seq<Action>, l: LaunchId)
    requires l in Run(actions).db.launches && Run(actions).db.launches[l].state.LaunchReady?
    ensures Backed(Run(actions).db, Run(actions).db.launches[l])
  {
    RunInv(actions);
  }

  /** In every interleaving a launch moves from authorized to starting at most once. */
  lemma {:induction false} StartsAtMostOnce(actions: seq<Action>, l: LaunchId)
    ensures Run(actions).starts[l] <= 1
    ensures (l in Run(actions).db.launches && LaunchRank(Run(actions).db.launches[l].state) < LaunchRank(LaunchStarting)) ==>
              Run(actions).starts[l] == 0
  {
    RunInv(actions);
  }
}
