/** The session, lease and launch rows, and what each SQL transaction does to them. */
module StateSpec {
  import opened Options

  type WsId = nat
  type SessionId = nat
  type LeaseId = nat
  type LaunchId = nat
  type Time = int

  datatype SessionState = Starting | Ready | Stopping | Stopped | Failed
  datatype AgentMode = WriteMode | ReadOnly
  datatype Gpu = Auto | On | Off

  predicate Active(s: SessionState) {
    s.Starting? || s.Ready? || s.Stopping?
  }

  datatype Session = Session(
    ws: WsId, gpu: bool, mode: AgentMode, sandbox: bool, network: bool, collaboration: bool, state: SessionState)

  datatype Lease = Lease(session: SessionId, acquired: Time, heartbeat: Option<Time>, released: Option<Time>)

  datatype LaunchState = PendingTrust | Authorized | LaunchStarting | LaunchReady | LaunchFailed | LaunchStopped

  datatype Launch = Launch(
    ws: Option<WsId>, session: Option<SessionId>, gpu: Gpu, mode: AgentMode, state: LaunchState)

  datatype Db = Db(
    sessions: map<SessionId, Session>,
    leases: map<LeaseId, Lease>,
    launches: map<LaunchId, Launch>)

  const EmptyDb := Db(map[], map[], map[])

  /******* Sessions *******/

  function ActiveOf(db: Db, ws: WsId): set<SessionId> {
    set s | s in db.sessions && db.sessions[s].ws == ws && Active(db.sessions[s].state)
  }

  datatype Claim = Created | Existing(id: SessionId) | WorkspaceActive

  /** claim_session: an active session of the workspace is returned, never joined by a second one. */
  ghost predicate ClaimSpec(db: Db, db': Db, id: SessionId, ws: WsId, gpu: bool, mode: AgentMode, reuse: bool, r: Claim) {
    var active := ActiveOf(db, ws);
    && (r.Created? <==> active == {} && id !in db.sessions)
    && (r.Existing? ==> reuse && r.id in active && db' == db)
    && (r.WorkspaceActive? ==> db' == db && (active != {} ==> !reuse))
    && (r.Created? ==>
          db' == db.(sessions := db.sessions[id := Session(ws, gpu, mode, false, false, false, Starting)]))
  }

  /** The partial unique index on active sessions admits this state for this session. */
  predicate IndexAdmits(db: Db, id: SessionId, state: SessionState)
    requires id in db.sessions
  {
    Active(state) ==> ActiveOf(db, db.sessions[id].ws) <= {id}
  }

  datatype Flags = Keep | Set(sandbox: bool, network: bool, collaboration: bool)

  predicate MayTransition(db: Db, id: SessionId, expected: set<SessionState>, state: SessionState) {
    && expected != {}
    && id in db.sessions && db.sessions[id].state in expected
    && IndexAdmits(db, id, state)
  }

  function Transitioned(db: Db, id: SessionId, state: SessionState, flags: Flags): Db
    requires id in db.sessions
  {
    var s := db.sessions[id].(state := state);
    var s' := if flags.Set? then s.(sandbox := flags.sandbox, network := flags.network, collaboration := flags.collaboration) else s;
    db.(sessions := db.sessions[id := s'])
  }

  /** transition_session: the row moves only from an expected state; otherwise a conflict is raised. */
  function TransitionSession(db: Db, id: SessionId, expected: set<SessionState>, state: SessionState, flags: Flags): Db {
    if MayTransition(db, id, expected, state) then Transitioned(db, id, state, flags) else db
  }

  /******* Leases *******/

  function Beat(l: Lease): Time {
    if l.heartbeat.Some? then l.heartbeat.value else l.acquired
  }

  predicate Held(l: Lease) {
    l.released.None?
  }

  /** Every held lease that satisfies `which` is released now. */
  function ReleaseWhere(leases: map<LeaseId, Lease>, which: Lease -> bool, now: Time): map<LeaseId, Lease> {
    map l | l in leases ::
      if Held(leases[l]) && which(leases[l]) then leases[l].(released := Some(now)) else leases[l]
  }

  predicate WritableSession(db: Db, s: SessionId) {
    s in db.sessions && db.sessions[s].state.Ready? && db.sessions[s].mode.WriteMode?
  }

  function Reclaimed(db: Db, s: SessionId, now: Time, limit: nat): map<LeaseId, Lease> {
    ReleaseWhere(db.leases, (l: Lease) => l.session == s && Beat(l) < now - limit, now)
  }

  /** The partial unique index on held leases admits another one for this session. */
  predicate NoneHeld(leases: map<LeaseId, Lease>, s: SessionId) {
    forall l :: l in leases && Held(leases[l]) ==> leases[l].session != s
  }

  predicate MayAcquire(db: Db, id: LeaseId, s: SessionId, now: Time, limit: nat) {
    WritableSession(db, s) && id !in db.leases && NoneHeld(Reclaimed(db, s, now, limit), s)
  }

  /** acquire: reclaim stale leases of the session, then insert; a collision rolls both back. */
  function Acquire(db: Db, id: LeaseId, s: SessionId, now: Time, limit: nat): Db {
    if MayAcquire(db, id, s, now, limit)
    then db.(leases := Reclaimed(db, s, now, limit)[id := Lease(s, now, Some(now), None)])
    else db
  }

  function Heartbeat(db: Db, id: LeaseId, now: Time): Db {
    if id in db.leases && Held(db.leases[id])
    then db.(leases := db.leases[id := db.leases[id].(heartbeat := Some(now))])
    else db
  }

  function Release(db: Db, id: LeaseId, now: Time): Db {
    if id in db.leases && Held(db.leases[id])
    then db.(leases := db.leases[id := db.leases[id].(released := Some(now))])
    else db
  }

  /** invalidate_session of the lease store, release_session_leases of the state store. */
  function ReleaseSession(db: Db, s: SessionId, now: Time): Db {
    db.(leases := ReleaseWhere(db.leases, (l: Lease) => l.session == s, now))
  }

  predicate Expired(db: Db, l: Lease, now: Time, limit: nat) {
    Beat(l) < now - limit || (l.session in db.sessions && !Active(db.sessions[l.session].state))
  }

  function Reconcile(db: Db, now: Time, limit: nat): Db {
    db.(leases := ReleaseWhere(db.leases, (l: Lease) => Expired(db, l, now, limit), now))
  }

  /******* Launches *******/

  predicate MayUpdateLaunch(db: Db, id: LaunchId, expected: set<LaunchState>) {
    expected != {} && id in db.launches && db.launches[id].state in expected
  }

  /** update_launch_state: COALESCE keeps the workspace and the session when none is given. */
  function UpdateLaunch(db: Db, id: LaunchId, expected: set<LaunchState>, state: LaunchState,
                        ws: Option<WsId>, session: Option<SessionId>): Db
  {
    if MayUpdateLaunch(db, id, expected) then
      var l := db.launches[id];
      db.(launches := db.launches[id := l.(state := state,
                                           ws := if ws.Some? then ws else l.ws,
                                           session := if session.Some? then session else l.session)])
    else db
  }

  function FailLaunchesFor(db: Db, s: SessionId): Db {
    db.(launches := map l | l in db.launches ::
          if db.launches[l].session == Some(s) && db.launches[l].state.LaunchStarting?
          then db.launches[l].(state := LaunchFailed) else db.launches[l])
  }
}
