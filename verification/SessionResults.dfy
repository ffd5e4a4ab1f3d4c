/** What every interleaving of session and lease transactions keeps. */
module SessionResults {
  import opened Options
  import opened StateSpec

  datatype Tx =
    | TxClaim(session: SessionId, ws: WsId, gpu: bool, mode: AgentMode)
    | TxTransition(session: SessionId, expected: set<SessionState>, state: SessionState, flags: Flags)
    | TxAcquire(lease: LeaseId, session: SessionId)
    | TxHeartbeat(lease: LeaseId)
    | TxRelease(lease: LeaseId)
    | TxReleaseSession(session: SessionId)
    | TxReconcile

  datatype Timed = Timed(tx: Tx, at: Time)

  function Claimed(db: Db, id: SessionId, ws: WsId, gpu: bool, mode: AgentMode): Db {
    if ActiveOf(db, ws) == {} && id !in db.sessions
    then db.(sessions := db.sessions[id := Session(ws, gpu, mode, false, false, false, Starting)])
    else db
  }

  /** Whatever claim_session answers, its effect on the rows is this. */
  lemma {:induction false} ClaimEffect(db: Db, db': Db, id: SessionId, ws: WsId, gpu: bool, mode: AgentMode, reuse: bool, r: Claim)
    requires ClaimSpec(db, db', id, ws, gpu, mode, reuse, r)
    ensures db' == Claimed(db, id, ws, gpu, mode)
  {
  }

  function Apply(db: Db, t: Timed, limit: nat): Db {
    match t.tx
    case TxClaim(s, ws, gpu, mode) => Claimed(db, s, ws, gpu, mode)
    case TxTransition(s, expected, state, flags) => TransitionSession(db, s, expected, state, flags)
    case TxAcquire(l, s) => Acquire(db, l, s, t.at, limit)
    case TxHeartbeat(l) => Heartbeat(db, l, t.at)
    case TxRelease(l) => Release(db, l, t.at)
    case TxReleaseSession(s) => ReleaseSession(db, s, t.at)
    case TxReconcile => Reconcile(db, t.at, limit)
  }

  /** The transitions the launcher asks for. */
  predicate CallSite(expected: set<SessionState>, state: SessionState, flags: Flags) {
    || (expected == {Starting} && state == Ready && flags == Set(true, true, true))
    || (flags == Keep && state == Stopping && expected in {{Starting}, {Ready}, {Starting, Ready}})
    || (flags == Keep && state == Failed && expected in {{Starting}, {Ready}, {Stopping}})
    || (flags == Keep && state == Stopped && expected == {Stopping})
  }

  predicate Launcher(t: Timed) {
    t.tx.TxTransition? ==> CallSite(t.tx.expected, t.tx.state, t.tx.flags)
  }

  /** The rows after the first n transactions of an interleaving that starts empty. */
  function DbAt(txs: seq<Timed>, n: nat, limit: nat): Db
    requires n <= |txs|
  {
    if n == 0 then EmptyDb else Apply(DbAt(txs, n - 1, limit), txs[n - 1], limit)
  }

  ghost predicate ByLauncher(txs: seq<Timed>) {
    forall i :: 0 <= i < |txs| ==> Launcher(txs[i])
  }

  /******* At most one active session, at most one held lease *******/

  ghost predicate OneActive(db: Db) {
    forall s, t ::
      (s in db.sessions && t in db.sessions && Active(db.sessions[s].state) && Active(db.sessions[t].state)
       && db.sessions[s].ws == db.sessions[t].ws) ==> s == t
  }

  ghost predicate OneLease(leases: map<LeaseId, Lease>) {
    forall l, m ::
      (l in leases && m in leases && Held(leases[l]) && Held(leases[m])
       && leases[l].session == leases[m].session) ==> l == m
  }

  lemma {:induction false} TransitionKeepsOne(db: Db, id: SessionId, expected: set<SessionState>, state: SessionState, flags: Flags)
    requires OneActive(db)
    ensures OneActive(TransitionSession(db, id, expected, state, flags))
  {
    if MayTransition(db, id, expected, state) && Active(state) {
      forall s | s in db.sessions && Active(db.sessions[s].state) && db.sessions[s].ws == db.sessions[id].ws
        ensures s == id
      {
        assert s in ActiveOf(db, db.sessions[id].ws);
      }
    }
  }

  lemma {:induction false} ClaimKeepsOne(db: Db, id: SessionId, ws: WsId, gpu: bool, mode: AgentMode)
    requires OneActive(db)
    ensures OneActive(Claimed(db, id, ws, gpu, mode))
  {
    if ActiveOf(db, ws) == {} {
      forall s | s in db.sessions && Active(db.sessions[s].state)
        ensures db.sessions[s].ws != ws
      {
        assert s !in ActiveOf(db, ws);
      }
    }
  }

  lemma {:induction false} ReleaseKeepsOne(leases: map<LeaseId, Lease>, which: Lease -> bool, now: Time)
    requires OneLease(leases)
    ensures OneLease(ReleaseWhere(leases, which, now))
  {
  }

  lemma {:induction false} StepKeepsOne(db: Db, t: Timed, limit: nat)
    requires OneActive(db) && OneLease(db.leases)
    ensures OneActive(Apply(db, t, limit)) && OneLease(Apply(db, t, limit).leases)
  {
    match t.tx
    case TxClaim(s, ws, gpu, mode) => ClaimKeepsOne(db, s, ws, gpu, mode);
    case TxTransition(s, expected, state, flags) => TransitionKeepsOne(db, s, expected, state, flags);
    case TxAcquire(l, s) => ReleaseKeepsOne(db.leases, (x: Lease) => x.session == s && Beat(x) < t.at - limit, t.at);
    case TxReleaseSession(s) => ReleaseKeepsOne(db.leases, (x: Lease) => x.session == s, t.at);
    case TxReconcile => ReleaseKeepsOne(db.leases, (x: Lease) => Expired(db, x, t.at, limit), t.at);
    case _ =>
  }

  /** In every interleaving a workspace has at most one active session and a session one held lease. */
  lemma {:induction false} AtMostOne(txs: seq<Timed>, n: nat, limit: nat)
    requires n <= |txs|
    ensures OneActive(DbAt(txs, n, limit)) && OneLease(DbAt(txs, n, limit).leases)
  {
    if n > 0 {
      AtMostOne(txs, n - 1, limit);
      StepKeepsOne(DbAt(txs, n - 1, limit), txs[n - 1], limit);
    }
  }

  /******* Session states only climb *******/

  function Rank(s: SessionState): nat {
    match s
    case Starting => 0
    case Ready => 1
    case Stopping => 2
    case Stopped => 3
    case Failed => 3
  }

  ghost predicate SessionClimbs(s: Session, s': Session) {
    && Rank(s.state) <= Rank(s'.state)
    && (Rank(s.state) == Rank(s'.state) ==> s == s')
    && s'.ws == s.ws && s'.gpu == s.gpu && s'.mode == s.mode
  }

  ghost predicate LeaseAges(l: Lease, l': Lease) {
    && l'.session == l.session && l'.acquired == l.acquired
    && (!Held(l) ==> l' == l)
  }

  ghost predicate Climbs(db: Db, db': Db) {
    && (forall s :: s in db.sessions ==> s in db'.sessions && SessionClimbs(db.sessions[s], db'.sessions[s]))
    && (forall l :: l in db.leases ==> l in db'.leases && LeaseAges(db.leases[l], db'.leases[l]))
  }

  lemma {:induction false} CallSiteClimbs(expected: set<SessionState>, state: SessionState, flags: Flags, from: SessionState)
    requires CallSite(expected, state, flags) && from in expected
    ensures Rank(from) < Rank(state)
  {
  }

  lemma {:induction false} TransitionClimbs(db: Db, s: SessionId, expected: set<SessionState>, state: SessionState, flags: Flags)
    requires CallSite(expected, state, flags)
    ensures Climbs(db, TransitionSession(db, s, expected, state, flags))
  {
    if MayTransition(db, s, expected, state) {
      CallSiteClimbs(expected, state, flags, db.sessions[s].state);
      assert SessionClimbs(db.sessions[s], Transitioned(db, s, state, flags).sessions[s]);
    }
  }

  lemma {:induction false} StepClimbs(db: Db, t: Timed, limit: nat)
    requires Launcher(t)
    ensures Climbs(db, Apply(db, t, limit))
  {
    if t.tx.TxTransition? {
      TransitionClimbs(db, t.tx.session, t.tx.expected, t.tx.state, t.tx.flags);
    }
  }

  lemma {:induction false} ClimbsReflexive(a: Db)
    ensures Climbs(a, a)
  {
  }

  lemma {:induction false} ClimbsTransitive(a: Db, b: Db, c: Db)
    requires Climbs(a, b) && Climbs(b, c)
    ensures Climbs(a, c)
  {
    forall s | s in a.sessions
      ensures s in c.sessions && SessionClimbs(a.sessions[s], c.sessions[s])
    {
      assert s in b.sessions && SessionClimbs(a.sessions[s], b.sessions[s]);
    }
    forall l | l in a.leases
      ensures l in c.leases && LeaseAges(a.leases[l], c.leases[l])
    {
      assert l in b.leases && LeaseAges(a.leases[l], b.leases[l]);
    }
  }

  lemma {:induction false} RunClimbs(txs: seq<Timed>, m: nat, n: nat, limit: nat)
    requires m <= n <= |txs| && ByLauncher(txs)
    ensures Climbs(DbAt(txs, m, limit), DbAt(txs, n, limit))
  {
    hide Climbs;
    if m < n {
      RunClimbs(txs, m, n - 1, limit);
      StepClimbs(DbAt(txs, n - 1, limit), txs[n - 1], limit);
      ClimbsTransitive(DbAt(txs, m, limit), DbAt(txs, n - 1, limit), DbAt(txs, n, limit));
    } else {
      ClimbsReflexive(DbAt(txs, m, limit));
    }
  }

  /** starting < ready < stopping < {stopped, failed}, in every interleaving; ready is never regained. */
  lemma {:induction false} SessionsOnlyClimb(txs: seq<Timed>, m: nat, n: nat, s: SessionId, limit: nat)
    requires m <= n <= |txs| && ByLauncher(txs) && s in DbAt(txs, m, limit).sessions
    ensures s in DbAt(txs, n, limit).sessions
    ensures Rank(DbAt(txs, m, limit).sessions[s].state) <= Rank(DbAt(txs, n, limit).sessions[s].state)
    ensures Rank(DbAt(txs, m, limit).sessions[s].state) > Rank(Ready) ==> !DbAt(txs, n, limit).sessions[s].state.Ready?
    ensures !Active(DbAt(txs, m, limit).sessions[s].state) ==>
              DbAt(txs, n, limit).sessions[s] == DbAt(txs, m, limit).sessions[s]
  {
    RunClimbs(txs, m, n, limit);
    assert SessionClimbs(DbAt(txs, m, limit).sessions[s], DbAt(txs, n, limit).sessions[s]);
  }

  /******* Write authority *******/

  /** What the attachment validator and the lease validator accept at instant `t`. */
  ghost predicate MayWriteAt(db: Db, l: LeaseId, t: Time, limit: nat) {
    && l in db.leases && Held(db.leases[l]) && Beat(db.leases[l]) >= t - limit
    && db.leases[l].session in db.sessions && db.sessions[db.leases[l].session].state.Ready?
  }

  lemma {:induction false} OneWriter(txs: seq<Timed>, n: nat, l: LeaseId, l': LeaseId, t: Time, limit: nat)
    requires n <= |txs|
    requires MayWriteAt(DbAt(txs, n, limit), l, t, limit) && MayWriteAt(DbAt(txs, n, limit), l', t, limit)
    requires DbAt(txs, n, limit).leases[l].session == DbAt(txs, n, limit).leases[l'].session
    ensures l == l'
  {
    AtMostOne(txs, n, limit);
  }

  /** Once a session has left ready, none of its leases has write authority again, whenever it was acquired. */
  lemma {:induction false} NoWriterAfterReady(txs: seq<Timed>, m: nat, n: nat, s: SessionId, l: LeaseId, t: Time, limit: nat)
    requires m <= n <= |txs| && ByLauncher(txs)
    requires s in DbAt(txs, m, limit).sessions && Rank(DbAt(txs, m, limit).sessions[s].state) > Rank(Ready)
    requires l in DbAt(txs, n, limit).leases && DbAt(txs, n, limit).leases[l].session == s
    ensures !MayWriteAt(DbAt(txs, n, limit), l, t, limit)
  {
    SessionsOnlyClimb(txs, m, n, s, limit);
  }

  /** A released lease never has write authority again and never changes. */
  lemma {:induction false} ReleasedForGood(txs: seq<Timed>, m: nat, n: nat, l: LeaseId, t: Time, limit: nat)
    requires m <= n <= |txs| && ByLauncher(txs)
    requires l in DbAt(txs, m, limit).leases && !Held(DbAt(txs, m, limit).leases[l])
    ensures !MayWriteAt(DbAt(txs, n, limit), l, t, limit)
    ensures l in DbAt(txs, n, limit).leases && DbAt(txs, n, limit).leases[l] == DbAt(txs, m, limit).leases[l]
  {
    RunClimbs(txs, m, n, limit);
    assert LeaseAges(DbAt(txs, m, limit).leases[l], DbAt(txs, n, limit).leases[l]);
  }

  /******* Acquiring and keeping a lease *******/

  /** acquire succeeds exactly for a ready session in write mode without a fresh held lease. */
  lemma {:induction false} AcquireExactly(db: Db, id: LeaseId, s: SessionId, now: Time, limit: nat)
    requires OneLease(db.leases) && id !in db.leases
    ensures var beating := exists l :: l in db.leases && Held(db.leases[l]) && db.leases[l].session == s
                                     && Beat(db.leases[l]) >= now - limit;
            && (MayAcquire(db, id, s, now, limit) <==> WritableSession(db, s) && !beating)
            && (MayAcquire(db, id, s, now, limit) ==>
                  && MayWriteAt(Acquire(db, id, s, now, limit), id, now, limit)
                  && var leases := Acquire(db, id, s, now, limit).leases;
                  && leases[id] == Lease(s, now, Some(now), None)
                  && (forall l :: l in leases && Held(leases[l]) && leases[l].session == s ==> l == id)
                  && (forall l :: l in db.leases && db.leases[l].session != s ==> l in leases && leases[l] == db.leases[l]))
  {
    var after := Reclaimed(db, s, now, limit);
    forall l | l in db.leases && Held(db.leases[l]) && db.leases[l].session == s
      ensures Held(after[l]) <==> Beat(db.leases[l]) >= now - limit
    {
    }
    if exists l :: l in db.leases && Held(db.leases[l]) && db.leases[l].session == s && Beat(db.leases[l]) >= now - limit {
      var l :| l in db.leases && Held(db.leases[l]) && db.leases[l].session == s && Beat(db.leases[l]) >= now - limit;
      assert l in after && Held(after[l]) && after[l].session == s;
    }
  }

  /** A transition the launcher asks for moves the row exactly if it is in an expected state, and moves no other. */
  lemma {:induction false} LauncherTransitionMoves(db: Db, s: SessionId, expected: set<SessionState>, state: SessionState, flags: Flags)
    requires OneActive(db) && CallSite(expected, state, flags) && s in db.sessions
    ensures var db' := TransitionSession(db, s, expected, state, flags);
            var old' := db.sessions[s];
            && db'.sessions.Keys == db.sessions.Keys && db'.leases == db.leases && db'.launches == db.launches
            && (forall o :: o in db.sessions && o != s ==> db'.sessions[o] == db.sessions[o])
            && (old'.state !in expected ==> db'.sessions[s] == old')
            && (old'.state in expected ==>
                  && db'.sessions[s].state == state
                  && db'.sessions[s].ws == old'.ws && db'.sessions[s].gpu == old'.gpu && db'.sessions[s].mode == old'.mode
                  && (state.Ready? ==> db'.sessions[s].sandbox && db'.sessions[s].network && db'.sessions[s].collaboration))
  {
    if db.sessions[s].state in expected {
      forall o | o in ActiveOf(db, db.sessions[s].ws)
        ensures o == s
      {
        assert Active(db.sessions[s].state);
      }
      assert IndexAdmits(db, s, state);
    }
  }

  /** After its release a lease may not write, and if it was the session's held one, another client can acquire at once. */
  lemma {:induction false} ReleaseFrees(db: Db, l: LeaseId, id: LeaseId, now: Time, later: Time, limit: nat)
    requires OneLease(db.leases) && l in db.leases && Held(db.leases[l]) && id !in db.leases
    ensures var db' := Release(db, l, now);
            && (forall t :: !MayWriteAt(db', l, t, limit))
            && (MayAcquire(db', id, db.leases[l].session, later, limit) <==> WritableSession(db, db.leases[l].session))
            && (forall m :: m in db.leases && m != l ==> m in db'.leases && db'.leases[m] == db.leases[m])
  {
    var db', s := Release(db, l, now), db.leases[l].session;
    forall m | m in db'.leases && Held(db'.leases[m])
      ensures db'.leases[m].session != s
    {
      assert m != l && db'.leases[m] == db.leases[m];
    }
  }

  /** After a release of the session none of its leases may write, and another client can acquire at once. */
  lemma {:induction false} ReleaseSessionFrees(db: Db, s: SessionId, id: LeaseId, now: Time, later: Time, limit: nat)
    requires id !in db.leases
    ensures var db' := ReleaseSession(db, s, now);
            && (forall l, t | l in db'.leases && db'.leases[l].session == s :: !MayWriteAt(db', l, t, limit))
            && (MayAcquire(db', id, s, later, limit) <==> WritableSession(db, s))
            && (forall l :: l in db.leases && db.leases[l].session != s ==> l in db'.leases && db'.leases[l] == db.leases[l])
  {
  }

  /** After a reconciliation a lease is held exactly if it was held, is fresh and its session is not over. */
  lemma {:induction false} ReconcileLeaves(db: Db, l: LeaseId, now: Time, limit: nat)
    requires l in db.leases
    ensures var db' := Reconcile(db, now, limit);
            var alive := db.leases[l].session in db.sessions ==> Active(db.sessions[db.leases[l].session].state);
            && l in db'.leases
            && (Held(db'.leases[l]) <==> Held(db.leases[l]) && now - Beat(db.leases[l]) <= limit && alive)
            && db'.leases[l].(released := None) == db.leases[l].(released := None)
            && (Held(db'.leases[l]) || !Held(db.leases[l]) ==> db'.leases[l] == db.leases[l])
  {
  }

  /** A heartbeat makes a held lease fresh, for as long as the limit, and revives none that was released. */
  lemma {:induction false} HeartbeatFreshens(db: Db, l: LeaseId, now: Time, limit: nat)
    requires l in db.leases
    ensures var db' := Heartbeat(db, l, now);
            && l in db'.leases && (Held(db'.leases[l]) <==> Held(db.leases[l]))
            && (Held(db.leases[l]) && db.leases[l].session in db.sessions && db.sessions[db.leases[l].session].state.Ready? ==>
                  forall t :: MayWriteAt(db', l, t, limit) <==> t - now <= limit)
  {
  }

  /******* Flags *******/

  /** A starting session is not verified in any respect. */
  ghost predicate Unverified(db: Db) {
    forall s :: s in db.sessions && db.sessions[s].state.Starting? ==>
      !db.sessions[s].sandbox && !db.sessions[s].network && !db.sessions[s].collaboration
  }

  /** In every run of the launcher's transactions the flags of a session are set by its step to ready, not before. */
  lemma {:induction false} StartingIsUnverified(txs: seq<Timed>, n: nat, limit: nat)
    requires n <= |txs| && ByLauncher(txs)
    ensures Unverified(DbAt(txs, n, limit))
  {
    if n > 0 {
      StartingIsUnverified(txs, n - 1, limit);
      StaysUnverified(DbAt(txs, n - 1, limit), txs[n - 1], limit);
    }
  }

  lemma {:induction false} StaysUnverified(db: Db, t: Timed, limit: nat)
    requires Unverified(db) && Launcher(t)
    ensures Unverified(Apply(db, t, limit))
  {
    hide ReleaseWhere, MayAcquire, Reclaimed, Held;
  }

  ghost predicate Monotone(txs: seq<Timed>) {
    forall i, j :: 0 <= i < j < |txs| ==> txs[i].at <= txs[j].at
  }

  function BeatOf(txs: seq<Timed>, n: nat, l: LeaseId, start: Time): Time
    requires n <= |txs|
  {
    if n == 0 then start
    else if txs[n - 1].tx == TxHeartbeat(l) then txs[n - 1].at
    else BeatOf(txs, n - 1, l, start)
  }

  /** Consecutive beats of the holder, and the end of the schedule, are at most the limit apart. */
  ghost predicate GapsWithin(txs: seq<Timed>, l: LeaseId, start: Time, limit: nat) {
    && (forall i :: 0 <= i < |txs| && txs[i].tx == TxHeartbeat(l) ==> txs[i].at - BeatOf(txs, i, l, start) <= limit)
    && (txs != [] ==> txs[|txs| - 1].at - BeatOf(txs, |txs|, l, start) <= limit)
  }

  /** So at every transaction the last beat is at most the limit ago. */
  lemma {:induction false} AlwaysCovered(txs: seq<Timed>, i: nat, l: LeaseId, start: Time, limit: nat)
    requires i < |txs| && Monotone(txs) && GapsWithin(txs, l, start, limit)
    ensures txs[i].at - BeatOf(txs, i, l, start) <= limit
    decreases |txs| - i
  {
    if txs[i].tx != TxHeartbeat(l) && i + 1 < |txs| {
      AlwaysCovered(txs, i + 1, l, start, limit);
    }
  }

  function From(db: Db, txs: seq<Timed>, n: nat, limit: nat): Db
    requires n <= |txs|
  {
    if n == 0 then db else Apply(From(db, txs, n - 1, limit), txs[n - 1], limit)
  }

  /** Nobody releases this lease, and its session stays active. */
  ghost predicate LeftAlone(db: Db, txs: seq<Timed>, i: nat, l: LeaseId, s: SessionId, limit: nat)
    requires i < |txs|
  {
    && txs[i].tx != TxRelease(l) && txs[i].tx != TxReleaseSession(s)
    && var now := From(db, txs, i, limit); s in now.sessions && Active(now.sessions[s].state)
  }

  lemma {:induction false} HolderKept(db: Db, t: Timed, l: LeaseId, limit: nat)
    requires l in db.leases && Held(db.leases[l])
    requires t.at - Beat(db.leases[l]) <= limit
    requires t.tx != TxRelease(l) && t.tx != TxReleaseSession(db.leases[l].session)
    requires db.leases[l].session in db.sessions && Active(db.sessions[db.leases[l].session].state)
    ensures var db' := Apply(db, t, limit);
            && l in db'.leases && Held(db'.leases[l]) && db'.leases[l].session == db.leases[l].session
            && Beat(db'.leases[l]) == if t.tx == TxHeartbeat(l) then t.at else Beat(db.leases[l])
  {
  }

  /**
    A holder whose beats are never further apart than the limit keeps its lease through any
    sequence of acquires, reconciliations and other transactions, while its session is active.
  */
  lemma {:induction false} HolderNeverDisplaced(db: Db, txs: seq<Timed>, n: nat, l: LeaseId, limit: nat)
    requires n <= |txs| && l in db.leases && Held(db.leases[l])
    requires Monotone(txs) && GapsWithin(txs, l, Beat(db.leases[l]), limit)
    requires forall i :: 0 <= i < |txs| ==> LeftAlone(db, txs, i, l, db.leases[l].session, limit)
    ensures var db' := From(db, txs, n, limit);
            && l in db'.leases && Held(db'.leases[l]) && db'.leases[l].session == db.leases[l].session
            && Beat(db'.leases[l]) == BeatOf(txs, n, l, Beat(db.leases[l]))
  {
    if n > 0 {
      HolderNeverDisplaced(db, txs, n - 1, l, limit);
      AlwaysCovered(txs, n - 1, l, Beat(db.leases[l]), limit);
      assert LeftAlone(db, txs, n - 1, l, db.leases[l].session, limit);
      HolderKept(From(db, txs, n - 1, limit), txs[n - 1], l, limit);
    }
  }
}
