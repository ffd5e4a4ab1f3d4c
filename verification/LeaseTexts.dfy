/**
  Lease rows as they are stored, with timestamps that SQL compares as text. Read as instants, the
  stores do exactly what their integer specification says.
*/
module LeaseTexts {
  import opened Options
  import opened Text
  import opened StateSpec
  import opened Timestamps
  import SessionResults

  datatype Row = Row(session: SessionId, acquired: DateTime, heartbeat: Option<DateTime>, released: Option<DateTime>)

  type Rows = map<LeaseId, Row>

  const Second := 1_000_000

  function BeatOf(r: Row): DateTime {
    if r.heartbeat.Some? then r.heartbeat.value else r.acquired
  }

  predicate RowValid(r: Row) {
    Valid(r.acquired) && (r.heartbeat.Some? ==> Valid(r.heartbeat.value))
  }

  ghost predicate RowsValid(rows: Rows) {
    forall l :: l in rows ==> RowValid(rows[l])
  }

  /** now minus the limit, in microseconds; both are timestamps that datetime can hold. */
  ghost predicate Cut(cut: DateTime, now: DateTime, limit: nat) {
    Valid(cut) && Valid(now) && Instant(cut) == Instant(now) - limit * Second
  }

  /******* As instants *******/

  function InstantOf(t: Option<DateTime>): Option<Time> {
    if t.Some? then Some(Instant(t.value)) else None
  }

  function LeaseOf(r: Row): Lease {
    Lease(r.session, Instant(r.acquired), InstantOf(r.heartbeat), InstantOf(r.released))
  }

  function LeasesOf(rows: Rows): map<LeaseId, Lease> {
    map l | l in rows :: LeaseOf(rows[l])
  }

  function DbOf(db: Db, rows: Rows): Db {
    db.(leases := LeasesOf(rows))
  }

  /******* As text *******/

  /** COALESCE(heartbeat_at, acquired_at) < ? */
  predicate StaleText(r: Row, cut: DateTime) {
    Less(Iso(BeatOf(r)), Iso(cut))
  }

  /** COALESCE(heartbeat_at, acquired_at) >= ? */
  predicate FreshText(r: Row, cut: DateTime) {
    Less(Iso(cut), Iso(BeatOf(r))) || Iso(cut) == Iso(BeatOf(r))
  }

  /** UPDATE ... SET released_at = ? WHERE released_at IS NULL AND which */
  function ReleaseRows(rows: Rows, which: Row -> bool, now: DateTime): Rows {
    map l | l in rows :: if rows[l].released.None? && which(rows[l]) then rows[l].(released := Some(now)) else rows[l]
  }

  function ReclaimRows(rows: Rows, s: SessionId, now: DateTime, cut: DateTime): Rows {
    ReleaseRows(rows, (r: Row) => r.session == s && StaleText(r, cut), now)
  }

  predicate RowExpired(db: Db, r: Row, cut: DateTime) {
    StaleText(r, cut) || (r.session in db.sessions && !Active(db.sessions[r.session].state))
  }

  function ReconcileRows(db: Db, rows: Rows, now: DateTime, cut: DateTime): Rows {
    ReleaseRows(rows, (r: Row) => RowExpired(db, r, cut), now)
  }

  predicate RowFree(rows: Rows, s: SessionId) {
    forall l :: l in rows && rows[l].released.None? ==> rows[l].session != s
  }

  predicate MayAcquireRow(db: Db, rows: Rows, id: LeaseId, s: SessionId, now: DateTime, cut: DateTime) {
    WritableSession(db, s) && id !in rows && RowFree(ReclaimRows(rows, s, now, cut), s)
  }

  function AcquireRow(db: Db, rows: Rows, id: LeaseId, s: SessionId, now: DateTime, cut: DateTime): Rows {
    if MayAcquireRow(db, rows, id, s, now, cut)
    then ReclaimRows(rows, s, now, cut)[id := Row(s, now, Some(now), None)]
    else rows
  }

  /** What the two validators check, the second one on the text. */
  ghost predicate MayWriteRow(db: Db, rows: Rows, l: LeaseId, cut: DateTime) {
    && l in rows && rows[l].released.None? && FreshText(rows[l], cut)
    && rows[l].session in db.sessions && db.sessions[rows[l].session].state.Ready?
  }

  /******* They agree *******/

  lemma {:induction false} StaleTextIs(r: Row, now: DateTime, cut: DateTime, limit: nat)
    requires RowValid(r) && Cut(cut, now, limit)
    ensures StaleText(r, cut) <==> Beat(LeaseOf(r)) < Instant(now) - limit * Second
    ensures FreshText(r, cut) <==> !StaleText(r, cut)
  {
    StaleComparison(BeatOf(r), now, cut, limit);
  }

  lemma {:induction false} ReleaseRowsIs(rows: Rows, byText: Row -> bool, byInstant: Lease -> bool, now: DateTime)
    requires forall l :: l in rows ==> (byText(rows[l]) <==> byInstant(LeaseOf(rows[l])))
    ensures LeasesOf(ReleaseRows(rows, byText, now)) == ReleaseWhere(LeasesOf(rows), byInstant, Instant(now))
  {
  }

  /** Reclaiming by text reclaims exactly the leases older than the limit. */
  lemma {:induction false} ReclaimRowsIs(db: Db, rows: Rows, s: SessionId, now: DateTime, cut: DateTime, limit: nat)
    requires RowsValid(rows) && Cut(cut, now, limit)
    ensures LeasesOf(ReclaimRows(rows, s, now, cut)) == Reclaimed(DbOf(db, rows), s, Instant(now), limit * Second)
  {
    hide StaleText, Iso, Instant, Cut, Valid;
    forall l | l in rows
      ensures StaleText(rows[l], cut) <==> Beat(LeaseOf(rows[l])) < Instant(now) - limit * Second
    {
      StaleTextIs(rows[l], now, cut, limit);
    }
    ReleaseRowsIs(rows, (r: Row) => r.session == s && StaleText(r, cut),
                  (l: Lease) => l.session == s && Beat(l) < Instant(now) - limit * Second, now);
  }

  lemma {:induction false} RowFreeIs(rows: Rows, s: SessionId)
    ensures RowFree(rows, s) <==> NoneHeld(LeasesOf(rows), s)
  {
    assert forall l :: l in rows ==> LeasesOf(rows)[l] == LeaseOf(rows[l]);
    assert forall l :: l in rows <==> l in LeasesOf(rows);
  }

  lemma {:induction false} InsertRowIs(rows: Rows, id: LeaseId, r: Row)
    ensures LeasesOf(rows[id := r]) == LeasesOf(rows)[id := LeaseOf(r)]
  {
  }

  /** acquire on the stored rows is acquire on the instants. */
  lemma {:induction false} AcquireRowIs(db: Db, rows: Rows, id: LeaseId, s: SessionId, now: DateTime, cut: DateTime, limit: nat)
    requires RowsValid(rows) && Cut(cut, now, limit)
    ensures MayAcquireRow(db, rows, id, s, now, cut) <==>
            MayAcquire(DbOf(db, rows), id, s, Instant(now), limit * Second)
    ensures DbOf(db, AcquireRow(db, rows, id, s, now, cut)) ==
            Acquire(DbOf(db, rows), id, s, Instant(now), limit * Second)
  {
    ReclaimRowsIs(db, rows, s, now, cut, limit);
    RowFreeIs(ReclaimRows(rows, s, now, cut), s);
    InsertRowIs(ReclaimRows(rows, s, now, cut), id, Row(s, now, Some(now), None));
    hide ReclaimRows, Reclaimed, RowFree, NoneHeld, Instant, Cut, RowsValid;
    assert id in rows <==> id in LeasesOf(rows);
    hide LeasesOf;
  }

  /** reconcile on the stored rows is reconcile on the instants. */
  lemma {:induction false} ReconcileRowsIs(db: Db, rows: Rows, now: DateTime, cut: DateTime, limit: nat)
    requires RowsValid(rows) && Cut(cut, now, limit)
    ensures DbOf(db, ReconcileRows(db, rows, now, cut)) == Reconcile(DbOf(db, rows), Instant(now), limit * Second)
  {
    hide StaleText, Iso, Instant, Cut, Valid;
    var now', cut' := Instant(now), limit * Second;
    forall l | l in rows
      ensures RowExpired(db, rows[l], cut) <==> Expired(DbOf(db, rows), LeaseOf(rows[l]), now', cut')
    {
      StaleTextIs(rows[l], now, cut, limit);
    }
    ReleaseRowsIs(rows, (r: Row) => RowExpired(db, r, cut), (l: Lease) => Expired(DbOf(db, rows), l, now', cut'), now);
  }

  /** Write authority checked on the text is write authority at the instant. */
  lemma {:induction false} MayWriteRowIs(db: Db, rows: Rows, l: LeaseId, now: DateTime, cut: DateTime, limit: nat)
    requires RowsValid(rows) && Cut(cut, now, limit)
    ensures MayWriteRow(db, rows, l, cut) <==>
            SessionResults.MayWriteAt(DbOf(db, rows), l, Instant(now), limit * Second)
  {
    hide StaleText, FreshText, Iso, Instant, Cut, Valid;
    if l in rows {
      StaleTextIs(rows[l], now, cut, limit);
    }
  }

  /******* Runs on the stored rows *******/

  function HeartbeatRow(rows: Rows, id: LeaseId, now: DateTime): Rows {
    if id in rows && rows[id].released.None? then rows[id := rows[id].(heartbeat := Some(now))] else rows
  }

  function ReleaseRow(rows: Rows, id: LeaseId, now: DateTime): Rows {
    if id in rows && rows[id].released.None? then rows[id := rows[id].(released := Some(now))] else rows
  }

  /** A transaction with the two timestamps that it hands to SQL. */
  datatype Stamped = Stamped(tx: SessionResults.Tx, now: DateTime, cut: DateTime)

  /** Sessions and launches in `db`, leases in `rows`. */
  datatype Stored = Stored(db: Db, rows: Rows)

  function StoredApply(s: Stored, t: Stamped): Stored {
    match t.tx
    case TxClaim(_, _, _, _) => s.(db := SessionResults.Apply(s.db, SessionResults.Timed(t.tx, 0), 0))
    case TxTransition(_, _, _, _) => s.(db := SessionResults.Apply(s.db, SessionResults.Timed(t.tx, 0), 0))
    case TxAcquire(lease, session) => s.(rows := AcquireRow(s.db, s.rows, lease, session, t.now, t.cut))
    case TxHeartbeat(lease) => s.(rows := HeartbeatRow(s.rows, lease, t.now))
    case TxRelease(lease) => s.(rows := ReleaseRow(s.rows, lease, t.now))
    case TxReleaseSession(session) => s.(rows := ReleaseRows(s.rows, (r: Row) => r.session == session, t.now))
    case TxReconcile => s.(rows := ReconcileRows(s.db, s.rows, t.now, t.cut))
  }

  function StoredAt(txs: seq<Stamped>, n: nat): Stored
    requires n <= |txs|
  {
    if n == 0 then Stored(EmptyDb, map[]) else StoredApply(StoredAt(txs, n - 1), txs[n - 1])
  }

  ghost predicate CutsHold(txs: seq<Stamped>, limit: nat) {
    forall i :: 0 <= i < |txs| ==> Cut(txs[i].cut, txs[i].now, limit)
  }

  /** The same transactions at their instants. */
  function TimedOf(t: Stamped): SessionResults.Timed {
    SessionResults.Timed(t.tx, Instant(t.now))
  }

  function AllTimed(txs: seq<Stamped>): (r: seq<SessionResults.Timed>)
    ensures |r| == |txs|
  {
    seq(|txs|, i requires 0 <= i < |txs| => TimedOf(txs[i]))
  }

  /** Session transactions neither read nor write leases. */
  lemma {:induction false} SessionTxIs(s: Stored, tx: SessionResults.Tx, at: Time, limit: nat)
    requires tx.TxClaim? || tx.TxTransition?
    ensures DbOf(SessionResults.Apply(s.db, SessionResults.Timed(tx, 0), 0), s.rows) ==
            SessionResults.Apply(DbOf(s.db, s.rows), SessionResults.Timed(tx, at), limit)
  {
    hide LeasesOf;
    var db := DbOf(s.db, s.rows);
    assert forall ws :: ActiveOf(db, ws) == ActiveOf(s.db, ws);
  }

  /** One row changes alike in both views. */
  lemma {:induction false} OneRowIs(db: Db, rows: Rows, id: LeaseId, now: DateTime)
    ensures DbOf(db, HeartbeatRow(rows, id, now)) == Heartbeat(DbOf(db, rows), id, Instant(now))
    ensures DbOf(db, ReleaseRow(rows, id, now)) == Release(DbOf(db, rows), id, Instant(now))
  {
    if id in rows {
      InsertRowIs(rows, id, rows[id].(heartbeat := Some(now)));
      InsertRowIs(rows, id, rows[id].(released := Some(now)));
    }
  }

  lemma {:induction false} RowsStayValid(s: Stored, t: Stamped)
    requires RowsValid(s.rows) && Valid(t.now)
    ensures RowsValid(StoredApply(s, t).rows)
  {
    hide Valid, StaleText, RowExpired, WritableSession;
  }

  /** Every transaction on the stored rows is the transaction on the instants. */
  lemma {:induction false} StoredApplyIs(s: Stored, t: Stamped, limit: nat)
    requires RowsValid(s.rows) && Cut(t.cut, t.now, limit)
    ensures var s' := StoredApply(s, t);
            DbOf(s'.db, s'.rows) == SessionResults.Apply(DbOf(s.db, s.rows), TimedOf(t), limit * Second)
  {
    hide RowsValid, Cut, Instant, LeasesOf, AcquireRow, HeartbeatRow, ReleaseRow, ReconcileRows, ReleaseRows;
    match t.tx
    case TxClaim(_, _, _, _) => SessionTxIs(s, t.tx, Instant(t.now), limit * Second);
    case TxTransition(_, _, _, _) => SessionTxIs(s, t.tx, Instant(t.now), limit * Second);
    case TxAcquire(lease, session) => AcquireRowIs(s.db, s.rows, lease, session, t.now, t.cut, limit);
    case TxHeartbeat(lease) => OneRowIs(s.db, s.rows, lease, t.now);
    case TxRelease(lease) => OneRowIs(s.db, s.rows, lease, t.now);
    case TxReleaseSession(session) =>
      ReleaseRowsIs(s.rows, (r: Row) => r.session == session, (l: Lease) => l.session == session, t.now);
    case TxReconcile => ReconcileRowsIs(s.db, s.rows, t.now, t.cut, limit);
  }

  lemma {:induction false} NoRows()
    ensures RowsValid(map[]) && LeasesOf(map[]) == map[]
  {
  }

  lemma {:induction false} CutValid(cut: DateTime, now: DateTime, limit: nat)
    requires Cut(cut, now, limit)
    ensures Valid(now)
  {
  }

  /** So every run on the stored rows, read as instants, is the run on the instants. */
  lemma {:induction false} StoredRunIs(txs: seq<Stamped>, n: nat, limit: nat)
    requires n <= |txs| && CutsHold(txs, limit)
    ensures var s := StoredAt(txs, n);
            RowsValid(s.rows) && DbOf(s.db, s.rows) == SessionResults.DbAt(AllTimed(txs), n, limit * Second)
  {
    hide Cut, Valid, Instant, StoredApply, SessionResults.Apply, LeasesOf, RowsValid;
    if n > 0 {
      StoredRunIs(txs, n - 1, limit);
      assert Cut(txs[n - 1].cut, txs[n - 1].now, limit);
      CutValid(txs[n - 1].cut, txs[n - 1].now, limit);
      RowsStayValid(StoredAt(txs, n - 1), txs[n - 1]);
      StoredApplyIs(StoredAt(txs, n - 1), txs[n - 1], limit);
    } else {
      NoRows();
    }
  }

  /**
    In every interleaving of transactions on the stored rows, two rows of one session never both have
    the write authority that the validators read from the texts.
  */
  lemma {:induction false} OneWriterByText(txs: seq<Stamped>, n: nat, l: LeaseId, m: LeaseId, now: DateTime, cut: DateTime, limit: nat)
    requires n <= |txs| && CutsHold(txs, limit) && Cut(cut, now, limit)
    requires var s := StoredAt(txs, n); MayWriteRow(s.db, s.rows, l, cut) && MayWriteRow(s.db, s.rows, m, cut)
    requires StoredAt(txs, n).rows[l].session == StoredAt(txs, n).rows[m].session
    ensures l == m
  {
    var s := StoredAt(txs, n);
    StoredRunIs(txs, n, limit);
    SessionResults.AtMostOne(AllTimed(txs), n, limit * Second);
    MayWriteRowIs(s.db, s.rows, l, now, cut, limit);
    MayWriteRowIs(s.db, s.rows, m, now, cut, limit);
    hide StoredAt, CutsHold, Cut, RowsValid, MayWriteRow, Valid, Instant;
  }
}
