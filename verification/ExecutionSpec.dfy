/**
  What one call of the execution broker or of the execution coordinator does, as a function of
  the state before it. `order` is the insertion order of the record dictionary, which is the
  enqueue order. `dispatched` and `log` are histories: they are written and never read.
*/
module ExecutionSpec {
  import opened Options

  type OpId = nat
  type SessionId = nat
  type MsgId = string
  type Time = int

  datatype ExecState =
    | Queued | Dispatched | Running | CancelPending | Cancelling
    | Completed | Failed | Timeout | Cancelled

  predicate Terminal(s: ExecState) {
    s.Completed? || s.Failed? || s.Timeout? || s.Cancelled?
  }

  predicate InFlight(s: ExecState) {
    s.Dispatched? || s.Running? || s.CancelPending? || s.Cancelling?
  }

  datatype Rec = Rec(
    session: SessionId,
    state: ExecState,
    queuedAt: Time,
    msg: Option<MsgId>,
    parent: Option<MsgId>,
    dispatchedAt: Option<Time>,
    startedAt: Option<Time>,
    cancelRequestedAt: Option<Time>,
    requested: Option<ExecState>,
    deadlineAt: Option<Time>,
    finishedAt: Option<Time>)
  {
    /** The record's own claim to the kernel; it does not look at the broker's busy parent. */
    predicate Owns() {
      && msg.Some? && msg.value != ""
      && parent.Some? && parent.value != ""
      && msg == parent
      && (state.Running? || state.CancelPending?)
    }
  }

  datatype Event =
    | Requested(id: OpId, outcome: ExecState)
    | Interrupted(id: OpId, msg: Option<MsgId>, parent: Option<MsgId>, active: Option<OpId>, busy: Option<MsgId>)
    | Waited(idle: bool)
    | Restarted
    | Finished(id: OpId, outcome: ExecState)

  datatype St = St(
    records: map<OpId, Rec>,
    order: seq<OpId>,
    queue: seq<OpId>,
    active: Option<OpId>,
    busy: Option<MsgId>,
    dispatched: seq<OpId>,
    log: seq<Event>)

  const Init := St(map[], [], [], None, None, [], [])

  datatype Error = ValueError | RuntimeError | KeyError

  datatype Reply =
    | Record(r: Rec, interrupt: bool)
    | Records(rs: seq<(Rec, bool)>)
    | Nothing
    | Raised(e: Error)

  function Put(st: St, id: OpId, r: Rec): St {
    st.(records := st.records[id := r])
  }

  function Log(st: St, e: Event): St {
    st.(log := st.log + [e])
  }

  /******* Broker calls *******/

  function Enqueue(st: St, id: OpId, session: SessionId, timeout: Option<int>, now: Time): (St, Reply) {
    if timeout.Some? && timeout.value <= 0 then (st, Raised(ValueError))
    else
      var deadline := if timeout.Some? then Some(now + timeout.value) else None;
      var r := Rec(session, Queued, now, None, None, None, None, None, None, deadline, None);
      (Put(st, id, r).(order := st.order + [id], queue := st.queue + [id]), Record(r, false))
  }

  predicate IsQueued(st: St, id: OpId) {
    id in st.records && st.records[id].state.Queued?
  }

  /** The queue without its leading entries that are no longer queued. */
  function Cleaned(st: St, q: seq<OpId>): seq<OpId> {
    if q == [] || IsQueued(st, q[0]) then q else Cleaned(st, q[1..])
  }

  function NextQueued(st: St): (St, Reply) {
    if st.active.Some? || st.busy.Some? then (st, Nothing)
    else
      var q := Cleaned(st, st.queue);
      var st' := st.(queue := q);
      (st', if q != [] && q[0] in st.records then Record(st.records[q[0]], false) else Nothing)
  }

  function Dispatch(st: St, id: OpId, msg: MsgId, now: Time): (St, Reply) {
    if msg == "" then (st, Raised(ValueError))
    else if st.active.Some? || st.busy.Some? then (st, Raised(RuntimeError))
    else if id !in st.records then (st, Raised(KeyError))
    else if !st.records[id].state.Queued? then (st, Raised(RuntimeError))
    else if st.queue != [] && st.queue[0] != id then (st, Raised(RuntimeError))
    else
      var r := st.records[id].(state := Dispatched, msg := Some(msg), dispatchedAt := Some(now));
      var q := if st.queue != [] then st.queue[1..] else st.queue;
      (Put(st, id, r).(queue := q, active := Some(id), dispatched := st.dispatched + [id]), Record(r, false))
  }

  function Observed(r: Rec, parent: MsgId, now: Time): Rec {
    var mine := r.msg == Some(parent);
    r.(parent := Some(parent),
       state := if mine && r.state.Dispatched? then Running else r.state,
       startedAt :=
         if mine && r.state.Dispatched? then Some(now)
         else if mine && r.state.CancelPending? && r.startedAt.None? then Some(now)
         else r.startedAt)
  }

  /** The busy parent is stored before the record is looked up, so it stays on a KeyError. */
  function ObserveBusyParent(st: St, id: OpId, parent: MsgId, now: Time): (St, Reply) {
    var st1 := st.(busy := Some(parent));
    if id !in st.records then (st1, Raised(KeyError))
    else
      var r := Observed(st.records[id], parent, now);
      (Put(st1, id, r), Record(r, false))
  }

  /** `outcome` is Cancelled for request_cancel and Timeout for request_timeout. */
  function Request(st: St, id: OpId, outcome: ExecState, now: Time): (St, Reply) {
    if id !in st.records then (st, Raised(KeyError))
    else
      var r := st.records[id];
      if Terminal(r.state) then (st, Record(r, false))
      else
        var r' := r.(state := if r.state.Queued? then outcome else CancelPending,
                     cancelRequestedAt := Some(now),
                     requested := Some(outcome),
                     finishedAt := if r.state.Queued? then Some(now) else r.finishedAt);
        (Log(Put(st, id, r'), Requested(id, outcome)), Record(r', !r.state.Queued? && r'.Owns()))
  }

  function MarkCancelling(st: St, id: OpId): (St, Reply) {
    if id !in st.records then (st, Raised(KeyError))
    else if !st.records[id].Owns() then (st, Raised(RuntimeError))
    else
      var r := st.records[id].(state := Cancelling);
      (Put(st, id, r), Record(r, false))
  }

  function Finish(st: St, id: OpId, outcome: ExecState, now: Time): (St, Reply) {
    if !Terminal(outcome) then (st, Raised(ValueError))
    else if id !in st.records then (st, Raised(KeyError))
    else
      var r := st.records[id].(state := outcome, finishedAt := Some(now));
      var st' := Log(Put(st, id, r), Finished(id, outcome));
      (st'.(active := if st.active == Some(id) then None else st.active), Record(r, false))
  }

  predicate Due(st: St, id: OpId, now: Time) {
    && id in st.records
    && st.records[id].deadlineAt.Some? && st.records[id].deadlineAt.value <= now
    && !Terminal(st.records[id].state)
  }

  /** request_timeout on every due operation of `ids`, from left to right. */
  function ExpireAll(st: St, ids: seq<OpId>, now: Time): (St, seq<(Rec, bool)>)
    decreases |ids|
  {
    if ids == [] then (st, [])
    else
      var (st1, done) := ExpireAll(st, ids[..|ids| - 1], now);
      var id := ids[|ids| - 1];
      if !Due(st1, id, now) then (st1, done)
      else
        var (st2, reply) := Request(st1, id, Timeout, now);
        (st2, if reply.Record? then done + [(reply.r, reply.interrupt)] else done)
  }

  predicate LiveIn(st: St, id: OpId, session: SessionId) {
    id in st.records && st.records[id].session == session && !Terminal(st.records[id].state)
  }

  function LiveOf(st: St, ids: seq<OpId>, session: SessionId): seq<OpId> {
    if ids == [] then []
    else
      var rest := LiveOf(st, ids[..|ids| - 1], session);
      if LiveIn(st, ids[|ids| - 1], session) then rest + [ids[|ids| - 1]] else rest
  }

  function CancelAll(st: St, ids: seq<OpId>, now: Time): (St, seq<(Rec, bool)>)
    decreases |ids|
  {
    if ids == [] then (st, [])
    else
      var (st1, done) := CancelAll(st, ids[..|ids| - 1], now);
      var (st2, reply) := Finish(st1, ids[|ids| - 1], Cancelled, now);
      (st2, if reply.Record? then done + [(reply.r, false)] else done)
  }

  /******* Coordinator calls *******/

  /** What the kernel side did during one interrupt. */
  datatype KernelReply =
    | InterruptRaised  // kernel.interrupt() or the wait raised
    | NoWait           // wait_for_idle is not configured
    | WentIdle         // the wait returned true
    | Stuck            // the wait returned false and the restart worked
    | RestartRaised    // the wait returned false and the restart raised

  predicate WaitCompleted(k: KernelReply) {
    k.WentIdle? || k.Stuck?
  }

  function InterruptOwned(st: St, id: OpId, kernel: KernelReply, now: Time): (St, Reply) {
    var (st1, marked) := MarkCancelling(st, id);
    if !marked.Record? then (st1, marked)
    else
      var st2 := Log(st1, Interrupted(id, marked.r.msg, marked.r.parent, st1.active, st1.busy));
      var outcome := if marked.r.requested.Some? then marked.r.requested.value else Cancelled;
      match kernel
      case InterruptRaised => (st2, Raised(RuntimeError))
      case NoWait => (st2, Nothing)
      case WentIdle => Finish(Log(st2, Waited(true)), id, outcome, now)
      case Stuck => Finish(Log(Log(st2, Waited(false)), Restarted), id, outcome, now)
      case RestartRaised => (Log(Log(st2, Waited(false)), Restarted), Raised(RuntimeError))
  }

  /** The tail of the coordinator's calls: interrupt when told to, then read the record back. */
  function Settle(st: St, id: OpId, reply: Reply, interrupt: bool, kernel: KernelReply, now: Time): (St, Reply) {
    if !interrupt then (st, reply)
    else
      var (st1, done) := InterruptOwned(st, id, kernel, now);
      if done.Raised? then (st1, done)
      else if id in st1.records then (st1, Record(st1.records[id], false))
      else (st1, Raised(KeyError))
  }

  /** `dispatch` is what kernel.dispatch returned, None when it raised. */
  function DispatchNext(st: St, dispatch: Option<MsgId>, now: Time): (St, Reply) {
    var (st1, next) := NextQueued(st);
    if !next.Record? || st1.queue == [] then (st1, Nothing)
    else if dispatch.None? then (st1, Raised(RuntimeError))
    else Dispatch(st1, st1.queue[0], dispatch.value, now)
  }

  function CoordObserve(st: St, id: OpId, parent: MsgId, kernel: KernelReply, now: Time): (St, Reply) {
    var (st1, reply) := ObserveBusyParent(st, id, parent, now);
    Settle(st1, id, reply, reply.Record? && reply.r.state.CancelPending? && reply.r.Owns(), kernel, now)
  }

  function CoordRequest(st: St, id: OpId, outcome: ExecState, kernel: KernelReply, now: Time): (St, Reply) {
    var (st1, reply) := Request(st, id, outcome, now);
    Settle(st1, id, reply, reply.Record? && reply.interrupt, kernel, now)
  }

  /******* Runs *******/

  datatype Op =
    | OpEnqueue(id: OpId, session: SessionId, timeout: Option<int>)
    | OpNextQueued
    | OpDispatch(id: OpId, msg: MsgId)
    | OpObserveBusyParent(id: OpId, parent: MsgId)
    | OpObserveKernelBusy(parent: MsgId)
    | OpObserveKernelIdle
    | OpRequest(id: OpId, timedOut: bool)
    | OpMarkCancelling(id: OpId)
    | OpExpire
    | OpFinish(id: OpId, outcome: ExecState)
    | OpInvalidateSession(session: SessionId)
    | OpDispatchNext(dispatch: Option<MsgId>)
    | OpCoordObserve(id: OpId, parent: MsgId, kernel: KernelReply)
    | OpCoordRequest(id: OpId, timedOut: bool, kernel: KernelReply)

  function Wanted(timedOut: bool): ExecState {
    if timedOut then Timeout else Cancelled
  }

  function Step(st: St, op: Op, now: Time): (St, Reply) {
    match op
    case OpEnqueue(id, session, timeout) => Enqueue(st, id, session, timeout, now)
    case OpNextQueued => NextQueued(st)
    case OpDispatch(id, msg) => Dispatch(st, id, msg, now)
    case OpObserveBusyParent(id, parent) => ObserveBusyParent(st, id, parent, now)
    case OpObserveKernelBusy(parent) => (st.(busy := Some(parent)), Nothing)
    case OpObserveKernelIdle => (st.(busy := None), Nothing)
    case OpRequest(id, timedOut) => Request(st, id, Wanted(timedOut), now)
    case OpMarkCancelling(id) => MarkCancelling(st, id)
    case OpExpire => var (st', rs) := ExpireAll(st, st.order, now); (st', Records(rs))
    case OpFinish(id, outcome) => Finish(st, id, outcome, now)
    case OpInvalidateSession(session) =>
      var (st', rs) := CancelAll(st, LiveOf(st, st.order, session), now); (st', Records(rs))
    case OpDispatchNext(dispatch) => DispatchNext(st, dispatch, now)
    case OpCoordObserve(id, parent, kernel) => CoordObserve(st, id, parent, kernel, now)
    case OpCoordRequest(id, timedOut, kernel) => CoordRequest(st, id, Wanted(timedOut), kernel, now)
  }

  /** A run is any sequence of timed calls, from an empty broker. */
  function Run(ops: seq<(Op, Time)>): St {
    if ops == [] then Init
    else Step(Run(ops[..|ops| - 1]), ops[|ops| - 1].0, ops[|ops| - 1].1).0
  }

  /** uuid4 never repeats an operation identifier. */
  predicate FreshId(st: St, op: Op) {
    op.OpEnqueue? ==> op.id !in st.records
  }

  predicate FreshRun(ops: seq<(Op, Time)>) {
    ops == [] || (FreshRun(ops[..|ops| - 1]) && FreshId(Run(ops[..|ops| - 1]), ops[|ops| - 1].0))
  }
}
