/** The promises of the execution broker and coordinator, over all of their runs. */
module ExecutionResults {
  import opened Options
  import opened ExecutionSpec
  import opened ExecutionTheory

  type Calls = seq<(Op, Time)>

  lemma {:induction false} RunInv(ops: Calls)
    requires FreshRun(ops)
    ensures Inv(Run(ops))
  {
    if ops == [] {
      InitInv();
    } else {
      RunInv(ops[..|ops| - 1]);
      StepInv(Run(ops[..|ops| - 1]), ops[|ops| - 1].0, ops[|ops| - 1].1);
    }
  }

  /** At every point of a run, later points only evolve it. */
  lemma {:induction false} RunEvolves(ops: Calls, n: nat)
    requires FreshRun(ops) && n <= |ops|
    ensures FreshRun(ops[..n]) && Evolves(Run(ops[..n]), Run(ops))
  {
    if n == |ops| {
      assert ops[..n] == ops;
    } else {
      var most := ops[..|ops| - 1];
      RunEvolves(most, n);
      assert most[..n] == ops[..n];
      RunInv(most);
      StepInv(Run(most), ops[|ops| - 1].0, ops[|ops| - 1].1);
      EvolvesTransitive(Run(ops[..n]), Run(most), Run(ops));
    }
  }

  /** The operations in flight are exactly the active slot; at most one is in flight. */
  lemma {:induction false} InFlightIsTheSlot(ops: Calls)
    requires FreshRun(ops)
    ensures var st := Run(ops);
            && (set id | id in st.records && InFlight(st.records[id].state)) ==
               (if st.active.Some? then {st.active.value} else {})
            && (st.active.Some? ==> st.records[st.active.value].msg.Some? && st.records[st.active.value].msg.value != "")
  {
    RunInv(ops);
    var st := Run(ops);
    assert forall id :: id in st.records ==> SlotRec(st.records[id], st.active == Some(id));
  }

  /** A terminal operation is terminal for ever, and a dispatched one keeps its message. */
  lemma {:induction false} TerminalIsAbsorbing(ops: Calls, n: nat, id: OpId)
    requires FreshRun(ops) && n <= |ops|
    requires id in Run(ops[..n]).records
    ensures id in Run(ops).records
    ensures Terminal(Run(ops[..n]).records[id].state) ==> Terminal(Run(ops).records[id].state)
    ensures Run(ops[..n]).records[id].msg.Some? ==> Run(ops).records[id].msg == Run(ops[..n]).records[id].msg
  {
    RunEvolves(ops, n);
    assert RecEvolves(Run(ops[..n]).records[id], Run(ops).records[id]);
  }

  /** Every interrupt ever issued was for the slot's operation, its message being its last parent. */
  lemma {:induction false} InterruptsAreOwned(ops: Calls, i: nat)
    requires FreshRun(ops) && i < |Run(ops).log| && Run(ops).log[i].Interrupted?
    ensures var e := Run(ops).log[i];
            e.active == Some(e.id) && e.msg.Some? && e.msg.value != "" && e.msg == e.parent
  {
    RunInv(ops);
    assert OwnedInterrupt(Run(ops).log[i]);
  }

  /******* The lazily cleaned queue refines the simple one *******/

  lemma {:induction false} QueueRefines(st: St)
    requires QueueInv(st)
    ensures Select(st.queue, QueuedIds(st)) == Select(st.order, QueuedIds(st))
    ensures st.dispatched == Select(st.order, DispatchedIds(st))
    ensures NoDup(st.order) && Elems(st.order) == st.records.Keys
  {
    hide Select;
    var gone := |st.order| - |st.queue|;
    assert st.order == st.order[..gone] + st.queue;
    SelectSplit(st.order[..gone], st.queue, QueuedIds(st));
    SelectNone(st.order[..gone], QueuedIds(st));
  }

  lemma {:induction false} QueueRefinesOrder(ops: Calls)
    requires FreshRun(ops)
    ensures var st := Run(ops);
            && Select(st.queue, QueuedIds(st)) == Select(st.order, QueuedIds(st))
            && st.dispatched == Select(st.order, DispatchedIds(st))
            && NoDup(st.order) && Elems(st.order) == st.records.Keys
  {
    hide Select, NoDup, QueueInv, SlotInv, HistoryInv, LogInv;
    RunInv(ops);
    QueueRefines(Run(ops));
  }

  /** Nothing kept before position k and the element there kept: it is the first one kept. */
  lemma {:induction false} SelectFirst(ids: seq<OpId>, k: nat, keep: set<OpId>)
    requires k <= |ids|
    requires forall i :: 0 <= i < k ==> ids[i] !in keep
    requires k < |ids| ==> ids[k] in keep
    ensures Select(ids, keep) == [] <==> k == |ids|
    ensures k < |ids| ==> Select(ids, keep)[0] == ids[k]
  {
    SelectNone(ids[..k], keep);
    if k == |ids| {
      assert ids[..k] == ids;
    } else {
      assert ids == ids[..k] + [ids[k]] + ids[k + 1..];
      SelectSplit(ids[..k] + [ids[k]], ids[k + 1..], keep);
      SelectSplit(ids[..k], [ids[k]], keep);
      assert [ids[k]][..0] == [];
    }
  }

  /** next_queued answers with the earliest queued operation, and with none only if there is none. */
  lemma {:induction false} NextIsEarliest(st: St)
    requires QueueInv(st) && st.active.None? && st.busy.None?
    ensures var (st', reply) := NextQueued(st);
            var queued := Select(st.order, QueuedIds(st));
            && (queued == [] <==> reply.Nothing?)
            && (queued != [] ==>
                  && st'.queue != [] && st'.queue[0] == queued[0]
                  && queued[0] in st.records && reply == Record(st.records[queued[0]], false))
  {
    var q := Cleaned(st, st.queue);
    NextQueuedQueue(st);
    CleanedIsSuffix(st, st.queue);
    var gone := |st.order| - |q|;
    assert QueuedIds(st.(queue := q)) == QueuedIds(st);
    if q != [] {
      assert st.order[gone] == q[0];
    }
    SelectFirst(st.order, gone, QueuedIds(st));
  }

  /** With a message identifier, a sequential dispatch_next never raises and dispatches the earliest. */
  lemma {:induction false} DispatchNextNeverRaises(ops: Calls, msg: MsgId, now: Time)
    requires FreshRun(ops) && msg != ""
    ensures var st := Run(ops);
            var (st', reply) := DispatchNext(st, Some(msg), now);
            var queued := Select(st.order, QueuedIds(st));
            && !reply.Raised?
            && (reply.Nothing? <==> st.active.Some? || st.busy.Some? || queued == [])
            && (!reply.Nothing? ==>
                  && queued != [] && st'.active == Some(queued[0]) && queued[0] in st'.records
                  && var r := st'.records[queued[0]];
                  r.state.Dispatched? && r.msg == Some(msg) && r.dispatchedAt == Some(now))
  {
    RunInv(ops);
    var st := Run(ops);
    if st.active.None? && st.busy.None? {
      NextIsEarliest(st);
      CleanedIsSuffix(st, st.queue);
    }
  }

  /** A kernel that raises on dispatch leaves the operation queued and the slot free; the next call takes it again. */
  lemma {:induction false} RaisingDispatchKeeps(st: St, now: Time)
    requires QueueInv(st)
    ensures var (st', reply) := DispatchNext(st, None, now);
            && (reply.Raised? <==> st.active.None? && st.busy.None? && Select(st.order, QueuedIds(st)) != [])
            && st' == st.(queue := st'.queue)
            && NextQueued(st').1 == NextQueued(st).1
  {
    if st.active.None? && st.busy.None? {
      NextIsEarliest(st);
      NextQueuedQueue(st);
      CleanedIsSuffix(st, st.queue);
      CleanedStays(st, st.(queue := Cleaned(st, st.queue)), st.queue);
    }
  }

  /** Cleaning reads the records only, and once is enough. */
  lemma {:induction false} CleanedStays(st: St, st': St, q: seq<OpId>)
    requires st'.records == st.records
    ensures Cleaned(st', Cleaned(st, q)) == Cleaned(st, q)
    decreases |q|
  {
    if q != [] && !IsQueued(st, q[0]) {
      CleanedStays(st, st', q[1..]);
    }
  }

  /******* The loops over all operations *******/

  /** A due operation ends if it was queued; otherwise it waits for its interrupt. */
  ghost predicate TimedOut(r: Rec, r': Rec) {
    && r'.state == (if r.state.Queued? then Timeout else CancelPending)
    && r'.requested == Some(Timeout)
    && r'.msg == r.msg && r'.parent == r.parent && r'.session == r.session && r'.deadlineAt == r.deadlineAt
  }

  lemma {:induction false} ExpireRecord(st: St, ids: seq<OpId>, now: Time, id: OpId)
    requires NoDup(ids) && id in st.records
    ensures var st' := ExpireAll(st, ids, now).0;
            && id in st'.records
            && if id in ids && Due(st, id, now) then TimedOut(st.records[id], st'.records[id])
               else st'.records[id] == st.records[id]
    decreases |ids|
  {
    if ids != [] {
      ExpireRecord(st, ids[..|ids| - 1], now, id);
      assert ids == ids[..|ids| - 1] + [ids[|ids| - 1]];
    }
  }

  lemma {:induction false} ExpireState(st: St, now: Time, id: OpId)
    requires QueueInv(st) && id in st.records
    ensures var st' := Step(st, OpExpire, now).0;
            && id in st'.records
            && if Due(st, id, now) then TimedOut(st.records[id], st'.records[id])
               else st'.records[id] == st.records[id]
  {
    hide Select, ExpireAll, Due, TimedOut;
    assert id in Elems(st.order);
    ExpireRecord(st, st.order, now, id);
  }

  /** expire times out exactly the operations whose deadline has come, whatever their order. */
  lemma {:induction false} ExpireExactly(ops: Calls, now: Time, id: OpId)
    requires FreshRun(ops) && id in Run(ops).records
    ensures var st := Run(ops);
            var st' := Step(st, OpExpire, now).0;
            && id in st'.records
            && if Due(st, id, now) then TimedOut(st.records[id], st'.records[id])
               else st'.records[id] == st.records[id]
  {
    hide QueueInv, SlotInv, HistoryInv, LogInv, Due, TimedOut, Step;
    RunInv(ops);
    ExpireState(Run(ops), now, id);
  }

  /** The due ones among some operations, in their order. */
  ghost function DueOf(st: St, ids: seq<OpId>, now: Time): seq<OpId> {
    if ids == [] then []
    else
      var rest := DueOf(st, ids[..|ids| - 1], now);
      if Due(st, ids[|ids| - 1], now) then rest + [ids[|ids| - 1]] else rest
  }

  /** What expire answers for one operation: its record afterwards, and whether it owns the kernel now. */
  ghost predicate Answered(before: Rec, after: Rec, answer: (Rec, bool)) {
    && answer.0 == after
    && (answer.1 <==> InFlight(before.state) && after.msg == after.parent && after.msg.Some? && after.msg.value != "")
  }

  lemma {:induction false} DueOfIn(st: St, ids: seq<OpId>, now: Time, k: nat)
    requires k < |DueOf(st, ids, now)|
    ensures DueOf(st, ids, now)[k] in ids && DueOf(st, ids, now)[k] in st.records
  {
    if k < |DueOf(st, ids[..|ids| - 1], now)| {
      DueOfIn(st, ids[..|ids| - 1], now, k);
    }
  }

  /** expire answers for exactly the due operations, in their order. */
  lemma {:induction false} ExpireAnswers(st: St, ids: seq<OpId>, now: Time)
    requires NoDup(ids)
    ensures var (st', answers) := ExpireAll(st, ids, now);
            && |answers| == |DueOf(st, ids, now)|
            && forall k :: 0 <= k < |answers| ==>
                 var id := DueOf(st, ids, now)[k];
                 id in st.records && id in st'.records && Answered(st.records[id], st'.records[id], answers[k])
    decreases |ids|
  {
    if ids != [] {
      var most, id := ids[..|ids| - 1], ids[|ids| - 1];
      ExpireAnswers(st, most, now);
      ExpireAnswersOneMore(st, most, id, now);
      assert ids == most + [id];
    }
  }

  lemma {:induction false} ExpireAnswersOneMore(st: St, most: seq<OpId>, id: OpId, now: Time)
    requires NoDup(most) && id !in most
    requires var (st1, answers) := ExpireAll(st, most, now);
             && |answers| == |DueOf(st, most, now)|
             && forall k :: 0 <= k < |answers| ==>
                  var id := DueOf(st, most, now)[k];
                  id in st.records && id in st1.records && Answered(st.records[id], st1.records[id], answers[k])
    ensures var (st', answers) := ExpireAll(st, most + [id], now);
            && |answers| == |DueOf(st, most + [id], now)|
            && forall k :: 0 <= k < |answers| ==>
                 var id := DueOf(st, most + [id], now)[k];
                 id in st.records && id in st'.records && Answered(st.records[id], st'.records[id], answers[k])
  {
    var all := most + [id];
    assert all[..|all| - 1] == most && all[|all| - 1] == id;
    var st1 := ExpireAll(st, most, now).0;
    ExpireKeys(st, most, now);
    if id in st.records {
      ExpireRecord(st, most, now, id);
    }
    assert Due(st1, id, now) <==> Due(st, id, now);
    forall k | 0 <= k < |DueOf(st, most, now)|
      ensures DueOf(st, most, now)[k] != id
    {
      DueOfIn(st, most, now, k);
    }
    hide ExpireAll, DueOf, NoDup;
  }

  lemma {:induction false} LiveOfIs(st: St, ids: seq<OpId>, session: SessionId, id: OpId)
    ensures id in LiveOf(st, ids, session) <==> id in ids && LiveIn(st, id, session)
  {
    if ids != [] {
      LiveOfIs(st, ids[..|ids| - 1], session, id);
      assert ids == ids[..|ids| - 1] + [ids[|ids| - 1]];
    }
  }

  lemma {:induction false} CancelRecord(st: St, ids: seq<OpId>, now: Time, id: OpId)
    requires id in st.records
    ensures var st' := CancelAll(st, ids, now).0;
            && id in st'.records
            && if id in ids then st'.records[id] == st.records[id].(state := Cancelled, finishedAt := Some(now))
               else st'.records[id] == st.records[id]
    decreases |ids|
  {
    if ids != [] {
      CancelRecord(st, ids[..|ids| - 1], now, id);
      assert ids == ids[..|ids| - 1] + [ids[|ids| - 1]];
    }
  }

  lemma {:induction false} InvalidateState(st: St, session: SessionId, now: Time, id: OpId)
    requires Inv(st) && id in st.records
    ensures var st' := Step(st, OpInvalidateSession(session), now).0;
            && id in st'.records
            && (LiveIn(st, id, session) ==> st'.records[id].state.Cancelled? && st'.records[id].finishedAt == Some(now))
            && (!LiveIn(st, id, session) ==> st'.records[id] == st.records[id])
            && (st'.active == Some(id) <==> st.active == Some(id) && st.records[id].session != session)
  {
    hide Select, CancelAll, LiveOf, LazyQueue, HistoryInv, LogInv, Evolves;
    var live := LiveOf(st, st.order, session);
    assert id in Elems(st.order);
    hide QueueInv, SlotInv;
    LiveOfIs(st, st.order, session, id);
    CancelRecord(st, live, now, id);
    CancelAllInv(st, live, now);
    SlotAt(st, id);
    SlotAt(CancelAll(st, live, now).0, id);
  }

  /** invalidate_session answers with the cancelled records, in their order. */
  lemma {:induction false} CancelAnswers(st: St, ids: seq<OpId>, now: Time)
    requires forall k :: 0 <= k < |ids| ==> ids[k] in st.records
    ensures var answers := CancelAll(st, ids, now).1;
            && |answers| == |ids|
            && forall k :: 0 <= k < |ids| ==>
                 answers[k] == (st.records[ids[k]].(state := Cancelled, finishedAt := Some(now)), false)
    decreases |ids|
  {
    if ids != [] {
      var most, id := ids[..|ids| - 1], ids[|ids| - 1];
      CancelAnswers(st, most, now);
      CancelRecord(st, most, now, id);
    }
  }

  /** invalidate_session cancels exactly the live operations of the session and gives up the slot if it was theirs. */
  lemma {:induction false} InvalidateExactly(ops: Calls, session: SessionId, now: Time, id: OpId)
    requires FreshRun(ops) && id in Run(ops).records
    ensures var st := Run(ops);
            var st' := Step(st, OpInvalidateSession(session), now).0;
            && id in st'.records
            && (LiveIn(st, id, session) ==> st'.records[id].state.Cancelled? && st'.records[id].finishedAt == Some(now))
            && (!LiveIn(st, id, session) ==> st'.records[id] == st.records[id])
            && (st'.active == Some(id) <==> st.active == Some(id) && st.records[id].session != session)
  {
    hide Inv, LiveIn, Step;
    RunInv(ops);
    InvalidateState(Run(ops), session, now, id);
  }

  /******* Deadlines *******/

  /** The enqueue call behind a record. */
  lemma {:induction false} EnqueuedBy(ops: Calls, id: OpId) returns (n: nat)
    requires FreshRun(ops) && id in Run(ops).records
    ensures n < |ops| && ops[n].0.OpEnqueue? && ops[n].0.id == id
    ensures ops[n].0.timeout.Some? ==> ops[n].0.timeout.value > 0
    ensures var r := Run(ops).records[id]; r.session == ops[n].0.session && r.queuedAt == ops[n].1
  {
    n := |ops| - 1;
    var most := ops[..n];
    assert ops[..n + 1] == ops;
    CallAt(ops, n);
    if id in Run(most).records {
      var m := EnqueuedBy(most, id);
      assert RecEvolves(Run(most).records[id], Run(ops).records[id]) by {
        RunEvolves(ops, n);
      }
      n := m;
    } else {
      OnlyEnqueueAdds(Run(most), ops[n].0, ops[n].1, id);
    }
  }

  /** A call that adds a record is the enqueue of it. */
  lemma {:induction false} OnlyEnqueueAdds(st: St, op: Op, now: Time, id: OpId)
    requires Inv(st) && FreshId(st, op) && id !in st.records && id in Step(st, op, now).0.records
    ensures op.OpEnqueue? && op.id == id && (op.timeout.Some? ==> op.timeout.value > 0)
    ensures Step(st, op, now).0.records[id] ==
            Rec(op.session, Queued, now, None, None, None, None, None, None,
                if op.timeout.Some? then Some(now + op.timeout.value) else None, None)
  {
    hide Inv;
    if !op.OpEnqueue? {
      KeysStay(st, op, now);
    }
  }

  lemma {:induction false} ExpireKeys(st: St, ids: seq<OpId>, now: Time)
    ensures ExpireAll(st, ids, now).0.records.Keys == st.records.Keys
    decreases |ids|
  {
    if ids != [] {
      ExpireKeys(st, ids[..|ids| - 1], now);
    }
  }

  lemma {:induction false} CancelKeys(st: St, ids: seq<OpId>, now: Time)
    ensures CancelAll(st, ids, now).0.records.Keys == st.records.Keys
    decreases |ids|
  {
    if ids != [] {
      CancelKeys(st, ids[..|ids| - 1], now);
    }
  }

  lemma {:induction false} InterruptKeys(st: St, id: OpId, kernel: KernelReply, now: Time)
    ensures InterruptOwned(st, id, kernel, now).0.records.Keys == st.records.Keys
  {
  }

  lemma {:induction false} KeysStay(st: St, op: Op, now: Time)
    requires !op.OpEnqueue?
    ensures Step(st, op, now).0.records.Keys == st.records.Keys
  {
    hide InterruptOwned, ExpireAll, CancelAll, LiveOf, Cleaned;
    match op
    case OpExpire => ExpireKeys(st, st.order, now);
    case OpInvalidateSession(session) => CancelKeys(st, LiveOf(st, st.order, session), now);
    case OpCoordObserve(id, parent, kernel) =>
      InterruptKeys(ObserveBusyParent(st, id, parent, now).0, id, kernel, now);
    case OpCoordRequest(id, timedOut, kernel) =>
      InterruptKeys(Request(st, id, Wanted(timedOut), now).0, id, kernel, now);
    case _ =>
  }

  /** An accepted enqueue is recorded for good, with what it was given. */
  lemma {:induction false} EnqueueIsKept(ops: Calls, n: nat)
    requires FreshRun(ops) && n < |ops| && ops[n].0.OpEnqueue?
    requires ops[n].0.timeout.Some? ==> ops[n].0.timeout.value > 0
    ensures var op, at := ops[n].0, ops[n].1;
            && op.id in Run(ops).records
            && var r := Run(ops).records[op.id];
            && r.session == op.session && r.queuedAt == at
            && r.deadlineAt == if op.timeout.Some? then Some(at + op.timeout.value) else None
  {
    CallAt(ops, n);
    RunEvolves(ops, n + 1);
    var id := ops[n].0.id;
    assert id in Run(ops[..n + 1]).records;
    assert RecEvolves(Run(ops[..n + 1]).records[id], Run(ops).records[id]);
  }

  /** An enqueue with a timeout that is not positive is refused and leaves nothing. */
  lemma {:induction false} EnqueueIsRefused(st: St, id: OpId, session: SessionId, timeout: int, now: Time)
    ensures Enqueue(st, id, session, Some(timeout), now).1.Raised? <==> timeout <= 0
    ensures timeout <= 0 ==> Enqueue(st, id, session, Some(timeout), now).0 == st
  {
  }

  /**
    From the calls alone: an operation enqueued with timeout t at `at` is timed out by an expire at
    `later` exactly if it is not terminal and at least t has passed; without a timeout it never is.
  */
  lemma {:induction false} TimesOutExactly(ops: Calls, n: nat, later: Time)
    requires FreshRun(ops) && n < |ops| && ops[n].0.OpEnqueue?
    requires ops[n].0.timeout.Some? ==> ops[n].0.timeout.value > 0
    ensures var op, at, st := ops[n].0, ops[n].1, Run(ops);
            var st' := Step(st, OpExpire, later).0;
            && op.id in st.records && op.id in st'.records
            && if !Terminal(st.records[op.id].state) && op.timeout.Some? && later >= at + op.timeout.value
               then TimedOut(st.records[op.id], st'.records[op.id])
               else st'.records[op.id] == st.records[op.id]
  {
    EnqueueIsKept(ops, n);
    hide TimedOut, Run, FreshRun, Step;
    ExpireExactly(ops, later, ops[n].0.id);
  }

  /******* Interrupts under a configured wait *******/

  ghost predicate Waits(op: Op) {
    op.OpCoordObserve? || op.OpCoordRequest? ==> WaitCompleted(op.kernel)
  }

  /** An interrupt, its wait, the restart if the wait failed, and the finish as last requested. */
  ghost predicate Block(log: seq<Event>, i: nat)
    requires i < |log| && log[i].Interrupted?
  {
    && i + 1 < |log| && log[i + 1].Waited?
    && var f := FinishOf(log, i);
    && f < |log|
    && (!log[i + 1].idle ==> log[i + 2] == Restarted)
    && log[f].Finished? && log[f].id == log[i].id
    && LastRequested(log[..i], log[i].id) == Some(log[f].outcome)
  }

  ghost function FinishOf(log: seq<Event>, i: nat): nat
    requires i + 1 < |log| && log[i + 1].Waited?
  {
    if log[i + 1].idle then i + 2 else i + 3
  }

  /** Nothing after `log` is an interrupt. */
  ghost predicate Quiet(log: seq<Event>, log': seq<Event>) {
    log <= log' && forall i :: |log| <= i < |log'| ==> !log'[i].Interrupted?
  }

  /** Every interrupt after `log` is a block. */
  ghost predicate BlocksAfter(log: seq<Event>, log': seq<Event>) {
    log <= log' && forall i :: |log| <= i < |log'| && log'[i].Interrupted? ==> Block(log', i)
  }

  lemma {:induction false} BlockExtends(log: seq<Event>, log': seq<Event>, i: nat)
    requires log <= log' && i < |log| && log[i].Interrupted? && Block(log, i)
    ensures Block(log', i)
  {
    assert log'[..i] == log[..i];
  }

  lemma {:induction false} ExpireIsQuiet(st: St, ids: seq<OpId>, now: Time)
    ensures Quiet(st.log, ExpireAll(st, ids, now).0.log)
    decreases |ids|
  {
    if ids != [] {
      ExpireIsQuiet(st, ids[..|ids| - 1], now);
    }
  }

  lemma {:induction false} CancelIsQuiet(st: St, ids: seq<OpId>, now: Time)
    ensures Quiet(st.log, CancelAll(st, ids, now).0.log)
    decreases |ids|
  {
    if ids != [] {
      CancelIsQuiet(st, ids[..|ids| - 1], now);
    }
  }

  /** What a completed interrupt logs. */
  ghost function BlockLog(log: seq<Event>, e: Event, idle: bool, outcome: ExecState): seq<Event>
    requires e.Interrupted?
  {
    if idle then log + [e] + [Waited(true)] + [Finished(e.id, outcome)]
    else log + [e] + [Waited(false)] + [Restarted] + [Finished(e.id, outcome)]
  }

  lemma {:induction false} BlockLogIsBlock(log: seq<Event>, e: Event, idle: bool, outcome: ExecState)
    requires e.Interrupted? && LastRequested(log, e.id) == Some(outcome)
    ensures BlocksAfter(log, BlockLog(log, e, idle, outcome))
  {
    hide LastRequested;
    assert BlockLog(log, e, idle, outcome)[..|log|] == log;
  }

  lemma {:induction false} CompletedInterrupt(st: St, id: OpId, kernel: KernelReply, now: Time)
    requires SlotInv(st) && HistoryInv(st) && WaitCompleted(kernel)
    requires id in st.records && st.records[id].requested.Some?
    ensures BlocksAfter(st.log, InterruptOwned(st, id, kernel, now).0.log)
  {
    SlotAt(st, id);
    MatchesAt(st, id);
    hide SlotInv, HistoryInv, LastRequested, LastFinished, BlocksAfter;
    NoBlocks(st.log);
    if st.records[id].Owns() {
      var r := st.records[id];
      var e := Interrupted(id, r.msg, r.parent, st.active, st.busy);
      BlockLogIsBlock(st.log, e, kernel.WentIdle?, r.requested.value);
      assert InterruptOwned(st, id, kernel, now).0.log == BlockLog(st.log, e, kernel.WentIdle?, r.requested.value);
    }
  }

  lemma {:induction false} NoBlocks(log: seq<Event>)
    ensures BlocksAfter(log, log)
  {
  }

  lemma {:induction false} CoordObserveBlocks(st: St, id: OpId, parent: MsgId, kernel: KernelReply, now: Time)
    requires Inv(st) && WaitCompleted(kernel)
    ensures BlocksAfter(st.log, CoordObserve(st, id, parent, kernel, now).0.log)
  {
    hide QueueInv, SlotInv, HistoryInv, LogInv, Evolves, BlocksAfter, InterruptOwned;
    var (st1, reply) := ObserveBusyParent(st, id, parent, now);
    ObserveInv(st, id, parent, now);
    NoBlocks(st.log);
    if reply.Record? && reply.r.state.CancelPending? && reply.r.Owns() {
      SlotAt(st1, id);
      CompletedInterrupt(st1, id, kernel, now);
    }
  }

  lemma {:induction false} RequestIsQuiet(st: St, id: OpId, outcome: ExecState, now: Time)
    ensures var (st1, reply) := Request(st, id, outcome, now);
            && Quiet(st.log, st1.log)
            && (reply.Record? && reply.interrupt ==> id in st1.records && st1.records[id].requested.Some?)
  {
  }

  lemma {:induction false} QuietThenBlocks(a: seq<Event>, b: seq<Event>, c: seq<Event>)
    requires Quiet(a, b) && BlocksAfter(b, c)
    ensures BlocksAfter(a, c)
  {
  }

  lemma {:induction false} CoordRequestBlocks(st: St, id: OpId, outcome: ExecState, kernel: KernelReply, now: Time)
    requires Inv(st) && WaitCompleted(kernel) && Terminal(outcome)
    ensures BlocksAfter(st.log, CoordRequest(st, id, outcome, kernel, now).0.log)
  {
    hide QueueInv, SlotInv, HistoryInv, LogInv, Evolves, BlocksAfter, Quiet, Request, InterruptOwned;
    var (st1, reply) := Request(st, id, outcome, now);
    RequestIsQuiet(st, id, outcome, now);
    NoBlocks(st1.log);
    QuietThenBlocks(st.log, st1.log, st1.log);
    if reply.Record? && reply.interrupt {
      RequestInv(st, id, outcome, now);
      CompletedInterrupt(st1, id, kernel, now);
      QuietThenBlocks(st.log, st1.log, InterruptOwned(st1, id, kernel, now).0.log);
    }
  }

  /** A call on the broker itself interrupts nothing. */
  lemma {:induction false} BrokerCallIsQuiet(st: St, op: Op, now: Time)
    requires !op.OpCoordObserve? && !op.OpCoordRequest?
    ensures Quiet(st.log, Step(st, op, now).0.log)
  {
    if op.OpExpire? {
      ExpireIsQuiet(st, st.order, now);
    } else if op.OpInvalidateSession? {
      CancelIsQuiet(st, LiveOf(st, st.order, op.session), now);
    }
  }

  /** A call whose wait completes finishes what it interrupts. */
  lemma {:induction false} StepBlocks(st: St, op: Op, now: Time)
    requires Inv(st) && Waits(op)
    ensures BlocksAfter(st.log, Step(st, op, now).0.log)
  {
    hide Inv;
    if op.OpCoordObserve? {
      CoordObserveBlocks(st, op.id, op.parent, op.kernel, now);
    } else if op.OpCoordRequest? {
      CoordRequestBlocks(st, op.id, Wanted(op.timedOut), op.kernel, now);
    } else {
      BrokerCallIsQuiet(st, op, now);
    }
  }

  /** The i-th event was written by call n. */
  ghost predicate WrittenBy(ops: Calls, n: nat, i: nat)
    requires n < |ops|
  {
    |Run(ops[..n]).log| <= i < |Run(ops[..n + 1]).log|
  }

  /** Every event was written by some call. */
  lemma {:induction false} CallOf(ops: Calls, i: nat) returns (n: nat)
    requires i < |Run(ops).log|
    ensures n < |ops| && WrittenBy(ops, n, i)
  {
    n := |ops| - 1;
    if i < |Run(ops[..n]).log| {
      var most := ops[..n];
      n := CallOf(most, i);
      assert most[..n] == ops[..n] && most[..n + 1] == ops[..n + 1];
    } else {
      assert ops[..n + 1] == ops;
    }
  }

  /** The state before call n and the one after it, inside a run. */
  lemma {:induction false} CallAt(ops: Calls, n: nat)
    requires FreshRun(ops) && n < |ops|
    ensures FreshRun(ops[..n]) && FreshRun(ops[..n + 1]) && FreshId(Run(ops[..n]), ops[n].0)
    ensures Run(ops[..n + 1]) == Step(Run(ops[..n]), ops[n].0, ops[n].1).0
    ensures Inv(Run(ops[..n])) && Run(ops[..n + 1]).log <= Run(ops).log
  {
    hide Inv, Step, RecEvolves;
    RunEvolves(ops, n);
    RunEvolves(ops, n + 1);
    RunInv(ops[..n]);
    assert ops[..n + 1][..n] == ops[..n];
  }

  /** An interrupt whose own call completed is followed by its wait, its restart if needed and its finish. */
  lemma {:induction false} CompletedCallBlock(ops: Calls, n: nat, i: nat)
    requires FreshRun(ops) && n < |ops| && WrittenBy(ops, n, i) && Waits(ops[n].0)
    requires i < |Run(ops).log| && Run(ops).log[i].Interrupted?
    ensures Block(Run(ops).log, i)
  {
    CallAt(ops, n);
    StepBlocks(Run(ops[..n]), ops[n].0, ops[n].1);
    hide Inv, Step, Run, FreshRun;
    BlockExtends(Run(ops[..n + 1]).log, Run(ops).log, i);
  }

  lemma {:induction false} OncePerBlock(log: seq<Event>, i: nat, j: nat)
    requires NoneAfterFinish(log)
    requires i < j < |log| && log[i].Interrupted? && log[j].Interrupted? && Block(log, i)
    ensures log[i].id != log[j].id
  {
    var f := FinishOf(log, i);
    assert log[f].Finished? && f < j;
  }

  /**
    An interrupt whose own call completed its wait is the last one of its operation, whatever the
    kernel does in the other calls of the run.
  */
  lemma {:induction false} InterruptedAtMostOnce(ops: Calls, n: nat, i: nat, j: nat)
    requires FreshRun(ops) && n < |ops| && WrittenBy(ops, n, i) && Waits(ops[n].0)
    requires i < j < |Run(ops).log| && Run(ops).log[i].Interrupted? && Run(ops).log[j].Interrupted?
    ensures Run(ops).log[i].id != Run(ops).log[j].id
  {
    CompletedCallBlock(ops, n, i);
    RunInv(ops);
    hide QueueInv, SlotInv, HistoryInv, Block, Run, FreshRun, WrittenBy;
    OncePerBlock(Run(ops).log, i, j);
  }

  ghost predicate AllWait(ops: Calls) {
    forall i :: 0 <= i < |ops| ==> Waits(ops[i].0)
  }

  /** So a run in which every wait completes interrupts each operation at most once. */
  lemma {:induction false} WaitingRunInterruptsOnce(ops: Calls, i: nat, j: nat)
    requires FreshRun(ops) && AllWait(ops)
    requires i < j < |Run(ops).log| && Run(ops).log[i].Interrupted? && Run(ops).log[j].Interrupted?
    ensures Run(ops).log[i].id != Run(ops).log[j].id
  {
    var n := CallOf(ops, i);
    InterruptedAtMostOnce(ops, n, i, j);
  }

  lemma {:induction false} RunSnoc(ops: Calls, op: Op, now: Time)
    requires FreshRun(ops) && FreshId(Run(ops), op)
    ensures FreshRun(ops + [(op, now)]) && Run(ops + [(op, now)]) == Step(Run(ops), op, now).0
  {
    var more := ops + [(op, now)];
    assert more[..|more| - 1] == ops;
  }

  /** A run that leaves operation 0 running its own message. */
  lemma {:induction false} RunningRun() returns (ops: Calls)
    ensures FreshRun(ops)
    ensures var st := Run(ops);
            && st.log == [] && 0 in st.records && st.records[0].state.Running?
            && st.records[0].msg == st.records[0].parent == Some("agent")
  {
    ops := [];
    RunSnoc(ops, OpEnqueue(0, 0, None), 0);
    ops := ops + [(OpEnqueue(0, 0, None), 0)];
    RunSnoc(ops, OpDispatch(0, "agent"), 0);
    ops := ops + [(OpDispatch(0, "agent"), 0)];
    RunSnoc(ops, OpObserveBusyParent(0, "agent"), 0);
    ops := ops + [(OpObserveBusyParent(0, "agent"), 0)];
  }

  /** A cancel whose interrupt raises leaves a live operation that can be cancelled and interrupted again. */
  lemma {:induction false} RaisingCancel(st: St, id: OpId, now: Time)
    requires id in st.records && (st.records[id].state.Running? || st.records[id].state.Cancelling?)
    requires st.records[id].msg == st.records[id].parent && st.records[id].msg.Some? && st.records[id].msg.value != ""
    ensures var st' := Step(st, OpCoordRequest(id, false, InterruptRaised), now).0;
            && id in st'.records && st'.records[id].state.Cancelling?
            && st'.records[id].msg == st'.records[id].parent == st.records[id].msg
            && st'.log == st.log + [Requested(id, Cancelled),
                                    Interrupted(id, st.records[id].msg, st.records[id].msg, st.active, st.busy)]
  {
  }

  /** Completion is needed: a kernel whose interrupt raises is interrupted again for the same operation. */
  lemma {:induction false} RaisingKernelInterruptedTwice() returns (ops: Calls)
    ensures FreshRun(ops) && |Run(ops).log| == 4
    ensures Run(ops).log[1].Interrupted? && Run(ops).log[3].Interrupted? && Run(ops).log[1].id == Run(ops).log[3].id
  {
    hide Step, Run, FreshRun;
    var cancel := OpCoordRequest(0, false, InterruptRaised);
    ops := RunningRun();
    RaisingCancel(Run(ops), 0, 0);
    RunSnoc(ops, cancel, 0);
    ops := ops + [(cancel, 0)];
    RaisingCancel(Run(ops), 0, 0);
    RunSnoc(ops, cancel, 0);
    ops := ops + [(cancel, 0)];
  }

  /** Whatever the kernel does, a second interrupt of an operation means the first call never finished it. */
  lemma {:induction false} RepeatedInterruptWasUnfinished(ops: Calls, i: nat, f: nat, j: nat)
    requires FreshRun(ops)
    requires i < j < |Run(ops).log| && Run(ops).log[i].Interrupted? && Run(ops).log[j].Interrupted?
    requires Run(ops).log[i].id == Run(ops).log[j].id
    requires i < f < j && Run(ops).log[f].Finished?
    ensures Run(ops).log[f].id != Run(ops).log[i].id
  {
    RunInv(ops);
  }

  /** A restart comes directly after a wait that was not idle, and that directly after an interrupt. */
  lemma {:induction false} RestartOnlyAfterFailedWait(ops: Calls, i: nat)
    requires FreshRun(ops) && i < |Run(ops).log| && Run(ops).log[i].Restarted?
    ensures 2 <= i && Run(ops).log[i - 1] == Waited(false) && Run(ops).log[i - 2].Interrupted?
  {
    RunInv(ops);
    assert Justified(Run(ops).log, i) && Justified(Run(ops).log, i - 1);
  }

  lemma {:induction false} LastFinishIs(log: seq<Event>, f: nat)
    requires f < |log| && log[f].Finished?
    requires forall g :: f < g < |log| && log[g].Finished? ==> log[g].id != log[f].id
    ensures LastFinished(log, log[f].id) == Some(log[f].outcome)
  {
    if f < |log| - 1 {
      LastFinishIs(log[..|log| - 1], f);
    }
  }

  /** The record of an operation with a finish that no later one replaces. */
  lemma {:induction false} EndsAsBlock(st: St, i: nat)
    requires HistoryInv(st) && i < |st.log| && st.log[i].Interrupted? && Block(st.log, i)
    ensures var id := st.log[i].id;
            && id in st.records && Terminal(st.records[id].state)
            && ((forall g :: FinishOf(st.log, i) < g < |st.log| && st.log[g].Finished? ==> st.log[g].id != id) ==>
                  Some(st.records[id].state) == LastRequested(st.log[..i], id))
  {
    var id := st.log[i].id;
    assert Names(st.log[i], id);
    FinishedIsLogged(st.log, FinishOf(st.log, i));
    MatchesAt(st, id);
    if forall g :: FinishOf(st.log, i) < g < |st.log| && st.log[g].Finished? ==> st.log[g].id != id {
      LastFinishIs(st.log, FinishOf(st.log, i));
    }
  }

  /**
    An operation whose interrupting call completed its wait ends terminal, with the outcome last
    requested for it before the interrupt; only a later finish of the same operation replaces that
    outcome, by another terminal one.
  */
  lemma {:induction false} InterruptedEndsAsRequested(ops: Calls, n: nat, i: nat)
    requires FreshRun(ops) && n < |ops| && WrittenBy(ops, n, i) && Waits(ops[n].0)
    requires i < |Run(ops).log| && Run(ops).log[i].Interrupted?
    ensures var st := Run(ops);
            var id := st.log[i].id;
            && id in st.records && Terminal(st.records[id].state)
            && Block(st.log, i)
            && ((forall g :: FinishOf(st.log, i) < g < |st.log| && st.log[g].Finished? ==> st.log[g].id != id) ==>
                  Some(st.records[id].state) == LastRequested(st.log[..i], id))
  {
    CompletedCallBlock(ops, n, i);
    RunInv(ops);
    EndsAsBlock(Run(ops), i);
  }

  /******* Every cancel and timeout gets through *******/

  /** A queued operation ends at once, without an interrupt. */
  lemma {:induction false} QueuedRequestEnds(st: St, id: OpId, outcome: ExecState, kernel: KernelReply, now: Time)
    requires IsQueued(st, id) && Terminal(outcome)
    ensures var st' := CoordRequest(st, id, outcome, kernel, now).0;
            && id in st'.records && st'.records[id].state == outcome && st'.records[id].finishedAt == Some(now)
            && st'.records[id].requested == Some(outcome) && st'.records[id].cancelRequestedAt == Some(now)
            && st'.log == st.log + [Requested(id, outcome)]
  {
  }

  /** An owned interrupt whose wait completes ends the operation in the slot as requested. */
  lemma {:induction false} InterruptEnds(st: St, id: OpId, kernel: KernelReply, now: Time)
    requires id in st.records && st.records[id].Owns() && st.records[id].requested.Some? && st.active == Some(id)
    requires Terminal(st.records[id].requested.value) && WaitCompleted(kernel)
    ensures var (st', reply) := InterruptOwned(st, id, kernel, now);
            && id in st'.records && st'.records[id].state == st.records[id].requested.value && !reply.Raised?
            && st'.records[id].finishedAt == Some(now) && st'.active == None
            && |st'.log| > |st.log| && st'.log[|st.log|].Interrupted? && st'.log[|st.log|].id == id
  {
  }

  /** An operation whose own message the kernel was seen with is interrupted at once and ends as requested. */
  lemma {:induction false} OwnedRequestEnds(st: St, id: OpId, outcome: ExecState, kernel: KernelReply, now: Time)
    requires SlotInv(st) && id in st.records && InFlight(st.records[id].state) && Terminal(outcome)
    requires st.records[id].parent == st.records[id].msg && WaitCompleted(kernel)
    ensures var st' := CoordRequest(st, id, outcome, kernel, now).0;
            && id in st'.records && st'.records[id].state == outcome && st'.records[id].finishedAt == Some(now)
            && st'.active == None
            && |st'.log| > |st.log| + 1 && st'.log[|st.log| + 1].Interrupted? && st'.log[|st.log| + 1].id == id
  {
    SlotAt(st, id);
    hide SlotInv, InterruptOwned;
    InterruptEnds(Request(st, id, outcome, now).0, id, kernel, now);
  }

  /** Any other operation in flight waits for its own message, and nothing is interrupted meanwhile. */
  lemma {:induction false} ForeignRequestWaits(st: St, id: OpId, outcome: ExecState, kernel: KernelReply, now: Time)
    requires id in st.records && InFlight(st.records[id].state) && st.records[id].parent != st.records[id].msg
    ensures var st' := CoordRequest(st, id, outcome, kernel, now).0;
            && id in st'.records && st'.records[id].state.CancelPending? && st'.records[id].requested == Some(outcome)
            && st'.records[id].cancelRequestedAt == Some(now) && st'.records[id].finishedAt == st.records[id].finishedAt
            && st'.active == st.active && st'.log == st.log + [Requested(id, outcome)]
  {
  }

  /** Its own message then starts it, and if a cancel or timeout waits for it, interrupts and ends it as requested. */
  lemma {:induction false} OwnMessageArrives(st: St, id: OpId, kernel: KernelReply, now: Time)
    requires SlotInv(st) && id in st.records && st.records[id].msg.Some? && WaitCompleted(kernel)
    requires st.records[id].state.Dispatched? || st.records[id].state.CancelPending?
    ensures var r := st.records[id];
            var st' := CoordObserve(st, id, r.msg.value, kernel, now).0;
            && id in st'.records
            && st'.records[id].startedAt == (if r.state.CancelPending? && r.startedAt.Some? then r.startedAt else Some(now))
            && (r.state.Dispatched? ==> st'.records[id].state.Running? && st'.log == st.log)
            && (r.state.CancelPending? ==>
                  && r.requested.Some? && st'.records[id].state == r.requested.value && st'.active == None
                  && |st'.log| > |st.log| && st'.log[|st.log|].Interrupted? && st'.log[|st.log|].id == id)
  {
    SlotAt(st, id);
    hide SlotInv, InterruptOwned;
    if st.records[id].state.CancelPending? {
      InterruptEnds(ObserveBusyParent(st, id, st.records[id].msg.value, now).0, id, kernel, now);
    }
  }

  /** A foreign message is recorded as the last parent and changes nothing else of the operation. */
  lemma {:induction false} ForeignMessagePasses(st: St, id: OpId, parent: MsgId, kernel: KernelReply, now: Time)
    requires id in st.records && st.records[id].msg != Some(parent)
    ensures var st' := CoordObserve(st, id, parent, kernel, now).0;
            && st' == st.(busy := Some(parent), records := st.records[id := st.records[id].(parent := Some(parent))])
  {
  }

  /******* The record's parent and the broker's busy parent *******/

  /**
    Operation t is delivered its observations: while it is in flight all of them come through it, and
    none comes for it while it is queued. Nothing is asked of the other operations.
  */
  ghost predicate DeliveredFor(st: St, op: Op, t: OpId) {
    match op
    case OpObserveKernelBusy(_) => st.active != Some(t)
    case OpObserveKernelIdle => st.active != Some(t)
    case OpObserveBusyParent(id, _) => (st.active == Some(t) ==> id == t) && (id == t ==> !IsQueued(st, t))
    case OpCoordObserve(id, _, _) => (st.active == Some(t) ==> id == t) && (id == t ==> !IsQueued(st, t))
    case _ => true
  }

  ghost predicate DeliveredRunFor(ops: Calls, t: OpId) {
    forall n :: 0 <= n < |ops| ==> DeliveredFor(Run(ops[..n]), ops[n].0, t)
  }

  ghost predicate LinkRec(r: Rec, active: bool, busy: Option<MsgId>) {
    (active ==> r.parent == busy) && (r.state.Queued? ==> r.parent.None?)
  }

  ghost predicate BusyIsMine(e: Event, t: OpId) {
    e.Interrupted? && e.id == t ==> e.busy == e.msg
  }

  /** The link between t's own parent and the broker's busy parent, now and at each of its interrupts. */
  ghost predicate LinkFor(st: St, t: OpId) {
    && (t in st.records ==> LinkRec(st.records[t], st.active == Some(t), st.busy))
    && (forall i :: 0 <= i < |st.log| ==> BusyIsMine(st.log[i], t))
  }

  /** A call that observes nothing, activates nothing and does not interrupt t keeps the link. */
  lemma {:induction false} LinkKept(st: St, st': St, t: OpId)
    requires LinkFor(st, t) && st'.busy == st.busy
    requires t in st'.records ==> t in st.records && st'.records[t].parent == st.records[t].parent
    requires t in st'.records && st'.records[t].state.Queued? ==> st.records[t].state.Queued?
    requires st'.active == Some(t) ==> st.active == Some(t)
    requires st.log <= st'.log && forall i :: |st.log| <= i < |st'.log| ==> !st'.log[i].Interrupted?
    ensures LinkFor(st', t)
  {
    forall i | 0 <= i < |st'.log|
      ensures BusyIsMine(st'.log[i], t)
    {
      assert i < |st.log| ==> st'.log[i] == st.log[i] && BusyIsMine(st.log[i], t);
    }
  }

  lemma {:induction false} AfterInterruptLink(st: St, id: OpId, t: OpId)
    requires SlotInv(st) && LinkFor(st, t) && id in st.records && st.records[id].Owns()
    ensures LinkFor(AfterInterrupt(st, id), t)
  {
    SlotAt(st, id);
    var st2 := AfterInterrupt(st, id);
    forall i | 0 <= i < |st2.log|
      ensures BusyIsMine(st2.log[i], t)
    {
      assert i < |st.log| ==> BusyIsMine(st.log[i], t);
    }
  }

  lemma {:induction false} FinishLink(st: St, id: OpId, outcome: ExecState, now: Time, t: OpId)
    requires LinkFor(st, t)
    ensures LinkFor(Finish(st, id, outcome, now).0, t)
  {
    LinkKept(st, Finish(st, id, outcome, now).0, t);
  }

  lemma {:induction false} InterruptLink(st: St, id: OpId, kernel: KernelReply, now: Time, t: OpId)
    requires Inv(st) && LinkFor(st, t)
    ensures LinkFor(InterruptOwned(st, id, kernel, now).0, t)
  {
    assert SlotInv(st);
    hide LinkFor, Inv, SlotInv;
    InterruptOwnedIs(st, id, kernel, now);
    if id in st.records && st.records[id].Owns() {
      AfterInterruptLink(st, id, t);
      var st2 := AfterInterrupt(st, id);
      LinkKept(st2, AfterWait(st2, kernel.WentIdle?), t);
      FinishLink(AfterWait(st2, kernel.WentIdle?), id, OutcomeOf(st.records[id]), now, t);
    }
  }

  lemma {:induction false} RequestLink(st: St, id: OpId, outcome: ExecState, now: Time, t: OpId)
    requires LinkFor(st, t) && Terminal(outcome)
    ensures LinkFor(Request(st, id, outcome, now).0, t)
  {
    LinkKept(st, Request(st, id, outcome, now).0, t);
  }

  lemma {:induction false} ExpireLink(st: St, ids: seq<OpId>, now: Time, t: OpId)
    requires LinkFor(st, t)
    ensures LinkFor(ExpireAll(st, ids, now).0, t)
    decreases |ids|
  {
    hide LinkFor, Request;
    if ids != [] {
      ExpireLink(st, ids[..|ids| - 1], now, t);
      RequestLink(ExpireAll(st, ids[..|ids| - 1], now).0, ids[|ids| - 1], Timeout, now, t);
    }
  }

  lemma {:induction false} CancelLink(st: St, ids: seq<OpId>, now: Time, t: OpId)
    requires LinkFor(st, t)
    ensures LinkFor(CancelAll(st, ids, now).0, t)
    decreases |ids|
  {
    hide LinkFor, Finish;
    if ids != [] {
      CancelLink(st, ids[..|ids| - 1], now, t);
      FinishLink(CancelAll(st, ids[..|ids| - 1], now).0, ids[|ids| - 1], Cancelled, now, t);
    }
  }

  lemma {:induction false} ObserveLink(st: St, id: OpId, parent: MsgId, now: Time, t: OpId)
    requires LinkFor(st, t) && DeliveredFor(st, OpObserveBusyParent(id, parent), t)
    ensures LinkFor(ObserveBusyParent(st, id, parent, now).0, t)
  {
  }

  /** A queued operation has no parent, and it is only dispatched to an idle kernel. */
  lemma {:induction false} DispatchLink(st: St, id: OpId, msg: MsgId, now: Time, t: OpId)
    requires LinkFor(st, t)
    ensures LinkFor(Dispatch(st, id, msg, now).0, t)
  {
  }

  lemma {:induction false} DispatchNextLink(st: St, dispatch: Option<MsgId>, now: Time, t: OpId)
    requires LinkFor(st, t)
    ensures LinkFor(DispatchNext(st, dispatch, now).0, t)
  {
    hide LinkFor, Dispatch, Cleaned;
    var st1 := NextQueued(st).0;
    LinkKept(st, st1, t);
    if st1.queue != [] && dispatch.Some? {
      DispatchLink(st1, st1.queue[0], dispatch.value, now, t);
    }
  }

  lemma {:induction false} EnqueueLink(st: St, id: OpId, session: SessionId, timeout: Option<int>, now: Time, t: OpId)
    requires SlotInv(st) && LinkFor(st, t) && id !in st.records
    ensures LinkFor(Enqueue(st, id, session, timeout, now).0, t)
  {
  }

  lemma {:induction false} KernelLink(st: St, busy: Option<MsgId>, t: OpId)
    requires LinkFor(st, t) && st.active != Some(t)
    ensures LinkFor(st.(busy := busy), t)
  {
  }

  lemma {:induction false} CoordLink(st: St, op: Op, now: Time, t: OpId)
    requires Inv(st) && LinkFor(st, t) && DeliveredFor(st, op, t)
    requires op.OpCoordObserve? || op.OpCoordRequest?
    ensures LinkFor(Step(st, op, now).0, t)
  {
    hide LinkFor, Inv, Evolves, InterruptOwned;
    if op.OpCoordObserve? {
      ObserveInv(st, op.id, op.parent, now);
      ObserveLink(st, op.id, op.parent, now, t);
      InterruptLink(ObserveBusyParent(st, op.id, op.parent, now).0, op.id, op.kernel, now, t);
    } else {
      RequestInv(st, op.id, Wanted(op.timedOut), now);
      RequestLink(st, op.id, Wanted(op.timedOut), now, t);
      InterruptLink(Request(st, op.id, Wanted(op.timedOut), now).0, op.id, op.kernel, now, t);
    }
  }

  lemma {:induction false} StepLinkFor(st: St, op: Op, now: Time, t: OpId)
    requires Inv(st) && LinkFor(st, t) && FreshId(st, op) && DeliveredFor(st, op, t)
    ensures LinkFor(Step(st, op, now).0, t)
  {
    hide LinkFor, QueueInv, SlotInv, HistoryInv, LogInv;
    match op
    case OpEnqueue(id, session, timeout) => EnqueueLink(st, id, session, timeout, now, t);
    case OpNextQueued => LinkKept(st, NextQueued(st).0, t);
    case OpMarkCancelling(id) => LinkKept(st, MarkCancelling(st, id).0, t);
    case OpFinish(id, outcome) => FinishLink(st, id, outcome, now, t);
    case OpDispatch(id, msg) => DispatchLink(st, id, msg, now, t);
    case OpObserveBusyParent(id, parent) => ObserveLink(st, id, parent, now, t);
    case OpExpire => ExpireLink(st, st.order, now, t);
    case OpInvalidateSession(session) => CancelLink(st, LiveOf(st, st.order, session), now, t);
    case OpDispatchNext(dispatch) => DispatchNextLink(st, dispatch, now, t);
    case OpCoordObserve(id, parent, kernel) => CoordLink(st, op, now, t);
    case OpCoordRequest(id, timedOut, kernel) => CoordLink(st, op, now, t);
    case OpObserveKernelBusy(parent) => KernelLink(st, Some(parent), t);
    case OpObserveKernelIdle => KernelLink(st, None, t);
    case OpRequest(id, timedOut) => RequestLink(st, id, Wanted(timedOut), now, t);
  }

  lemma {:induction false} RunLinkFor(ops: Calls, t: OpId)
    requires FreshRun(ops) && DeliveredRunFor(ops, t)
    ensures LinkFor(Run(ops), t)
  {
    if ops != [] {
      var most := ops[..|ops| - 1];
      forall n | 0 <= n < |most|
        ensures DeliveredFor(Run(most[..n]), most[n].0, t)
      {
        assert most[..n] == ops[..n];
      }
      RunLinkFor(most, t);
      RunInv(most);
      assert DeliveredFor(Run(ops[..|ops| - 1]), ops[|ops| - 1].0, t);
      hide LinkFor, Inv, DeliveredFor, Step;
      StepLinkFor(Run(most), ops[|ops| - 1].0, ops[|ops| - 1].1, t);
    }
  }

  /**
    If the observations of the interrupted operation were delivered up to the interrupting call, then
    the interrupt meets the kernel while it runs the operation's own message, its last observed parent.
  */
  lemma {:induction false} InterruptHitsOwnMessage(ops: Calls, n: nat, i: nat)
    requires FreshRun(ops) && n < |ops| && WrittenBy(ops, n, i)
    requires i < |Run(ops).log| && Run(ops).log[i].Interrupted?
    requires DeliveredRunFor(ops[..n + 1], Run(ops).log[i].id)
    ensures var e := Run(ops).log[i]; e.busy.Some? && e.busy == e.msg == e.parent
  {
    CallAt(ops, n);
    RunLinkFor(ops[..n + 1], Run(ops).log[i].id);
    RunInv(ops);
    assert BusyIsMine(Run(ops[..n + 1]).log[i], Run(ops).log[i].id) && OwnedInterrupt(Run(ops).log[i]);
  }

  /******* The exact message an interrupt hits *******/

  /** The parent that the kernel was last seen busy with, None after it was seen idle. */
  ghost function Seen(op: Op, before: Option<MsgId>): Option<MsgId> {
    match op
    case OpObserveBusyParent(_, parent) => Some(parent)
    case OpCoordObserve(_, parent, _) => Some(parent)
    case OpObserveKernelBusy(parent) => Some(parent)
    case OpObserveKernelIdle => None
    case _ => before
  }

  ghost function LastSeen(ops: Calls): Option<MsgId> {
    if ops == [] then None else Seen(ops[|ops| - 1].0, LastSeen(ops[..|ops| - 1]))
  }

  lemma {:induction false} ExpireBusy(st: St, ids: seq<OpId>, now: Time)
    ensures ExpireAll(st, ids, now).0.busy == st.busy
    decreases |ids|
  {
    if ids != [] {
      ExpireBusy(st, ids[..|ids| - 1], now);
    }
  }

  lemma {:induction false} CancelBusy(st: St, ids: seq<OpId>, now: Time)
    ensures CancelAll(st, ids, now).0.busy == st.busy
    decreases |ids|
  {
    if ids != [] {
      CancelBusy(st, ids[..|ids| - 1], now);
    }
  }

  lemma {:induction false} InterruptKeepsBusy(st: St, id: OpId, kernel: KernelReply, now: Time)
    ensures InterruptOwned(st, id, kernel, now).0.busy == st.busy
  {
  }

  lemma {:induction false} StepBusy(st: St, op: Op, now: Time)
    ensures Step(st, op, now).0.busy == Seen(op, st.busy)
  {
    hide InterruptOwned, ExpireAll, CancelAll, LiveOf, Cleaned;
    match op
    case OpExpire => ExpireBusy(st, st.order, now);
    case OpInvalidateSession(session) => CancelBusy(st, LiveOf(st, st.order, session), now);
    case OpCoordObserve(id, parent, kernel) =>
      InterruptKeepsBusy(ObserveBusyParent(st, id, parent, now).0, id, kernel, now);
    case OpCoordRequest(id, timedOut, kernel) =>
      InterruptKeepsBusy(Request(st, id, Wanted(timedOut), now).0, id, kernel, now);
    case _ =>
  }

  lemma {:induction false} BusyIsLastSeen(ops: Calls)
    ensures Run(ops).busy == LastSeen(ops)
  {
    if ops != [] {
      BusyIsLastSeen(ops[..|ops| - 1]);
      StepBusy(Run(ops[..|ops| - 1]), ops[|ops| - 1].0, ops[|ops| - 1].1);
    }
  }

  /** Every interrupt after `log` was issued with this busy parent. */
  ghost predicate BusyAfter(log: seq<Event>, log': seq<Event>, busy: Option<MsgId>) {
    log <= log' && forall i :: |log| <= i < |log'| && log'[i].Interrupted? ==> log'[i].busy == busy
  }

  lemma {:induction false} InterruptBusy(st: St, id: OpId, kernel: KernelReply, now: Time)
    ensures BusyAfter(st.log, InterruptOwned(st, id, kernel, now).0.log, st.busy)
  {
    InterruptOwnedIs(st, id, kernel, now);
  }

  lemma {:induction false} StepInterruptBusy(st: St, op: Op, now: Time)
    ensures BusyAfter(st.log, Step(st, op, now).0.log, Seen(op, st.busy))
  {
    if op.OpCoordObserve? {
      InterruptBusy(ObserveBusyParent(st, op.id, op.parent, now).0, op.id, op.kernel, now);
    } else if op.OpCoordRequest? {
      RequestIsQuiet(st, op.id, Wanted(op.timedOut), now);
      InterruptBusy(Request(st, op.id, Wanted(op.timedOut), now).0, op.id, op.kernel, now);
    } else {
      BrokerCallIsQuiet(st, op, now);
    }
  }

  /**
    In every run, an interrupt hits the operation's own message exactly if that message is what the
    kernel was last seen busy with, counting the observation of the interrupting call itself.
  */
  lemma {:induction false} InterruptHitsExactly(ops: Calls, n: nat, i: nat)
    requires FreshRun(ops) && n < |ops| && WrittenBy(ops, n, i)
    requires i < |Run(ops).log| && Run(ops).log[i].Interrupted?
    ensures var e := Run(ops).log[i];
            && e.busy == LastSeen(ops[..n + 1])
            && (e.busy == e.msg <==> LastSeen(ops[..n + 1]) == e.msg)
  {
    CallAt(ops, n);
    StepInterruptBusy(Run(ops[..n]), ops[n].0, ops[n].1);
    BusyIsLastSeen(ops[..n]);
    assert ops[..n + 1][..n] == ops[..n];
  }

  /** Delivery is needed: an observation that bypasses the operation in flight lets an interrupt hit another message. */
  lemma {:induction false} UndeliveredInterruptHitsOther() returns (ops: Calls)
    ensures FreshRun(ops) && |Run(ops).log| == 2 && Run(ops).log[1].Interrupted?
    ensures Run(ops).log[1].msg == Some("agent") && Run(ops).log[1].busy == Some("browser")
  {
    hide Run, FreshRun;
    ops := RunningRun();
    RunSnoc(ops, OpObserveKernelBusy("browser"), 0);
    ops := ops + [(OpObserveKernelBusy("browser"), 0)];
    RaisingCancel(Run(ops), 0, 0);
    RunSnoc(ops, OpCoordRequest(0, false, InterruptRaised), 0);
    ops := ops + [(OpCoordRequest(0, false, InterruptRaised), 0)];
  }
}
