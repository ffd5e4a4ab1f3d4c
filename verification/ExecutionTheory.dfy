/** What every run of the execution broker and coordinator keeps. */
module ExecutionTheory {
  import opened Options
  import opened ExecutionSpec

  /******* Restricting an order to a set *******/

  ghost function Select(ids: seq<OpId>, keep: set<OpId>): seq<OpId> {
    if ids == [] then []
    else
      var rest := Select(ids[..|ids| - 1], keep);
      if ids[|ids| - 1] in keep then rest + [ids[|ids| - 1]] else rest
  }

  ghost predicate NoDup(ids: seq<OpId>) {
    forall i, j :: 0 <= i < j < |ids| ==> ids[i] != ids[j]
  }

  lemma {:induction false} SelectSplit(a: seq<OpId>, b: seq<OpId>, keep: set<OpId>)
    ensures Select(a + b, keep) == Select(a, keep) + Select(b, keep)
  {
    if b == [] {
      assert a + b == a;
    } else {
      SelectSplit(a, b[..|b| - 1], keep);
      assert (a + b)[..|a + b| - 1] == a + b[..|b| - 1];
    }
  }

  lemma {:induction false} SelectAgrees(ids: seq<OpId>, keep: set<OpId>, keep': set<OpId>)
    requires forall id :: id in ids ==> (id in keep <==> id in keep')
    ensures Select(ids, keep) == Select(ids, keep')
  {
    if ids != [] {
      SelectAgrees(ids[..|ids| - 1], keep, keep');
    }
  }

  lemma {:induction false} SelectNone(ids: seq<OpId>, keep: set<OpId>)
    requires forall id :: id in ids ==> id !in keep
    ensures Select(ids, keep) == []
  {
    if ids != [] {
      SelectNone(ids[..|ids| - 1], keep);
    }
  }

  /** Admitting one more element, after which nothing is kept, appends it. */
  lemma {:induction false} SelectAdmit(ids: seq<OpId>, k: nat, keep: set<OpId>)
    requires k < |ids| && NoDup(ids)
    requires forall i :: k <= i < |ids| ==> ids[i] !in keep
    ensures Select(ids, keep + {ids[k]}) == Select(ids, keep) + [ids[k]]
  {
    var more := keep + {ids[k]};
    assert ids == ids[..k] + ([ids[k]] + ids[k + 1..]);
    SelectSplit(ids[..k], [ids[k]] + ids[k + 1..], keep);
    SelectSplit(ids[..k], [ids[k]] + ids[k + 1..], more);
    SelectSplit([ids[k]], ids[k + 1..], more);
    SelectAgrees(ids[..k], keep, more);
    SelectNone([ids[k]] + ids[k + 1..], keep);
    SelectNone(ids[k + 1..], more);
    assert Select([ids[k]], more) == [ids[k]] by { assert [ids[k]][..0] == []; }
  }

  ghost function QueuedIds(st: St): set<OpId> {
    set id | id in st.records && st.records[id].state.Queued?
  }

  ghost function DispatchedIds(st: St): set<OpId> {
    set id | id in st.records && st.records[id].msg.Some?
  }

  /******* The invariant *******/

  ghost function Elems(ids: seq<OpId>): set<OpId> {
    set id | id in ids
  }

  /**
    The lazily cleaned queue: it is a suffix of the enqueue order, nothing queued has left it,
    nothing in it was ever dispatched, and the dispatches follow the enqueue order.
  */
  ghost predicate LazyQueue(order: seq<OpId>, queue: seq<OpId>, dispatched: seq<OpId>,
                            queued: set<OpId>, ever: set<OpId>)
  {
    && NoDup(order)
    && |queue| <= |order|
    && queue == order[|order| - |queue|..]
    && (forall i :: 0 <= i < |order| - |queue| ==> order[i] !in queued)
    && (forall i :: |order| - |queue| <= i < |order| ==> order[i] !in ever)
    && dispatched == Select(order, ever)
  }

  ghost predicate QueueInv(st: St) {
    && st.records.Keys == Elems(st.order)
    && LazyQueue(st.order, st.queue, st.dispatched, QueuedIds(st), DispatchedIds(st))
  }

  ghost predicate SlotRec(r: Rec, active: bool) {
    && (InFlight(r.state) <==> active)
    && (active ==> r.msg.Some? && r.msg.value != "")
    && (r.msg.Some? <==> r.dispatchedAt.Some?)
    && (r.state.CancelPending? ==> r.requested.Some?)
    && (r.requested.Some? ==> Terminal(r.requested.value))
  }

  /** The operations in flight are exactly the active slot. */
  ghost predicate SlotInv(st: St) {
    && (st.active.Some? ==> st.active.value in st.records)
    && (forall id :: id in st.records ==> SlotRec(st.records[id], st.active == Some(id)))
  }

  ghost function LastRequested(log: seq<Event>, id: OpId): Option<ExecState> {
    if log == [] then None
    else
      var e := log[|log| - 1];
      if e.Requested? && e.id == id then Some(e.outcome) else LastRequested(log[..|log| - 1], id)
  }

  ghost function LastFinished(log: seq<Event>, id: OpId): Option<ExecState> {
    if log == [] then None
    else
      var e := log[|log| - 1];
      if e.Finished? && e.id == id then Some(e.outcome) else LastFinished(log[..|log| - 1], id)
  }

  ghost predicate RecMatches(r: Rec, requested: Option<ExecState>, finished: Option<ExecState>) {
    && r.requested == requested
    && (finished.Some? ==> Terminal(r.state) && r.state == finished.value)
  }

  ghost predicate Names(e: Event, id: OpId) {
    (e.Requested? || e.Finished? || e.Interrupted?) && e.id == id
  }

  /** The records agree with the history of requests and finishes. */
  ghost predicate HistoryInv(st: St) {
    && (forall id :: id in st.records ==>
          RecMatches(st.records[id], LastRequested(st.log, id), LastFinished(st.log, id)))
    && (forall i, id :: 0 <= i < |st.log| && Names(st.log[i], id) ==> id in st.records)
  }

  /** An interrupt names the operation in the active slot, with its message as its last parent. */
  ghost predicate OwnedInterrupt(e: Event) {
    e.Interrupted? ==> e.msg.Some? && e.msg.value != "" && e.msg == e.parent && e.active == Some(e.id)
  }

  /** A restart directly follows a wait that did not go idle, and that follows an interrupt. */
  ghost predicate Justified(log: seq<Event>, i: int)
    requires 0 <= i < |log|
  {
    && (log[i].Waited? ==> 1 <= i && log[i - 1].Interrupted?)
    && (log[i].Restarted? ==> 1 <= i && log[i - 1] == Waited(false))
  }

  /** No operation is interrupted after it was finished. */
  ghost predicate NoneAfterFinish(log: seq<Event>) {
    forall i, j :: 0 <= i < j < |log| && log[i].Finished? && log[j].Interrupted? ==> log[i].id != log[j].id
  }

  ghost predicate LogInv(log: seq<Event>) {
    && (forall i :: 0 <= i < |log| ==> OwnedInterrupt(log[i]))
    && (forall i :: 0 <= i < |log| ==> Justified(log, i))
    && NoneAfterFinish(log)
  }

  ghost predicate Inv(st: St) {
    QueueInv(st) && SlotInv(st) && HistoryInv(st) && LogInv(st.log)
  }

  /** What a call may do to a record that already exists. */
  ghost predicate RecEvolves(r: Rec, r': Rec) {
    && (Terminal(r.state) ==> Terminal(r'.state))
    && (r'.state.Queued? ==> r.state.Queued?)
    && (r.msg.Some? ==> r'.msg == r.msg)
    && (r.dispatchedAt.Some? ==> r'.dispatchedAt == r.dispatchedAt)
    && r'.session == r.session && r'.queuedAt == r.queuedAt && r'.deadlineAt == r.deadlineAt
  }

  ghost predicate Evolves(st: St, st': St) {
    && st.order <= st'.order
    && st.log <= st'.log
    && st.dispatched <= st'.dispatched
    && (forall id :: id in st.records ==> id in st'.records && RecEvolves(st.records[id], st'.records[id]))
  }

  lemma {:induction false} EvolvesReflexive(a: St)
    ensures Evolves(a, a)
  {
  }

  lemma {:induction false} EvolvesTransitive(a: St, b: St, c: St)
    requires Evolves(a, b) && Evolves(b, c)
    ensures Evolves(a, c)
  {
    forall id | id in a.records
      ensures id in c.records && RecEvolves(a.records[id], c.records[id])
    {
      assert id in b.records && RecEvolves(a.records[id], b.records[id]);
    }
  }

  /******* The history of requests and finishes *******/

  lemma {:induction false} FinishedIsLogged(log: seq<Event>, i: nat)
    requires i < |log| && log[i].Finished?
    ensures LastFinished(log, log[i].id).Some?
  {
    if i < |log| - 1 {
      FinishedIsLogged(log[..|log| - 1], i);
    }
  }

  lemma {:induction false} LogPush(log: seq<Event>, e: Event, id: OpId)
    ensures LastRequested(log + [e], id) ==
            if e.Requested? && e.id == id then Some(e.outcome) else LastRequested(log, id)
    ensures LastFinished(log + [e], id) ==
            if e.Finished? && e.id == id then Some(e.outcome) else LastFinished(log, id)
  {
    assert (log + [e])[..|log + [e]| - 1] == log;
  }

  lemma {:induction false} Unlogged(log: seq<Event>, id: OpId)
    requires forall i :: 0 <= i < |log| ==> !Names(log[i], id)
    ensures LastRequested(log, id) == None && LastFinished(log, id) == None
  {
    if log != [] {
      assert !Names(log[|log| - 1], id);
      Unlogged(log[..|log| - 1], id);
    }
  }

  /** Appending an event, together with at most one changed record, keeps the history matched. */
  lemma {:induction false} HistoryPush(st: St, id: OpId, r: Rec, e: Event)
    requires HistoryInv(st) && id in st.records
    requires forall other :: Names(e, other) ==> other == id
    requires RecMatches(r, if e.Requested? then Some(e.outcome) else st.records[id].requested,
                        if e.Finished? then Some(e.outcome) else LastFinished(st.log, id))
    ensures HistoryInv(Log(Put(st, id, r), e))
  {
    var st' := Log(Put(st, id, r), e);
    assert e.Requested? || e.Finished? ==> Names(e, e.id);
    forall other | other in st'.records
      ensures RecMatches(st'.records[other], LastRequested(st'.log, other), LastFinished(st'.log, other))
    {
      LogPush(st.log, e, other);
      assert RecMatches(st.records[other], LastRequested(st.log, other), LastFinished(st.log, other));
    }
    forall i, other | 0 <= i < |st'.log| && Names(st'.log[i], other)
      ensures other in st'.records
    {
      assert i < |st.log| ==> st'.log[i] == st.log[i];
    }
  }

  /** Appending an event to a well-formed log. */
  lemma {:induction false} LogInvPush(log: seq<Event>, e: Event)
    requires LogInv(log) && OwnedInterrupt(e) && Justified(log + [e], |log|)
    requires e.Interrupted? ==> LastFinished(log, e.id) == None
    ensures LogInv(log + [e])
  {
    var log' := log + [e];
    forall i | 0 <= i < |log'|
      ensures OwnedInterrupt(log'[i]) && Justified(log', i)
    {
      if i < |log| {
        assert OwnedInterrupt(log[i]) && Justified(log, i);
      }
    }
    forall i, j | 0 <= i < j < |log'| && log'[i].Finished? && log'[j].Interrupted?
      ensures log'[i].id != log'[j].id
    {
      FinishedIsLogged(log, i);
    }
  }

  /******* Single calls keep the invariant *******/

  /** One record changes, and with it perhaps the slot. */
  lemma {:induction false} SlotChange(st: St, st': St, id: OpId)
    requires SlotInv(st) && id in st'.records
    requires st'.records == st.records[id := st'.records[id]]
    requires SlotRec(st'.records[id], st'.active == Some(id))
    requires forall other :: other != id ==> (st'.active == Some(other) <==> st.active == Some(other))
    ensures SlotInv(st')
  {
    forall other | other in st'.records
      ensures SlotRec(st'.records[other], st'.active == Some(other))
    {
      if other != id {
        assert SlotRec(st.records[other], st.active == Some(other));
      }
    }
  }

  /** A record changes without any event, as the history allows. */
  lemma {:induction false} HistoryChange(st: St, st': St, id: OpId)
    requires HistoryInv(st) && id in st'.records
    requires st'.records == st.records[id := st'.records[id]] && st'.log == st.log
    requires RecMatches(st'.records[id], LastRequested(st.log, id), LastFinished(st.log, id))
    ensures HistoryInv(st')
  {
    forall other | other in st'.records
      ensures RecMatches(st'.records[other], LastRequested(st.log, other), LastFinished(st.log, other))
    {
      if other != id {
        assert RecMatches(st.records[other], LastRequested(st.log, other), LastFinished(st.log, other));
      }
    }
    forall i, other | 0 <= i < |st'.log| && Names(st'.log[i], other)
      ensures other in st'.records
    {
    }
  }

  lemma {:induction false} SlotAt(st: St, id: OpId)
    requires SlotInv(st) && id in st.records
    ensures SlotRec(st.records[id], st.active == Some(id))
  {
  }

  lemma {:induction false} MatchesAt(st: St, id: OpId)
    requires HistoryInv(st) && id in st.records
    ensures RecMatches(st.records[id], LastRequested(st.log, id), LastFinished(st.log, id))
  {
  }

  /** Fewer queued operations keep the queue's invariant. */
  lemma {:induction false} QueueKept(st: St, st': St)
    requires QueueInv(st)
    requires st'.order == st.order && st'.queue == st.queue && st'.dispatched == st.dispatched
    requires st'.records.Keys == st.records.Keys
    requires forall id :: id in st.records ==>
               st'.records[id].msg == st.records[id].msg && (st'.records[id].state.Queued? ==> st.records[id].state.Queued?)
    ensures QueueInv(st')
  {
    assert DispatchedIds(st') == DispatchedIds(st);
    assert QueuedIds(st') <= QueuedIds(st);
  }

  lemma {:induction false} InitInv()
    ensures Inv(Init)
  {
    assert DispatchedIds(Init) == {};
    assert Init.records.Keys == Elems(Init.order);
  }

  lemma {:induction false} LazyQueuePush(order: seq<OpId>, queue: seq<OpId>, dispatched: seq<OpId>,
                                         queued: set<OpId>, queued': set<OpId>, ever: set<OpId>, id: OpId)
    requires LazyQueue(order, queue, dispatched, queued, ever)
    requires id !in order && id !in ever && queued' <= queued + {id}
    ensures LazyQueue(order + [id], queue + [id], dispatched, queued', ever)
  {
    assert (order + [id])[..|order|] == order;
  }

  lemma {:induction false} EnqueueQueue(st: St, st': St, id: OpId)
    requires QueueInv(st) && id !in st.records
    requires st'.records.Keys == st.records.Keys + {id}
    requires forall other :: other in st.records ==> st'.records[other] == st.records[other]
    requires st'.records[id].msg.None?
    requires st'.order == st.order + [id] && st'.queue == st.queue + [id] && st'.dispatched == st.dispatched
    ensures QueueInv(st')
  {
    assert Elems(st'.order) == Elems(st.order) + {id};
    assert id !in Elems(st.order);
    assert DispatchedIds(st') == DispatchedIds(st);
    assert QueuedIds(st') <= QueuedIds(st) + {id};
    LazyQueuePush(st.order, st.queue, st.dispatched, QueuedIds(st), QueuedIds(st'), DispatchedIds(st), id);
  }

  /** A new queued record is in nobody's slot and nobody's history. */
  lemma {:induction false} NewRecord(st: St, st': St, id: OpId)
    requires SlotInv(st) && HistoryInv(st) && id !in st.records && id in st'.records
    requires st'.records == st.records[id := st'.records[id]] && st'.active == st.active && st'.log == st.log
    requires var r := st'.records[id];
             r.state.Queued? && r.msg.None? && r.dispatchedAt.None? && r.requested.None?
    ensures SlotInv(st') && HistoryInv(st')
  {
    SlotChange(st, st', id);
    Unlogged(st.log, id);
    HistoryChange(st, st', id);
  }

  lemma {:induction false} NewRecordEvolves(st: St, st': St, id: OpId)
    requires id !in st.records && id in st'.records
    requires st'.records == st.records[id := st'.records[id]] && st'.log == st.log && st'.dispatched == st.dispatched
    requires st.order <= st'.order
    ensures Evolves(st, st')
  {
  }

  lemma {:induction false} EnqueueInv(st: St, id: OpId, session: SessionId, timeout: Option<int>, now: Time)
    requires Inv(st) && id !in st.records
    ensures var st' := Enqueue(st, id, session, timeout, now).0; Inv(st') && Evolves(st, st')
  {
    hide QueueInv, SlotInv, HistoryInv, LogInv, Evolves;
    var (st', reply) := Enqueue(st, id, session, timeout, now);
    if reply.Record? {
      EnqueueQueue(st, st', id);
      NewRecord(st, st', id);
      NewRecordEvolves(st, st', id);
    } else {
      EvolvesReflexive(st);
    }
  }

  /** Cleaning drops a prefix that holds no queued operation. */
  lemma {:induction false} CleanedIsSuffix(st: St, q: seq<OpId>)
    ensures |Cleaned(st, q)| <= |q|
    ensures Cleaned(st, q) == q[|q| - |Cleaned(st, q)|..]
    ensures forall i :: 0 <= i < |q| - |Cleaned(st, q)| ==> !IsQueued(st, q[i])
    ensures Cleaned(st, q) != [] ==> IsQueued(st, Cleaned(st, q)[0])
  {
    if q != [] && !IsQueued(st, q[0]) {
      CleanedIsSuffix(st, q[1..]);
      var n := |q| - |Cleaned(st, q)|;
      forall i | 0 <= i < n
        ensures !IsQueued(st, q[i])
      {
        if i > 0 {
          assert q[i] == q[1..][i - 1];
        }
      }
    }
  }

  lemma {:induction false} NextQueuedQueue(st: St)
    requires QueueInv(st)
    ensures QueueInv(st.(queue := Cleaned(st, st.queue)))
  {
    hide Select, Cleaned;
    var st' := st.(queue := Cleaned(st, st.queue));
    CleanedIsSuffix(st, st.queue);
    assert st'.queue == st'.order[|st'.order| - |st'.queue|..];
    assert DispatchedIds(st') == DispatchedIds(st) && QueuedIds(st') == QueuedIds(st);
    var gone := |st.order| - |st.queue|;
    forall i | 0 <= i < |st'.order| - |st'.queue|
      ensures st'.order[i] !in QueuedIds(st')
    {
      if i >= gone {
        assert st.order[i] == st.queue[i - gone];
        assert !IsQueued(st, st.queue[i - gone]);
      }
    }
  }

  lemma {:induction false} NextQueuedInv(st: St)
    requires Inv(st)
    ensures var st' := NextQueued(st).0; Inv(st') && Evolves(st, st')
  {
    hide QueueInv, SlotInv, HistoryInv, LogInv, Evolves, Cleaned;
    NextQueuedQueue(st);
    EvolvesReflexive(st);
    var st' := st.(queue := Cleaned(st, st.queue));
    SameSlot(st, st');
    SameHistory(st, st');
    SameEvolves(st, st');
  }

  lemma {:induction false} SameSlot(st: St, st': St)
    requires SlotInv(st) && st'.records == st.records && st'.active == st.active
    ensures SlotInv(st')
  {
  }

  lemma {:induction false} SameEvolves(st: St, st': St)
    requires st' == st.(queue := st'.queue)
    ensures Evolves(st, st')
  {
  }

  /** A queued operation is in the queue and was never dispatched. */
  lemma {:induction false} QueuedInQueue(st: St, id: OpId) returns (i: nat)
    requires QueueInv(st) && IsQueued(st, id)
    ensures i < |st.queue| && st.queue[i] == id
    ensures st.order[|st.order| - |st.queue| + i] == id
    ensures st.records[id].msg.None?
  {
    assert id in Elems(st.order);
    var k :| 0 <= k < |st.order| && st.order[k] == id;
    assert st.order[k] !in DispatchedIds(st);
    assert st.order[k] in QueuedIds(st);
    i := k - (|st.order| - |st.queue|);
  }

  lemma {:induction false} DispatchQueue(st: St, st': St, id: OpId)
    requires QueueInv(st) && IsQueued(st, id)
    requires st.queue != [] && st.queue[0] == id
    requires st'.records.Keys == st.records.Keys
    requires forall other :: other in st.records && other != id ==> st'.records[other] == st.records[other]
    requires st'.records[id].msg.Some? && !st'.records[id].state.Queued?
    requires st'.order == st.order && st'.queue == st.queue[1..] && st'.dispatched == st.dispatched + [id]
    ensures QueueInv(st')
  {
    hide Select;
    var gone := |st.order| - |st.queue|;
    assert st.order[gone] == id;
    assert DispatchedIds(st') == DispatchedIds(st) + {id};
    assert QueuedIds(st') == QueuedIds(st) - {id};
    SelectAdmit(st.order, gone, DispatchedIds(st));
    assert st'.queue == st'.order[gone + 1..];
  }

  lemma {:induction false} DispatchInv(st: St, id: OpId, msg: MsgId, now: Time)
    requires Inv(st)
    ensures var st' := Dispatch(st, id, msg, now).0; Inv(st') && Evolves(st, st')
  {
    hide QueueInv, SlotInv, HistoryInv, LogInv;
    var (st', reply) := Dispatch(st, id, msg, now);
    if reply.Record? {
      var _ := QueuedInQueue(st, id);
      DispatchQueue(st, st', id);
      SlotAt(st, id);
      SlotChange(st, st', id);
      MatchesAt(st, id);
      HistoryChange(st, st', id);
    }
  }

  lemma {:induction false} ObserveInv(st: St, id: OpId, parent: MsgId, now: Time)
    requires Inv(st)
    ensures var st' := ObserveBusyParent(st, id, parent, now).0; Inv(st') && Evolves(st, st')
  {
    hide QueueInv, SlotInv, HistoryInv, LogInv;
    var st' := ObserveBusyParent(st, id, parent, now).0;
    QueueKept(st, st');
    if id in st.records {
      SlotAt(st, id);
      SlotChange(st, st', id);
      MatchesAt(st, id);
      HistoryChange(st, st', id);
    } else {
      BusyInv(st, Some(parent));
      assert st' == st.(busy := Some(parent));
    }
  }

  lemma {:induction false} BusyInv(st: St, busy: Option<MsgId>)
    requires Inv(st)
    ensures var st' := st.(busy := busy); Inv(st') && Evolves(st, st')
  {
    QueueKept(st, st.(busy := busy));
  }

  lemma {:induction false} RequestInv(st: St, id: OpId, outcome: ExecState, now: Time)
    requires Inv(st) && Terminal(outcome)
    ensures var st' := Request(st, id, outcome, now).0; Inv(st') && Evolves(st, st')
  {
    hide QueueInv, SlotInv, HistoryInv, LogInv;
    var (st', reply) := Request(st, id, outcome, now);
    if reply.Record? && !Terminal(st.records[id].state) {
      QueueKept(st, st');
      SlotAt(st, id);
      SlotChange(st, st', id);
      MatchesAt(st, id);
      HistoryPush(st, id, reply.r, Requested(id, outcome));
      LogInvPush(st.log, Requested(id, outcome));
    }
  }

  lemma {:induction false} MarkInv(st: St, id: OpId)
    requires Inv(st)
    ensures var st' := MarkCancelling(st, id).0; Inv(st') && Evolves(st, st')
  {
    hide QueueInv, SlotInv, HistoryInv, LogInv;
    var (st', reply) := MarkCancelling(st, id);
    if reply.Record? {
      QueueKept(st, st');
      SlotAt(st, id);
      SlotChange(st, st', id);
      MatchesAt(st, id);
      HistoryChange(st, st', id);
    }
  }

  lemma {:induction false} SameHistory(st: St, st': St)
    requires HistoryInv(st) && st'.records == st.records && st'.log == st.log
    ensures HistoryInv(st')
  {
  }

  lemma {:induction false} FinishInv(st: St, id: OpId, outcome: ExecState, now: Time)
    requires Inv(st)
    ensures var st' := Finish(st, id, outcome, now).0; Inv(st') && Evolves(st, st')
  {
    hide QueueInv, SlotInv, HistoryInv, LogInv;
    var (st', reply) := Finish(st, id, outcome, now);
    if reply.Record? {
      QueueKept(st, st');
      SlotAt(st, id);
      SlotChange(st, st', id);
      MatchesAt(st, id);
      HistoryPush(st, id, reply.r, Finished(id, outcome));
      SameHistory(Log(Put(st, id, reply.r), Finished(id, outcome)), st');
      LogInvPush(st.log, Finished(id, outcome));
    }
  }

  lemma {:induction false} ExpireInv(st: St, ids: seq<OpId>, now: Time)
    requires Inv(st)
    ensures var st' := ExpireAll(st, ids, now).0; Inv(st') && Evolves(st, st')
    decreases |ids|
  {
    if ids != [] {
      ExpireInv(st, ids[..|ids| - 1], now);
      var st1 := ExpireAll(st, ids[..|ids| - 1], now).0;
      RequestInv(st1, ids[|ids| - 1], Timeout, now);
      EvolvesTransitive(st, st1, Request(st1, ids[|ids| - 1], Timeout, now).0);
    }
  }

  lemma {:induction false} CancelAllInv(st: St, ids: seq<OpId>, now: Time)
    requires Inv(st)
    ensures var st' := CancelAll(st, ids, now).0; Inv(st') && Evolves(st, st')
    decreases |ids|
  {
    if ids != [] {
      CancelAllInv(st, ids[..|ids| - 1], now);
      var st1 := CancelAll(st, ids[..|ids| - 1], now).0;
      FinishInv(st1, ids[|ids| - 1], Cancelled, now);
      EvolvesTransitive(st, st1, Finish(st1, ids[|ids| - 1], Cancelled, now).0);
    }
  }

  /** Logging one kernel event, with no record changed. */
  lemma {:induction false} LogEventInv(st: St, id: OpId, e: Event)
    requires Inv(st) && id in st.records
    requires e.Waited? || e.Restarted? || (e.Interrupted? && e.id == id)
    requires OwnedInterrupt(e) && Justified(st.log + [e], |st.log|)
    requires e.Interrupted? ==> LastFinished(st.log, id) == None
    ensures Inv(Log(st, e)) && Evolves(st, Log(st, e))
  {
    QueueKept(st, Log(st, e));
    assert RecMatches(st.records[id], LastRequested(st.log, id), LastFinished(st.log, id));
    HistoryPush(st, id, st.records[id], e);
    assert Put(st, id, st.records[id]) == st by { assert st.records[id := st.records[id]] == st.records; }
    LogInvPush(st.log, e);
  }

  /** The state right after kernel.interrupt(). */
  ghost function AfterInterrupt(st: St, id: OpId): St
    requires id in st.records
  {
    var st1 := MarkCancelling(st, id).0;
    Log(st1, Interrupted(id, st.records[id].msg, st.records[id].parent, st.active, st.busy))
  }

  lemma {:induction false} AfterInterruptInv(st: St, id: OpId)
    requires Inv(st) && id in st.records && st.records[id].Owns()
    ensures var st2 := AfterInterrupt(st, id); Inv(st2) && Evolves(st, st2)
  {
    MarkInv(st, id);
    assert SlotRec(st.records[id], st.active == Some(id));
    assert RecMatches(st.records[id], LastRequested(st.log, id), LastFinished(st.log, id));
    var st1 := MarkCancelling(st, id).0;
    LogEventInv(st1, id, Interrupted(id, st.records[id].msg, st.records[id].parent, st.active, st.busy));
    EvolvesTransitive(st, st1, AfterInterrupt(st, id));
  }

  /** The state right after the wait, and after the restart when the kernel did not go idle. */
  ghost function AfterWait(st: St, idle: bool): St {
    if idle then Log(st, Waited(true)) else Log(Log(st, Waited(false)), Restarted)
  }

  lemma {:induction false} AfterWaitInv(st: St, id: OpId, idle: bool)
    requires Inv(st) && id in st.records && |st.log| > 0 && st.log[|st.log| - 1].Interrupted?
    ensures Inv(AfterWait(st, idle)) && Evolves(st, AfterWait(st, idle))
  {
    LogEventInv(st, id, Waited(idle));
    if !idle {
      var st1 := Log(st, Waited(false));
      LogEventInv(st1, id, Restarted);
      EvolvesTransitive(st, st1, Log(st1, Restarted));
    }
  }

  ghost function OutcomeOf(r: Rec): ExecState {
    if r.requested.Some? then r.requested.value else Cancelled
  }

  /** The interrupt as a sequence of its three phases. */
  lemma {:induction false} InterruptOwnedIs(st: St, id: OpId, kernel: KernelReply, now: Time)
    ensures InterruptOwned(st, id, kernel, now).0 ==
            if id !in st.records || !st.records[id].Owns() then st
            else
              var st2 := AfterInterrupt(st, id);
              if kernel.InterruptRaised? || kernel.NoWait? then st2
              else if kernel.RestartRaised? then AfterWait(st2, false)
              else Finish(AfterWait(st2, kernel.WentIdle?), id, OutcomeOf(st.records[id]), now).0
  {
  }

  lemma {:induction false} InterruptOwnedInv(st: St, id: OpId, kernel: KernelReply, now: Time)
    requires Inv(st)
    ensures var st' := InterruptOwned(st, id, kernel, now).0; Inv(st') && Evolves(st, st')
  {
    hide Inv, Evolves, InterruptOwned;
    EvolvesReflexive(st);
    if id in st.records && st.records[id].Owns() {
      AfterInterruptInv(st, id);
      var st2 := AfterInterrupt(st, id);
      if !kernel.InterruptRaised? && !kernel.NoWait? {
        AfterWaitInv(st2, id, kernel.WentIdle?);
        var st3 := AfterWait(st2, kernel.WentIdle?);
        EvolvesTransitive(st, st2, st3);
        if !kernel.RestartRaised? {
          FinishInv(st3, id, OutcomeOf(st.records[id]), now);
          EvolvesTransitive(st, st3, Finish(st3, id, OutcomeOf(st.records[id]), now).0);
        }
      }
    }
    InterruptOwnedIs(st, id, kernel, now);
  }

  lemma {:induction false} DispatchNextInv(st: St, dispatch: Option<MsgId>, now: Time)
    requires Inv(st)
    ensures var st' := DispatchNext(st, dispatch, now).0; Inv(st') && Evolves(st, st')
  {
    hide Inv, Evolves;
    NextQueuedInv(st);
    var st1 := NextQueued(st).0;
    if NextQueued(st).1.Record? && st1.queue != [] && dispatch.Some? {
      var st2 := Dispatch(st1, st1.queue[0], dispatch.value, now).0;
      DispatchInv(st1, st1.queue[0], dispatch.value, now);
      EvolvesTransitive(st, st1, st2);
      assert DispatchNext(st, dispatch, now).0 == st2;
    } else {
      assert DispatchNext(st, dispatch, now).0 == st1;
    }
  }

  lemma {:induction false} CoordObserveInv(st: St, id: OpId, parent: MsgId, kernel: KernelReply, now: Time)
    requires Inv(st)
    ensures var st' := CoordObserve(st, id, parent, kernel, now).0; Inv(st') && Evolves(st, st')
  {
    hide Inv, Evolves;
    ObserveInv(st, id, parent, now);
    var st1 := ObserveBusyParent(st, id, parent, now).0;
    InterruptOwnedInv(st1, id, kernel, now);
    EvolvesTransitive(st, st1, InterruptOwned(st1, id, kernel, now).0);
  }

  lemma {:induction false} CoordRequestInv(st: St, id: OpId, outcome: ExecState, kernel: KernelReply, now: Time)
    requires Inv(st) && Terminal(outcome)
    ensures var st' := CoordRequest(st, id, outcome, kernel, now).0; Inv(st') && Evolves(st, st')
  {
    hide Inv, Evolves;
    RequestInv(st, id, outcome, now);
    var st1 := Request(st, id, outcome, now).0;
    InterruptOwnedInv(st1, id, kernel, now);
    EvolvesTransitive(st, st1, InterruptOwned(st1, id, kernel, now).0);
  }

  lemma {:induction false} StepInv(st: St, op: Op, now: Time)
    requires Inv(st) && FreshId(st, op)
    ensures Inv(Step(st, op, now).0) && Evolves(st, Step(st, op, now).0)
  {
    hide Inv, Evolves;
    match op
    case OpEnqueue(id, session, timeout) => EnqueueInv(st, id, session, timeout, now);
    case OpNextQueued => NextQueuedInv(st);
    case OpDispatch(id, msg) => DispatchInv(st, id, msg, now);
    case OpObserveBusyParent(id, parent) => ObserveInv(st, id, parent, now);
    case OpObserveKernelBusy(parent) => BusyInv(st, Some(parent));
    case OpObserveKernelIdle => BusyInv(st, None);
    case OpRequest(id, timedOut) => RequestInv(st, id, Wanted(timedOut), now);
    case OpMarkCancelling(id) => MarkInv(st, id);
    case OpExpire => ExpireInv(st, st.order, now);
    case OpFinish(id, outcome) => FinishInv(st, id, outcome, now);
    case OpInvalidateSession(session) => CancelAllInv(st, LiveOf(st, st.order, session), now);
    case OpDispatchNext(dispatch) => DispatchNextInv(st, dispatch, now);
    case OpCoordObserve(id, parent, kernel) => CoordObserveInv(st, id, parent, kernel, now);
    case OpCoordRequest(id, timedOut, kernel) => CoordRequestInv(st, id, Wanted(timedOut), kernel, now);
  }
}
