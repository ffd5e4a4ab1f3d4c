/**
  The execution broker and the execution coordinator as objects that update their fields, each
  call proved to have exactly the effect and the reply of its specification.
*/
module Execution {
  import opened Options
  import S = ExecutionSpec

  class ExecutionBroker {
    var records: map<S.OpId, S.Rec>
    var order: seq<S.OpId>  // the dictionary's insertion order
    var queue: seq<S.OpId>
    var active: Option<S.OpId>
    var busy: Option<S.MsgId>
    ghost var dispatched: seq<S.OpId>
    ghost var log: seq<S.Event>

    ghost function View(): S.St
      reads this
    {
      S.St(records, order, queue, active, busy, dispatched, log)
    }

    /** Every identifier held by the broker has a record. */
    ghost predicate Valid()
      reads this
    {
      && (forall i :: 0 <= i < |queue| ==> queue[i] in records)
      && (forall i :: 0 <= i < |order| ==> order[i] in records)
    }

    constructor ()
      ensures Valid() && View() == S.Init
    {
      records, order, queue, active, busy := map[], [], [], None, None;
      dispatched, log := [], [];
    }

    method Enqueue(id: S.OpId, session: S.SessionId, timeout: Option<int>, now: S.Time) returns (reply: S.Reply)
      requires Valid()
      modifies this
      ensures Valid() && (View(), reply) == S.Enqueue(old(View()), id, session, timeout, now)
    {
      if timeout.Some? && timeout.value <= 0 {
        return S.Raised(S.ValueError);
      }
      var deadline := None;
      if timeout.Some? {
        deadline := Some(now + timeout.value);
      }
      var r := S.Rec(session, S.Queued, now, None, None, None, None, None, None, deadline, None);
      records := records[id := r];
      order := order + [id];
      queue := queue + [id];
      reply := S.Record(r, false);
    }

    method NextQueued() returns (reply: S.Reply)
      requires Valid()
      modifies this
      ensures Valid() && (View(), reply) == S.NextQueued(old(View()))
      ensures reply.Record? ==> queue != [] && reply.r == records[queue[0]]
    {
      if active.Some? || busy.Some? {
        return S.Nothing;
      }
      while queue != []
        invariant Valid()
        invariant View() == old(View()).(queue := queue)
        invariant S.Cleaned(old(View()), queue) == S.Cleaned(old(View()), old(queue))
        decreases |queue|
      {
        var r := records[queue[0]];
        if r.state.Queued? {
          return S.Record(r, false);
        }
        queue := queue[1..];
      }
      reply := S.Nothing;
    }

    method Dispatch(id: S.OpId, msg: S.MsgId, now: S.Time) returns (reply: S.Reply)
      requires Valid()
      modifies this
      ensures Valid() && (View(), reply) == S.Dispatch(old(View()), id, msg, now)
    {
      if msg == "" {
        return S.Raised(S.ValueError);
      }
      if active.Some? || busy.Some? {
        return S.Raised(S.RuntimeError);
      }
      if id !in records {
        return S.Raised(S.KeyError);
      }
      var r := records[id];
      if !r.state.Queued? || (queue != [] && queue[0] != id) {
        return S.Raised(S.RuntimeError);
      }
      if queue != [] {
        queue := queue[1..];
      }
      r := r.(state := S.Dispatched, msg := Some(msg), dispatchedAt := Some(now));
      records := records[id := r];
      active := Some(id);
      dispatched := dispatched + [id];
      reply := S.Record(r, false);
    }

    method ObserveBusyParent(id: S.OpId, parent: S.MsgId, now: S.Time) returns (reply: S.Reply)
      requires Valid()
      modifies this
      ensures Valid() && (View(), reply) == S.ObserveBusyParent(old(View()), id, parent, now)
    {
      busy := Some(parent);
      if id !in records {
        return S.Raised(S.KeyError);
      }
      var r := records[id];
      var state, startedAt := r.state, r.startedAt;
      if r.msg == Some(parent) {
        if state.Dispatched? {
          state, startedAt := S.Running, Some(now);
        } else if state.CancelPending? && startedAt.None? {
          startedAt := Some(now);
        }
      }
      r := r.(state := state, parent := Some(parent), startedAt := startedAt);
      records := records[id := r];
      reply := S.Record(r, false);
    }

    method ObserveKernelBusy(parent: S.MsgId)
      requires Valid()
      modifies this
      ensures Valid() && View() == S.Step(old(View()), S.OpObserveKernelBusy(parent), 0).0
    {
      busy := Some(parent);
    }

    method ObserveKernelIdle()
      requires Valid()
      modifies this
      ensures Valid() && View() == S.Step(old(View()), S.OpObserveKernelIdle, 0).0
    {
      busy := None;
    }

    /** request_cancel and request_timeout, which differ only in the outcome they ask for. */
    method Request(id: S.OpId, timedOut: bool, now: S.Time) returns (reply: S.Reply)
      requires Valid()
      modifies this
      ensures Valid() && (View(), reply) == S.Request(old(View()), id, S.Wanted(timedOut), now)
      ensures order == old(order)
    {
      if id !in records {
        return S.Raised(S.KeyError);
      }
      var r := records[id];
      if S.Terminal(r.state) {
        return S.Record(r, false);
      }
      log := log + [S.Requested(id, S.Wanted(timedOut))];
      if r.state.Queued? {
        r := r.(state := S.Wanted(timedOut), cancelRequestedAt := Some(now),
                requested := Some(S.Wanted(timedOut)), finishedAt := Some(now));
        records := records[id := r];
        return S.Record(r, false);
      }
      r := r.(state := S.CancelPending, cancelRequestedAt := Some(now), requested := Some(S.Wanted(timedOut)));
      records := records[id := r];
      reply := S.Record(r, r.Owns());
    }

    method MarkCancelling(id: S.OpId) returns (reply: S.Reply)
      requires Valid()
      modifies this
      ensures Valid() && (View(), reply) == S.MarkCancelling(old(View()), id)
    {
      if id !in records {
        return S.Raised(S.KeyError);
      }
      var r := records[id];
      if !r.Owns() {
        return S.Raised(S.RuntimeError);
      }
      r := r.(state := S.Cancelling);
      records := records[id := r];
      reply := S.Record(r, false);
    }

    method Expire(now: S.Time) returns (reply: S.Reply)
      requires Valid()
      modifies this
      ensures Valid() && (View(), reply) == S.Step(old(View()), S.OpExpire, now)
    {
      var ids := order;
      var expired: seq<(S.Rec, bool)> := [];
      for i := 0 to |ids|
        invariant Valid() && order == ids == old(order)
        invariant (View(), expired) == S.ExpireAll(old(View()), ids[..i], now)
      {
        assert ids[..i + 1][..i] == ids[..i];
        var r := records[ids[i]];
        if r.deadlineAt.Some? && r.deadlineAt.value <= now && !S.Terminal(r.state) {
          var one := Request(ids[i], true, now);
          expired := expired + [(one.r, one.interrupt)];
        }
      }
      assert ids[..|ids|] == ids;
      reply := S.Records(expired);
    }

    method Finish(id: S.OpId, outcome: S.ExecState, now: S.Time) returns (reply: S.Reply)
      requires Valid()
      modifies this
      ensures Valid() && (View(), reply) == S.Finish(old(View()), id, outcome, now)
      ensures records.Keys == old(records.Keys)
    {
      if !S.Terminal(outcome) {
        return S.Raised(S.ValueError);
      }
      if id !in records {
        return S.Raised(S.KeyError);
      }
      var r := records[id].(state := outcome, finishedAt := Some(now));
      records := records[id := r];
      log := log + [S.Finished(id, outcome)];
      if active == Some(id) {
        active := None;
      }
      reply := S.Record(r, false);
    }

    method InvalidateSession(session: S.SessionId, now: S.Time) returns (reply: S.Reply)
      requires Valid()
      modifies this
      ensures Valid() && (View(), reply) == S.Step(old(View()), S.OpInvalidateSession(session), now)
    {
      var ids: seq<S.OpId> := [];
      for i := 0 to |order|
        invariant View() == old(View()) && Valid()
        invariant ids == S.LiveOf(View(), order[..i], session)
        invariant forall j :: 0 <= j < |ids| ==> ids[j] in records
      {
        assert order[..i + 1][..i] == order[..i];
        var r := records[order[i]];
        if r.session == session && !S.Terminal(r.state) {
          ids := ids + [order[i]];
        }
      }
      assert order[..|order|] == order;
      var invalidated: seq<(S.Rec, bool)> := [];
      for i := 0 to |ids|
        invariant Valid() && records.Keys == old(records.Keys)
        invariant (View(), invalidated) == S.CancelAll(old(View()), ids[..i], now)
      {
        assert ids[..i + 1][..i] == ids[..i];
        var one := Finish(ids[i], S.Cancelled, now);
        invalidated := invalidated + [(one.r, false)];
      }
      assert ids[..|ids|] == ids;
      reply := S.Records(invalidated);
    }
  }

  class ExecutionCoordinator {
    const broker: ExecutionBroker

    constructor (broker: ExecutionBroker)
      ensures this.broker == broker
    {
      this.broker := broker;
    }

    method DispatchNext(dispatch: Option<S.MsgId>, now: S.Time) returns (reply: S.Reply)
      requires broker.Valid()
      modifies broker
      ensures broker.Valid() && (broker.View(), reply) == S.DispatchNext(old(broker.View()), dispatch, now)
    {
      var queued := broker.NextQueued();
      if !queued.Record? {
        return S.Nothing;
      }
      if dispatch.None? {
        return S.Raised(S.RuntimeError);
      }
      reply := broker.Dispatch(broker.queue[0], dispatch.value, now);
    }

    method ObserveBusyParent(id: S.OpId, parent: S.MsgId, kernel: S.KernelReply, now: S.Time) returns (reply: S.Reply)
      requires broker.Valid()
      modifies broker
      ensures broker.Valid()
      ensures (broker.View(), reply) == S.CoordObserve(old(broker.View()), id, parent, kernel, now)
    {
      reply := broker.ObserveBusyParent(id, parent, now);
      if reply.Record? && reply.r.state.CancelPending? && reply.r.Owns() {
        reply := InterruptOwned(id, kernel, now);
        if !reply.Raised? {
          reply := if id in broker.records then S.Record(broker.records[id], false) else S.Raised(S.KeyError);
        }
      }
    }

    /** cancel and timeout, which differ only in the outcome they ask for. */
    method Request(id: S.OpId, timedOut: bool, kernel: S.KernelReply, now: S.Time) returns (reply: S.Reply)
      requires broker.Valid()
      modifies broker
      ensures broker.Valid()
      ensures (broker.View(), reply) == S.CoordRequest(old(broker.View()), id, S.Wanted(timedOut), kernel, now)
    {
      reply := broker.Request(id, timedOut, now);
      if reply.Record? && reply.interrupt {
        reply := InterruptOwned(id, kernel, now);
        if !reply.Raised? {
          reply := if id in broker.records then S.Record(broker.records[id], false) else S.Raised(S.KeyError);
        }
      }
    }

    method InterruptOwned(id: S.OpId, kernel: S.KernelReply, now: S.Time) returns (reply: S.Reply)
      requires broker.Valid()
      modifies broker
      ensures broker.Valid()
      ensures (broker.View(), reply) == S.InterruptOwned(old(broker.View()), id, kernel, now)
    {
      var marked := broker.MarkCancelling(id);
      if !marked.Record? {
        return marked;
      }
      broker.log := broker.log + [S.Interrupted(id, marked.r.msg, marked.r.parent, broker.active, broker.busy)];
      if kernel.InterruptRaised? {
        return S.Raised(S.RuntimeError);
      }
      if kernel.NoWait? {
        return S.Nothing;
      }
      broker.log := broker.log + [S.Waited(kernel.WentIdle?)];
      if !kernel.WentIdle? {
        broker.log := broker.log + [S.Restarted];
        if kernel.RestartRaised? {
          return S.Raised(S.RuntimeError);
        }
      }
      reply := broker.Finish(id, if marked.r.requested.Some? then marked.r.requested.value else S.Cancelled, now);
    }
  }
}
