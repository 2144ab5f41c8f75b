/** The pipeline's objects as the code has them: lists appended to and erased from in loops. */
module CloudServices {
  import opened Prelude
  import opened PublishPipeline

  class BackgroundPublish {
    var queues: seq<seq<Event>>
    var running: bool
    const maxEntries: nat
    // The locals of the publisher thread.
    var thread: Thread
    var ring: seq<nat>
    var slot: nat

    function Value(): Publisher
      reads this
    {
      Publisher(queues, running, thread, ring, slot)
    }

    constructor (maxEntries: nat)
      ensures Value() == Init().publisher && this.maxEntries == maxEntries
    {
      queues, running, this.maxEntries := [[], []], false, maxEntries;
      thread, ring, slot := Idle, FRESH_RING, 0;
    }

    /** Takes the event, or reports the error that its callback is to be called with. */
    method Publish(e: Event, priority: nat) returns (error: Error)
      modifies this`queues
      ensures error == Rejection(old(Value()), priority, maxEntries)
      ensures error != NONE ==> Value() == old(Value())
      ensures error == NONE ==> Value() == Enqueued(old(Value()), priority, e)
    {
      if !running {
        return INVALID_STATE;
      }
      if priority >= |queues| {
        return INVALID_ARGUMENT;
      }
      if |queues[priority]| >= maxEntries {
        return BUSY;
      }
      queues := queues[priority := queues[priority] + [e]];
      return NONE;
    }

    /** The top of the thread's loop. */
    method Poll(now: nat)
      requires WellFormed(Value())
      modifies this`thread
      ensures Value() == Polled(old(Value()), now)
    {
      if thread.Idle? && running {
        if Since(now % WRAP, ring[slot]) >= PROCESS_INTERVAL {
          thread := Scanning(now, 0);
        }
      }
    }

    /** One queue of the thread's scan, under the mutex. */
    method CheckQueue()
      requires WellFormed(Value())
      modifies this
      ensures Value() == Checked(old(Value()))
    {
      if !thread.Scanning? {
        return;
      }
      var now, q := thread.now, thread.next;
      if q >= |queues| {
        thread := Idle;
        return;
      }
      if queues[q] != [] {
        ring := ring[slot := now % WRAP];
        slot := (slot + 1) % BURST_RATE;
        var event := queues[q][0];
        queues := queues[q := queues[q][1..]];
        thread := Publishing(event);
      } else {
        thread := Scanning(now, q + 1);
      }
    }

    /**
     * Nobody else at work, a scan takes the front of the first queue that has one: the loop over the
     * queues comes to the same as one look after another.
     */
    method Scan()
      requires WellFormed(Value()) && thread.Scanning? && thread.next == 0
      modifies this
      ensures WellFormed(Value()) && !thread.Scanning?
      ensures (forall q :: 0 <= q < |old(queues)| ==> old(queues)[q] == []) ==> thread == Idle && queues == old(queues)
      ensures forall q :: 0 <= q < |old(queues)| && old(queues)[q] != [] && (forall p :: 0 <= p < q ==> old(queues)[p] == []) ==>
                thread == Publishing(old(queues)[q][0]) && queues == old(queues)[q := old(queues)[q][1..]]
    {
      while thread.Scanning?
        invariant WellFormed(Value())
        invariant thread.Scanning? ==>
                    queues == old(queues) && thread.next <= |queues| && forall p :: 0 <= p < thread.next ==> old(queues)[p] == []
        invariant thread.Idle? ==> queues == old(queues) && forall p :: 0 <= p < |old(queues)| ==> old(queues)[p] == []
        invariant thread.Publishing? ==>
                    exists q :: 0 <= q < |old(queues)| && old(queues)[q] != [] && (forall p :: 0 <= p < q ==> old(queues)[p] == [])
                                && thread.event == old(queues)[q][0] && queues == old(queues)[q := old(queues)[q][1..]]
        decreases if thread.Scanning? then 1 + |queues| - thread.next else 0
      {
        CheckQueue();
      }
    }

    /** Empties every queue, front first, collecting the callbacks that are told of the cancellation. */
    method Cleanup() returns (cancelled: seq<nat>)
      modifies this`queues
      ensures cancelled == CallbackIdsAll(old(queues))
      ensures queues == seq(|old(queues)|, _ => [])
    {
      cancelled := [];
      hide CallbackIdsAll, CallbackIds;
      ghost var all := queues;
      for q := 0 to |queues|
        invariant |queues| == |all|
        invariant forall k :: 0 <= k < |all| ==> queues[k] == if k < q then [] else all[k]
        invariant cancelled + CallbackIdsAll(all[q..]) == CallbackIdsAll(all)
      {
        assert all[q..][1..] == all[q + 1..];
        ghost var rest := CallbackIdsAll(all[q + 1..]);
        CallbackIdsAllUnfolds(all[q..]);
        while queues[q] != []
          invariant |queues| == |all|
          invariant forall k :: 0 <= k < |all| && k != q ==> queues[k] == if k < q then [] else all[k]
          invariant cancelled + CallbackIds(queues[q]) + rest == CallbackIdsAll(all)
          decreases |queues[q]|
        {
          var event := queues[q][0];
          CallbackIdsUnfolds(queues[q]);
          if event.callback.Some? {
            cancelled := cancelled + [event.callback.value.id];
          }
          queues := queues[q := queues[q][1..]];
        }
        CallbackIdsUnfolds(queues[q]);
      }
      CallbackIdsAllUnfolds(all[|queues|..]);
    }
  }

  class CloudService {
    const backgroundPublish: BackgroundPublish
    var ackHandlers: seq<AckContext>
    var deferredAcks: seq<(AckContext, Status)>
    var reqId: nat
    var lastTickSec: nat
    // What has become of the callbacks.
    var finished: seq<Outcome>
    var cancelled: seq<nat>
    var issued: nat

    function Value(): Service
      reads this, backgroundPublish
    {
      Service(backgroundPublish.Value(), ackHandlers, deferredAcks, reqId, lastTickSec, finished, cancelled, issued)
    }

    constructor (maxEntries: nat)
      ensures Value() == Init() && backgroundPublish.maxEntries == maxEntries && fresh(backgroundPublish)
    {
      backgroundPublish := new BackgroundPublish(maxEntries);
      ackHandlers, deferredAcks, reqId, lastTickSec := [], [], 1, 0;
      finished, cancelled, issued := [], [], 0;
    }

    method GetNextReqId() returns (id: nat)
      modifies this`reqId
      ensures id == old(reqId) && reqId == NextReqId(old(reqId))
    {
      id := reqId;
      reqId := (reqId + 1) % WRAP;
      if reqId == 0 {
        reqId := 1;
      }
    }

    /** The completion callback that a send hands to the publisher. */
    method Complete(ctx: AckContext, error: Error)
      modifies this`ackHandlers, this`deferredAcks, this`cancelled
      ensures Value() == Completed(old(Value()), ctx, error)
    {
      if error == NONE {
        if ctx.fullAck {
          ackHandlers := ackHandlers + [ctx];
        } else {
          deferredAcks := deferredAcks + [(ctx, SUCCESS)];
        }
      } else if error != CANCELLED {
        deferredAcks := deferredAcks + [(ctx, FAILURE)];
      } else {
        cancelled := cancelled + [ctx.id];
      }
    }

    method SendData(r: Request) returns (result: SendResult)
      modifies this, backgroundPublish
      ensures (Value(), result) == SentData(old(Value()), r, backgroundPublish.maxEntries)
    {
      if r.name.None? {
        return NoEventName;
      }
      if !r.hasCallback {
        var error := backgroundPublish.Publish(Event(r.name.value, r.data, None), r.priority);
        return if error == NONE then Sent else EmptyCallbackCalled;
      }
      var ctx := AckContext(issued, r.reqId, Deadline(r.ms, r.timeoutMs), r.fullAck, r.data);
      issued := issued + 1;
      var error := backgroundPublish.Publish(Event(r.name.value, r.data, Some(ctx)), r.priority);
      if error != NONE {
        Complete(ctx, error);
        return Busy;
      }
      return Sent;
    }

    method SendCommand(r: Request, fits: bool) returns (result: SendResult)
      modifies this, backgroundPublish
      ensures (Value(), result) == SentCommand(old(Value()), r, fits, backgroundPublish.maxEntries)
    {
      var id := 0;
      if r.hasCallback && r.fullAck {
        id := GetNextReqId();
      }
      if !fits {
        return NoSpace;
      }
      result := SendData(r.(reqId := id));
    }

    /** Calls back and erases every handler whose time is up. */
    method TickSec(ms: nat)
      modifies this`ackHandlers, this`finished
      ensures finished == old(finished) + Due(old(ackHandlers), ms % WRAP)
      ensures ackHandlers == NotDue(old(ackHandlers), ms % WRAP)
    {
      hide Due, NotDue;
      var now := ms % WRAP;
      var it := 0;
      ghost var rest := ackHandlers;
      while it < |ackHandlers|
        invariant it <= |ackHandlers| && ackHandlers[it..] == rest
        invariant finished + Due(rest, now) == old(finished) + Due(old(ackHandlers), now)
        invariant ackHandlers[..it] + NotDue(rest, now) == NotDue(old(ackHandlers), now)
        decreases |ackHandlers| - it
      {
        var ctx := ackHandlers[it];
        assert rest[0] == ctx;
        DueUnfolds(rest, now);
        rest := rest[1..];
        if now > ctx.timeout {
          finished := finished + [Outcome(ctx.id, TIMEOUT, ctx.data)];
          ghost var kept := ackHandlers[..it];
          ackHandlers := ackHandlers[..it] + ackHandlers[it + 1..];
          assert ackHandlers[..it] == kept && ackHandlers[it..] == rest;
        } else {
          assert ackHandlers[..it + 1] == ackHandlers[..it] + [ctx];
          it := it + 1;
        }
      }
      DueUnfolds(rest, now);
    }

    method RunDeferred()
      modifies this`deferredAcks, this`finished
      ensures finished == old(finished) + Run(old(deferredAcks)) && deferredAcks == []
    {
      for i := 0 to |deferredAcks|
        invariant deferredAcks == old(deferredAcks)
        invariant finished + Run(deferredAcks[i..]) == old(finished) + Run(deferredAcks)
      {
        assert deferredAcks[i..][1..] == deferredAcks[i + 1..];
        var ack := deferredAcks[i];
        finished := finished + [Outcome(ack.0.id, ack.1, ack.0.data)];
      }
      deferredAcks := [];
    }

    method Tick(sec: nat, ms: nat)
      modifies this
      ensures Value() == Ticked(old(Value()), sec, ms)
    {
      if sec != lastTickSec {
        lastTickSec := sec;
        TickSec(ms);
      }
      RunDeferred();
    }

    /** An ack command: calls back and erases every handler with its request id. */
    method DispatchAck(id: nat)
      modifies this`ackHandlers, this`finished
      ensures Value() == Acked(old(Value()), id)
    {
      hide Acknowledged, Unacknowledged;
      var it := 0;
      ghost var rest := ackHandlers;
      while it < |ackHandlers|
        invariant it <= |ackHandlers| && ackHandlers[it..] == rest
        invariant finished + Acknowledged(rest, id) == old(finished) + Acknowledged(old(ackHandlers), id)
        invariant ackHandlers[..it] + Unacknowledged(rest, id) == Unacknowledged(old(ackHandlers), id)
        decreases |ackHandlers| - it
      {
        var ctx := ackHandlers[it];
        assert rest[0] == ctx;
        AcknowledgedUnfolds(rest, id);
        rest := rest[1..];
        if id == ctx.reqId {
          finished := finished + [Outcome(ctx.id, SUCCESS, ctx.data)];
          ghost var kept := ackHandlers[..it];
          ackHandlers := ackHandlers[..it] + ackHandlers[it + 1..];
          assert ackHandlers[..it] == kept && ackHandlers[it..] == rest;
        } else {
          assert ackHandlers[..it + 1] == ackHandlers[..it] + [ctx];
          it := it + 1;
        }
      }
      AcknowledgedUnfolds(rest, id);
    }
  }
}
