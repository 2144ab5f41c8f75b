/** Over whole runs, what the callback of a send is told, by what was asked for in the send. */
module PublishOutcomes {
  import opened Prelude
  import opened PublishPipeline
  import opened PublishConservation
  import opened PublishAcks

  /* ---- The sends of a run ---- */

  /** The request of a send with a callback, with the request id that it is given. */
  function RequestOf(step: Step, handed: nat): Option<Request>
  {
    match step
    case SendData(r) => if r.name.Some? && r.hasCallback then Some(r) else None
    case SendCommand(r, fits) =>
      if fits && r.name.Some? && r.hasCallback then Some(r.(reqId := if r.fullAck then NthReqId(handed) else 0)) else None
    case _ => None
  }

  /** All of them, in order. */
  function Requests(steps: seq<Step>): seq<Request>
  {
    if steps == [] then []
    else
      var before, last := steps[..|steps| - 1], steps[|steps| - 1];
      var r := RequestOf(last, Handed(before));
      Requests(before) + if r.Some? then [r.value] else []
  }

  /** The event and the context are those of the n-th request. */
  ghost predicate Matches(e: Event, requests: seq<Request>)
  {
    e.callback.Some? ==>
      var ctx := e.callback.value;
      ctx.id < |requests| &&
      var r := requests[ctx.id];
      && r.name == Some(e.name) && r.data == e.data == ctx.data
      && r.reqId == ctx.reqId && r.fullAck == ctx.fullAck && Deadline(r.ms, r.timeoutMs) == ctx.timeout
  }

  /** Every event that is queued or being published is that of its request. */
  ghost predicate AllMatch(p: Publisher, requests: seq<Request>)
  {
    && (forall q, i :: 0 <= q < |p.queues| && 0 <= i < |p.queues[q]| ==> Matches(p.queues[q][i], requests))
    && (p.thread.Publishing? ==> Matches(p.thread.event, requests))
  }

  lemma MoreRequests(p: Publisher, requests: seq<Request>, more: seq<Request>)
    requires AllMatch(p, requests)
    ensures AllMatch(p, requests + more)
  {
    forall q, i | 0 <= q < |p.queues| && 0 <= i < |p.queues[q]| ensures Matches(p.queues[q][i], requests + more) {
      assert Matches(p.queues[q][i], requests);
    }
  }

  lemma EnqueuedMatches(p: Publisher, requests: seq<Request>, priority: nat, e: Event)
    requires AllMatch(p, requests) && priority < |p.queues| && Matches(e, requests)
    ensures AllMatch(Enqueued(p, priority, e), requests)
  {
    hide Matches;
    var p' := Enqueued(p, priority, e);
    forall q, i | 0 <= q < |p'.queues| && 0 <= i < |p'.queues[q]| ensures Matches(p'.queues[q][i], requests) {
      if i < |p.queues[q]| { assert p'.queues[q][i] == p.queues[q][i]; }
    }
  }

  lemma SentMatches(s: Service, r: Request, maxEntries: nat, requests: seq<Request>)
    requires AllMatch(s.publisher, requests) && s.issued == |requests|
    ensures var (s', _) := SentData(s, r, maxEntries);
            var requests' := requests + if r.name.Some? && r.hasCallback then [r] else [];
            AllMatch(s'.publisher, requests') && s'.issued == |requests'|
  {
    var more := if r.name.Some? && r.hasCallback then [r] else [];
    MoreRequests(s.publisher, requests, more);
    if r.name.Some? && Rejection(s.publisher, r.priority, maxEntries) == NONE {
      var ctx := AckContext(s.issued, r.reqId, Deadline(r.ms, r.timeoutMs), r.fullAck, r.data);
      var e := Event(r.name.value, r.data, if r.hasCallback then Some(ctx) else None);
      assert Matches(e, requests + more);
      hide Matches, AllMatch, Deadline;
      EnqueuedMatches(s.publisher, requests + more, r.priority, e);
    }
    hide AllMatch, Enqueued, Matches;
  }

  lemma ThreadKeepsMatches(s: Service, step: Step, maxEntries: nat, requests: seq<Request>)
    requires WellFormed(s.publisher) && AllMatch(s.publisher, requests) && !step.SendData? && !step.SendCommand?
    ensures AllMatch(Next(s, step, maxEntries).publisher, requests) && Next(s, step, maxEntries).issued == s.issued
  {
    hide Matches;
    if step.Check? { CheckedMatches(s.publisher, requests); }
  }

  lemma CheckedMatches(p: Publisher, requests: seq<Request>)
    requires WellFormed(p) && AllMatch(p, requests)
    ensures AllMatch(Checked(p), requests)
  {
    hide Matches;
    var p' := Checked(p);
    forall q, i | 0 <= q < |p'.queues| && 0 <= i < |p'.queues[q]| ensures Matches(p'.queues[q][i], requests) {
      if p'.queues[q] != p.queues[q] { assert p'.queues[q][i] == p.queues[q][i + 1]; }
    }
  }

  /** What is queued and published, over every run, is what was sent. */
  lemma {:induction false} EventsAreSent(steps: seq<Step>, maxEntries: nat)
    ensures AllMatch(After(steps, maxEntries).publisher, Requests(steps)) && After(steps, maxEntries).issued == |Requests(steps)|
  {
    if steps != [] {
      var before, last := steps[..|steps| - 1], steps[|steps| - 1];
      EventsAreSent(before, maxEntries);
      IssuesAreNumbered(before, maxEntries);
      var s, requests := After(before, maxEntries), Requests(before);
      assert requests + [] == requests;
      hide AllMatch;
      match last {
        case SendData(r) => SentMatches(s, r, maxEntries, requests);
        case SendCommand(r, fits) =>
          var s' := if WantsId(last) then s.(nextReqId := NextReqId(s.nextReqId)) else s;
          SentMatches(s', r.(reqId := if WantsId(last) then s.nextReqId else 0), maxEntries, requests);
        case _ => ThreadKeepsMatches(s, last, maxEntries, requests);
      }
    }
  }

  /* ---- After the publish ---- */

  /** Where a send is once its publish is over. */
  datatype Fate = Waiting | Told(status: Status) | Ended(status: Status) | Dropped

  ghost predicate IsAt(s: Service, ctx: AckContext, fate: Fate)
  {
    match fate
    case Waiting => ctx in s.acks
    case Told(status) => (ctx, status) in s.deferred
    case Ended(status) => Outcome(ctx.id, status, ctx.data) in s.finished
    case Dropped => ctx.id in s.cancelled
  }

  function NextFate(fate: Fate, ctx: AckContext, step: Step, lastTickSec: nat): Fate
  {
    match (fate, step)
    case (Told(status), Tick(_, _)) => Ended(status)
    case (Waiting, Tick(sec, ms)) => if sec != lastTickSec && ms % WRAP > ctx.timeout then Ended(TIMEOUT) else Waiting
    case (Waiting, Ack(reqId)) => if reqId == ctx.reqId then Ended(SUCCESS) else Waiting
    case _ => fate
  }

  lemma NextIsAt(s: Service, ctx: AckContext, fate: Fate, step: Step, maxEntries: nat)
    requires WellFormed(s.publisher) && IsAt(s, ctx, fate)
    ensures IsAt(Next(s, step, maxEntries), ctx, NextFate(fate, ctx, step, s.lastTickSec))
    ensures Next(s, step, maxEntries).lastTickSec == if step.Tick? then step.sec else s.lastTickSec
  {
    if step.Tick? {
      TickedIsAt(s, ctx, fate, step.sec, step.ms);
    } else if step.Ack? {
      AckedIsAt(s, ctx, fate, step.reqId);
    } else {
      hide Checked, Polled, Enqueued, Rejection, Deadline, CallbackIdsAll;
    }
  }

  lemma {:induction false} DueHas(acks: seq<AckContext>, ms: nat, ctx: AckContext)
    requires ctx in acks && ms > ctx.timeout
    ensures Outcome(ctx.id, TIMEOUT, ctx.data) in Due(acks, ms)
  {
    if acks[0] != ctx { DueHas(acks[1..], ms, ctx); }
  }

  lemma {:induction false} AcknowledgedHas(acks: seq<AckContext>, reqId: nat, ctx: AckContext)
    requires ctx in acks && reqId == ctx.reqId
    ensures Outcome(ctx.id, SUCCESS, ctx.data) in Acknowledged(acks, reqId)
  {
    if acks[0] != ctx { AcknowledgedHas(acks[1..], reqId, ctx); }
  }

  lemma {:induction false} RunHas(deferred: seq<(AckContext, Status)>, ctx: AckContext, status: Status)
    requires (ctx, status) in deferred
    ensures Outcome(ctx.id, status, ctx.data) in Run(deferred)
  {
    if deferred[0] != (ctx, status) { RunHas(deferred[1..], ctx, status); }
  }

  lemma TickedIsAt(s: Service, ctx: AckContext, fate: Fate, sec: nat, ms: nat)
    requires IsAt(s, ctx, fate)
    ensures IsAt(Ticked(s, sec, ms), ctx, NextFate(fate, ctx, Tick(sec, ms), s.lastTickSec))
  {
    NotDueFilters(s.acks, ms % WRAP, ctx);
    if fate.Waiting? && ms % WRAP > ctx.timeout { DueHas(s.acks, ms % WRAP, ctx); }
    if fate.Told? { RunHas(s.deferred, ctx, fate.status); }
  }

  lemma AckedIsAt(s: Service, ctx: AckContext, fate: Fate, reqId: nat)
    requires IsAt(s, ctx, fate)
    ensures IsAt(Acked(s, reqId), ctx, NextFate(fate, ctx, Ack(reqId), s.lastTickSec))
  {
    UnacknowledgedFilters(s.acks, reqId, ctx);
    if fate.Waiting? && reqId == ctx.reqId { AcknowledgedHas(s.acks, reqId, ctx); }
  }

  /** The second of the last tick. */
  function LastTick(steps: seq<Step>): nat
  {
    if steps == [] then 0
    else if steps[|steps| - 1].Tick? then steps[|steps| - 1].sec
    else LastTick(steps[..|steps| - 1])
  }

  /**
   * What a step tells the callback of a send whose publish is over. Without an error, the next tick
   * tells a plain send of success; a send with a full ack is told by the ack of its request id, or by
   * the first tick of a second past its deadline. An error is told by the next tick, unless it is a
   * cancellation.
   */
  function Tells(r: Request, error: Error, step: Step, lastTick: nat): Option<Status>
  {
    if error == CANCELLED then None
    else if error != NONE then if step.Tick? then Some(FAILURE) else None
    else if !r.fullAck then if step.Tick? then Some(SUCCESS) else None
    else if step == Ack(r.reqId) then Some(SUCCESS)
    else if step.Tick? && step.sec != lastTick && step.ms % WRAP > Deadline(r.ms, r.timeoutMs) then Some(TIMEOUT)
    else None
  }

  /** The run: `steps`, the end of the publish, and what follows. */
  function Run3(steps: seq<Step>, error: Error, more: seq<Step>): seq<Step>
  {
    steps + [Done(error)] + more
  }

  function TellsAt(steps: seq<Step>, r: Request, error: Error, more: seq<Step>, k: nat): Option<Status>
    requires k < |more|
  {
    Tells(r, error, more[k], LastTick(Run3(steps, error, more[..k])))
  }

  /** Step k is the first one that tells the callback anything. */
  ghost predicate FirstTold(steps: seq<Step>, r: Request, error: Error, more: seq<Step>, k: int, status: Status)
  {
    && 0 <= k < |more| && TellsAt(steps, r, error, more, k) == Some(status)
    && forall j :: 0 <= j < k ==> TellsAt(steps, r, error, more, j) == None
  }

  function FirstFate(r: Request, error: Error): Fate
  {
    if error == CANCELLED then Dropped
    else if error != NONE then Told(FAILURE)
    else if r.fullAck then Waiting
    else Told(SUCCESS)
  }

  lemma AfterStep(steps: seq<Step>, step: Step, maxEntries: nat)
    ensures After(steps + [step], maxEntries) == Next(After(steps, maxEntries), step, maxEntries)
    ensures LastTick(steps + [step]) == if step.Tick? then step.sec else LastTick(steps)
  {
    assert (steps + [step])[..|steps|] == steps;
  }

  lemma {:induction false} LastTickIsKept(steps: seq<Step>, maxEntries: nat)
    ensures After(steps, maxEntries).lastTickSec == LastTick(steps)
  {
    if steps != [] {
      var before, last := steps[..|steps| - 1], steps[|steps| - 1];
      LastTickIsKept(before, maxEntries);
      StepKeepsTick(After(before, maxEntries), last, maxEntries);
      hide Next;
    }
  }

  lemma StepKeepsTick(s: Service, step: Step, maxEntries: nat)
    requires WellFormed(s.publisher)
    ensures Next(s, step, maxEntries).lastTickSec == if step.Tick? then step.sec else s.lastTickSec
  {
    hide Checked, Polled, Enqueued, Rejection, Deadline, CallbackIdsAll, Due, NotDue, Run, Acknowledged, Unacknowledged;
  }

  lemma DoneIsAt(s: Service, ctx: AckContext, r: Request, error: Error)
    requires s.publisher.thread.Publishing? && s.publisher.thread.event.callback == Some(ctx) && r.fullAck == ctx.fullAck
    ensures IsAt(PublishDone(s, error), ctx, FirstFate(r, error))
  {
  }

  /** The send in the thread's hands, by number. */
  ghost predicate InHand(steps: seq<Step>, maxEntries: nat, id: nat)
  {
    InFlight(After(steps, maxEntries).publisher.thread) == [id]
  }

  function ContextInHand(s: Service): AckContext
    requires s.publisher.thread.Publishing? && s.publisher.thread.event.callback.Some?
  {
    s.publisher.thread.event.callback.value
  }

  lemma {:induction false} FateIsKept(steps: seq<Step>, maxEntries: nat, ctx: AckContext, r: Request, error: Error, more: seq<Step>)
    requires var s := After(steps, maxEntries); s.publisher.thread.Publishing? && s.publisher.thread.event.callback == Some(ctx)
    requires r.fullAck == ctx.fullAck && r.reqId == ctx.reqId && Deadline(r.ms, r.timeoutMs) == ctx.timeout
    ensures var s := After(Run3(steps, error, more), maxEntries);
            && ((forall j :: 0 <= j < |more| ==> TellsAt(steps, r, error, more, j) == None) ==> IsAt(s, ctx, FirstFate(r, error)))
            && (forall k, status :: FirstTold(steps, r, error, more, k, status) ==> IsAt(s, ctx, Ended(status)))
    decreases |more|
  {
    if more == [] {
      assert Run3(steps, error, more) == steps + [Done(error)];
      AfterStep(steps, Done(error), maxEntries);
      DoneIsAt(After(steps, maxEntries), ctx, r, error);
    } else {
      var n := |more| - 1;
      var run := Run3(steps, error, more[..n]);
      assert Run3(steps, error, more) == run + [more[n]];
      assert forall j :: 0 <= j < n ==> more[..n][j] == more[j] && more[..n][..j] == more[..j];
      FateIsKept(steps, maxEntries, ctx, r, error, more[..n]);
      AfterStep(run, more[n], maxEntries);
      LastTickIsKept(run, maxEntries);
      FateMoves(steps, maxEntries, ctx, r, error, more);
    }
  }

  lemma FateMoves(steps: seq<Step>, maxEntries: nat, ctx: AckContext, r: Request, error: Error, more: seq<Step>)
    requires more != [] && r.fullAck == ctx.fullAck && r.reqId == ctx.reqId && Deadline(r.ms, r.timeoutMs) == ctx.timeout
    requires var n := |more| - 1;
             var run, before := Run3(steps, error, more[..n]), more[..n];
             var s, s' := After(run, maxEntries), After(Run3(steps, error, more), maxEntries);
             && s' == Next(s, more[n], maxEntries) && s.lastTickSec == LastTick(run)
             && ((forall j :: 0 <= j < n ==> TellsAt(steps, r, error, before, j) == None) ==> IsAt(s, ctx, FirstFate(r, error)))
             && (forall k, status :: FirstTold(steps, r, error, before, k, status) ==> IsAt(s, ctx, Ended(status)))
    ensures var s := After(Run3(steps, error, more), maxEntries);
            && ((forall j :: 0 <= j < |more| ==> TellsAt(steps, r, error, more, j) == None) ==> IsAt(s, ctx, FirstFate(r, error)))
            && (forall k, status :: FirstTold(steps, r, error, more, k, status) ==> IsAt(s, ctx, Ended(status)))
  {
    var n := |more| - 1;
    var before, s := more[..n], After(Run3(steps, error, more[..n]), maxEntries);
    assert forall j :: 0 <= j < n ==> before[..j] == more[..j];
    assert forall j :: 0 <= j < n ==> TellsAt(steps, r, error, before, j) == TellsAt(steps, r, error, more, j);
    assert TellsAt(steps, r, error, more, n) == Tells(r, error, more[n], s.lastTickSec);
    TellsMoves(ctx, r, error, more[n], s.lastTickSec);
    hide IsAt, After, Next, LastTick, Run3, Tells, TellsAt, NextFate, FirstFate, Deadline;
    if forall j :: 0 <= j < n ==> TellsAt(steps, r, error, more, j) == None {
      NextIsAt(s, ctx, FirstFate(r, error), more[n], maxEntries);
    }
    forall k, status | FirstTold(steps, r, error, more, k, status)
      ensures IsAt(After(Run3(steps, error, more), maxEntries), ctx, Ended(status))
    {
      if k < n {
        assert FirstTold(steps, r, error, before, k, status);
        NextIsAt(s, ctx, Ended(status), more[n], maxEntries);
      } else {
        assert k == n;
      }
    }
  }

  lemma TellsMoves(ctx: AckContext, r: Request, error: Error, step: Step, lastTick: nat)
    requires r.fullAck == ctx.fullAck && r.reqId == ctx.reqId && Deadline(r.ms, r.timeoutMs) == ctx.timeout
    ensures var tells := Tells(r, error, step, lastTick);
            NextFate(FirstFate(r, error), ctx, step, lastTick) == if tells.Some? then Ended(tells.value) else FirstFate(r, error)
    ensures forall status :: NextFate(Ended(status), ctx, step, lastTick) == Ended(status)
  {
  }

  lemma OneOutcome(s: Service, i: nat, j: nat)
    requires i < j < |s.finished| && s.finished[i].id == s.finished[j].id
    ensures Runs(s, s.finished[i].id) >= 2
  {
    TwiceCounts(OutcomeIds(s.finished), i, j);
  }

  /** A finished send has just the one outcome, and an unfinished one has none. */
  lemma OutcomesOf(steps: seq<Step>, maxEntries: nat, ctx: AckContext, fate: Fate)
    requires IsAt(After(steps, maxEntries), ctx, fate)
    ensures forall o :: o in After(steps, maxEntries).finished && o.id == ctx.id ==> fate == Ended(o.status) && o.data == ctx.data
  {
    hide *;
    var s := After(steps, maxEntries);
    AtMostOnce(steps, maxEntries, ctx.id);
    Conserved(steps, maxEntries);
    EachIdOnce(s.issued, ctx.id);
    PlacesOf(s, ctx, fate);
    OutcomesIn(s, ctx, fate);
  }

  lemma OutcomesIn(s: Service, ctx: AckContext, fate: Fate)
    requires IsAt(s, ctx, fate) && Runs(s, ctx.id) <= 1 && (!fate.Ended? ==> Runs(s, ctx.id) == 0)
    ensures forall o :: o in s.finished && o.id == ctx.id ==> fate == Ended(o.status) && o.data == ctx.data
  {
    forall o | o in s.finished && o.id == ctx.id ensures fate == Ended(o.status) && o.data == ctx.data {
      var i :| 0 <= i < |s.finished| && s.finished[i] == o;
      OutcomeCounts(s.finished, i);
      if fate.Ended? {
        var j :| 0 <= j < |s.finished| && s.finished[j] == Outcome(ctx.id, fate.status, ctx.data);
        if i < j { OneOutcome(s, i, j); } else if j < i { OneOutcome(s, j, i); }
      }
    }
  }

  lemma PlacesOf(s: Service, ctx: AckContext, fate: Fate)
    requires IsAt(s, ctx, fate)
    ensures !fate.Ended? ==> Places(s)[ctx.id] >= Runs(s, ctx.id) + 1
  {
    match fate
    case Waiting =>
      var i :| 0 <= i < |s.acks| && s.acks[i] == ctx;
      assert AckIds(s.acks)[i] == ctx.id;
    case Told(status) =>
      var i :| 0 <= i < |s.deferred| && s.deferred[i] == (ctx, status);
      assert DeferredIds(s.deferred)[i] == ctx.id;
    case _ =>
  }

  /**
   * In every run: once a publish is over, the first step that tells the callback anything decides its
   * one outcome, with the data that was sent; before such a step it has none.
   */
  lemma ToldOnce(steps: seq<Step>, error: Error, more: seq<Step>, maxEntries: nat, id: nat)
    requires InHand(steps, maxEntries, id)
    ensures id < |Requests(steps)|
    ensures var r := Requests(steps)[id];
            forall status, data ::
              Outcome(id, status, data) in After(Run3(steps, error, more), maxEntries).finished
              <==> data == r.data && exists k :: FirstTold(steps, r, error, more, k, status)
  {
    EventsAreSent(steps, maxEntries);
    var s := After(steps, maxEntries);
    assert Matches(s.publisher.thread.event, Requests(steps));
    var ctx := ContextInHand(s);
    var r := Requests(steps)[id];
    FateIsKept(steps, maxEntries, ctx, r, error, more);
    var run := Run3(steps, error, more);
    hide IsAt, After, Run3, TellsAt;
    if forall j :: 0 <= j < |more| ==> TellsAt(steps, r, error, more, j) == None {
      OutcomesOf(run, maxEntries, ctx, FirstFate(r, error));
    } else {
      var k := FirstOf(steps, r, error, more, 0);
      var status := TellsAt(steps, r, error, more, k).value;
      assert FirstTold(steps, r, error, more, k, status);
      OutcomesOf(run, maxEntries, ctx, Ended(status));
      EndedHas(After(run, maxEntries), ctx, status);
    }
  }

  lemma EndedHas(s: Service, ctx: AckContext, status: Status)
    requires IsAt(s, ctx, Ended(status))
    ensures Outcome(ctx.id, status, ctx.data) in s.finished
  {
  }

  lemma {:induction false} FirstOf(steps: seq<Step>, r: Request, error: Error, more: seq<Step>, i: nat) returns (k: nat)
    requires i < |more| && forall j :: 0 <= j < i ==> TellsAt(steps, r, error, more, j) == None
    requires exists j :: i <= j < |more| && TellsAt(steps, r, error, more, j) != None
    ensures k < |more| && TellsAt(steps, r, error, more, k) != None
    ensures forall j :: 0 <= j < k ==> TellsAt(steps, r, error, more, j) == None
    decreases |more| - i
  {
    hide TellsAt;
    if TellsAt(steps, r, error, more, i) != None {
      k := i;
    } else {
      k := FirstOf(steps, r, error, more, i + 1);
    }
  }

  /* ---- In particular ---- */

  ghost predicate IsTold(steps: seq<Step>, error: Error, more: seq<Step>, maxEntries: nat, id: nat, status: Status, data: string)
  {
    Outcome(id, status, data) in After(Run3(steps, error, more), maxEntries).finished
  }

  predicate HasTick(more: seq<Step>)
  {
    exists k :: 0 <= k < |more| && more[k].Tick?
  }

  lemma FirstTick(steps: seq<Step>, r: Request, error: Error, more: seq<Step>, status: Status)
    requires forall step, last :: Tells(r, error, step, last) == if step.Tick? then Some(status) else None
    ensures HasTick(more) <==> exists k :: FirstTold(steps, r, error, more, k, status)
    ensures forall k, status' :: FirstTold(steps, r, error, more, k, status') ==> status' == status
  {
    hide Tells, Run3, LastTick;
    assert forall k :: 0 <= k < |more| ==> TellsAt(steps, r, error, more, k) == if more[k].Tick? then Some(status) else None;
    hide TellsAt;
    if HasTick(more) {
      var k := FirstOf(steps, r, error, more, 0);
      assert FirstTold(steps, r, error, more, k, status);
    }
  }

  /**
   * A send without a full ack that is published without error is told SUCCESS at the next tick, one
   * whose publish fails FAILURE, with its data and nothing else ever; a cancelled one is told nothing.
   */
  lemma PlainSendsAreTold(steps: seq<Step>, error: Error, more: seq<Step>, maxEntries: nat, id: nat, status: Status, data: string)
    requires InHand(steps, maxEntries, id)
    ensures id < |Requests(steps)|
    ensures var r := Requests(steps)[id];
            && (error == NONE && !r.fullAck ==>
                  (IsTold(steps, error, more, maxEntries, id, status, data) <==> status == SUCCESS && data == r.data && HasTick(more)))
            && (error != NONE && error != CANCELLED ==>
                  (IsTold(steps, error, more, maxEntries, id, status, data) <==> status == FAILURE && data == r.data && HasTick(more)))
            && (error == CANCELLED ==> !IsTold(steps, error, more, maxEntries, id, status, data))
  {
    ToldOnce(steps, error, more, maxEntries, id);
    var r := Requests(steps)[id];
    hide After, Run3, HasTick, Deadline, Requests, InHand;
    if error == CANCELLED {
      assert forall k :: !FirstTold(steps, r, error, more, k, status);
    } else if error != NONE {
      FirstTick(steps, r, error, more, FAILURE);
    } else if !r.fullAck {
      FirstTick(steps, r, error, more, SUCCESS);
    }
  }

  /** No success without the ack of its request id, after the publish, for a send that asked for a full ack. */
  lemma FullAckNeedsItsAck(steps: seq<Step>, more: seq<Step>, maxEntries: nat, id: nat, data: string)
    requires InHand(steps, maxEntries, id)
    ensures id < |Requests(steps)|
    ensures var r := Requests(steps)[id];
            r.fullAck && Ack(r.reqId) !in more ==> !IsTold(steps, NONE, more, maxEntries, id, SUCCESS, data)
  {
    ToldOnce(steps, NONE, more, maxEntries, id);
    var r := Requests(steps)[id];
    hide After, Run3, Deadline, Requests, LastTick, InHand;
    if r.fullAck && Ack(r.reqId) !in more {
      forall k ensures !FirstTold(steps, r, NONE, more, k, SUCCESS) {
        if 0 <= k < |more| { assert more[k] != Ack(r.reqId); }
      }
    }
  }

  /** The tick is the first of its second and past the deadline of the send. */
  predicate Overdue(steps: seq<Step>, r: Request, more: seq<Step>, k: nat)
    requires k < |more|
  {
    && more[k].Tick? && more[k].sec != LastTick(Run3(steps, NONE, more[..k]))
    && more[k].ms % WRAP > Deadline(r.ms, r.timeoutMs)
  }

  /** With its ack it has SUCCESS, past its deadline TIMEOUT, whichever comes first, and later steps change nothing. */
  lemma AckOrTimeout(steps: seq<Step>, more: seq<Step>, maxEntries: nat, id: nat, k: nat)
    requires InHand(steps, maxEntries, id) && k < |more|
    ensures id < |Requests(steps)|
    ensures var r := Requests(steps)[id];
            r.fullAck && (forall j :: 0 <= j < k ==> more[j] != Ack(r.reqId) && !Overdue(steps, r, more, j)) ==>
              && (more[k] == Ack(r.reqId) ==> IsTold(steps, NONE, more, maxEntries, id, SUCCESS, r.data))
              && (Overdue(steps, r, more, k) ==> IsTold(steps, NONE, more, maxEntries, id, TIMEOUT, r.data))
  {
    ToldOnce(steps, NONE, more, maxEntries, id);
    var r := Requests(steps)[id];
    hide After, Run3, Deadline, Requests, LastTick, InHand;
    if r.fullAck && (forall j :: 0 <= j < k ==> more[j] != Ack(r.reqId) && !Overdue(steps, r, more, j)) {
      forall j | 0 <= j < k ensures TellsAt(steps, r, NONE, more, j) == None { assert !Overdue(steps, r, more, j); }
      if more[k] == Ack(r.reqId) {
        assert FirstTold(steps, r, NONE, more, k, SUCCESS);
      } else if Overdue(steps, r, more, k) {
        assert FirstTold(steps, r, NONE, more, k, TIMEOUT);
      }
    }
  }
}
