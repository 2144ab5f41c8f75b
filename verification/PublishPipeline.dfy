/**
 * The publish pipeline: CloudService over BackgroundPublish, as atomic steps of the application, the
 * publisher thread and the cloud. Each region that holds a mutex is one step.
 */
module PublishPipeline {

  import opened Prelude

  datatype Error = NONE | INVALID_STATE | INVALID_ARGUMENT | BUSY | CANCELLED | PUBLISH_FAILED

  datatype Status = SUCCESS | FAILURE | TIMEOUT

  /** What a send keeps for its user callback; `id` tells the sends apart. */
  datatype AckContext = AckContext(id: nat, reqId: nat, timeout: nat, fullAck: bool, data: string)

  datatype Event = Event(name: string, data: string, callback: Option<AckContext>)

  /** Where the publisher thread is: between polls, before queue `next` of a scan, or waiting for a publish. */
  datatype Thread = Idle | Scanning(now: nat, next: nat) | Publishing(event: Event)

  /** BackgroundPublish: its queues, and the thread with its ring of recent publish times. */
  datatype Publisher = Publisher(queues: seq<seq<Event>>, running: bool, thread: Thread, ring: seq<nat>, slot: nat)

  /** One run of a user callback. */
  datatype Outcome = Outcome(id: nat, status: Status, data: string)

  datatype Service = Service(
    publisher: Publisher,
    acks: seq<AckContext>,
    deferred: seq<(AckContext, Status)>,
    nextReqId: nat,
    lastTickSec: nat,
    // The history: user callbacks run, sends cancelled, and the number of sends with a callback.
    finished: seq<Outcome>,
    cancelled: seq<nat>,
    issued: nat)

  const NUM_QUEUES: nat := 2
  const BURST_RATE: nat := 2
  const PROCESS_INTERVAL: nat := 1000

  const FRESH_RING: seq<nat> := [0, 0]

  function Init(): Service
  {
    Service(Publisher([[], []], false, Idle, FRESH_RING, 0), [], [], 1, 0, [], [], 0)
  }

  /* ---- BackgroundPublish ---- */

  /** NONE when `publish` takes the event, else the error it reports. */
  function Rejection(p: Publisher, priority: nat, maxEntries: nat): Error
  {
    if !p.running then INVALID_STATE
    else if priority >= |p.queues| then INVALID_ARGUMENT
    else if |p.queues[priority]| >= maxEntries then BUSY
    else NONE
  }

  function Enqueued(p: Publisher, priority: nat, e: Event): Publisher
    requires priority < |p.queues|
  {
    p.(queues := p.queues[priority := p.queues[priority] + [e]])
  }

  /** `now - publish_t[i] >= process_interval` on 32-bit ticks. */
  predicate IntervalPassed(p: Publisher, now: nat)
    requires p.slot < |p.ring|
  {
    Since(now % WRAP, p.ring[p.slot]) >= PROCESS_INTERVAL
  }

  predicate WellFormed(p: Publisher)
  {
    |p.ring| == BURST_RATE && p.slot < BURST_RATE && |p.queues| == NUM_QUEUES
  }

  /** The thread reads the clock and starts a scan if its oldest publish is long enough ago. */
  function Polled(p: Publisher, now: nat): Publisher
    requires WellFormed(p)
  {
    if p.thread.Idle? && p.running && IntervalPassed(p, now) then p.(thread := Scanning(now, 0)) else p
  }

  /** The thread looks at one queue under the mutex: on to the next one, or out with its front. */
  function Checked(p: Publisher): Publisher
    requires WellFormed(p)
  {
    if !p.thread.Scanning? then p
    else
      var q := p.thread.next;
      if q >= |p.queues| then p.(thread := Idle)
      else if p.queues[q] == [] then p.(thread := Scanning(p.thread.now, q + 1))
      else p.(ring := p.ring[p.slot := p.thread.now % WRAP], slot := (p.slot + 1) % BURST_RATE,
              queues := p.queues[q := p.queues[q][1..]], thread := Publishing(p.queues[q][0]))
  }

  /* ---- CloudService ---- */

  /** The completion callback of a send, run with the publisher's verdict. */
  function Completed(s: Service, ctx: AckContext, error: Error): Service
  {
    if error == NONE then
      if ctx.fullAck then s.(acks := s.acks + [ctx]) else s.(deferred := s.deferred + [(ctx, SUCCESS)])
    else if error != CANCELLED then s.(deferred := s.deferred + [(ctx, FAILURE)])
    else s.(cancelled := s.cancelled + [ctx.id])
  }

  /** `millis() + timeout_ms`, saturating at the largest tick. */
  function Deadline(ms: nat, timeoutMs: nat): nat
  {
    var t := (ms % WRAP + timeoutMs) % WRAP;
    if t < timeoutMs then WRAP - 1 else t
  }

  /** A send to be published: its event, flags and times. */
  datatype Request = Request(
    name: Option<string>, data: string, reqId: nat, hasCallback: bool, fullAck: bool, timeoutMs: nat, priority: nat, ms: nat)

  datatype SendResult = Sent | Busy | NoEventName | NoSpace | EmptyCallbackCalled

  /**
   * `send` of finished data, whose event name and request id may come from the data itself. A rejected
   * publish calls the completion callback at once, even if there is none to call.
   */
  function SentData(s: Service, r: Request, maxEntries: nat): (Service, SendResult)
  {
    if r.name.None? then (s, NoEventName)
    else
      var p := s.publisher;
      var rejection := Rejection(p, r.priority, maxEntries);
      if !r.hasCallback then
        if rejection != NONE then (s, EmptyCallbackCalled)
        else (s.(publisher := Enqueued(p, r.priority, Event(r.name.value, r.data, None))), Sent)
      else
        var ctx := AckContext(s.issued, r.reqId, Deadline(r.ms, r.timeoutMs), r.fullAck, r.data);
        var s' := s.(issued := s.issued + 1);
        if rejection != NONE then (Completed(s', ctx, rejection), Busy)
        else (s'.(publisher := Enqueued(p, r.priority, Event(r.name.value, r.data, Some(ctx)))), Sent)
  }

  function NextReqId(id: nat): nat
  {
    if (id + 1) % WRAP == 0 then 1 else (id + 1) % WRAP
  }

  /** `send` of the command in the buffer: takes a request id if it wants an ack, and has to fit. */
  function SentCommand(s: Service, r: Request, fits: bool, maxEntries: nat): (Service, SendResult)
  {
    var wantsId := r.hasCallback && r.fullAck;
    var s' := if wantsId then s.(nextReqId := NextReqId(s.nextReqId)) else s;
    if !fits then (s', NoSpace)
    else SentData(s', r.(reqId := if wantsId then s.nextReqId else 0), maxEntries)
  }

  /** The publish that the thread waits for is over. */
  function PublishDone(s: Service, error: Error): Service
  {
    if !s.publisher.thread.Publishing? then s
    else
      var callback := s.publisher.thread.event.callback;
      var s' := s.(publisher := s.publisher.(thread := Idle));
      if callback.Some? then Completed(s', callback.value, error) else s'
  }

  function Due(acks: seq<AckContext>, ms: nat): seq<Outcome>
  {
    if acks == [] then []
    else (if ms > acks[0].timeout then [Outcome(acks[0].id, TIMEOUT, acks[0].data)] else []) + Due(acks[1..], ms)
  }

  function NotDue(acks: seq<AckContext>, ms: nat): seq<AckContext>
  {
    if acks == [] then [] else (if ms > acks[0].timeout then [] else [acks[0]]) + NotDue(acks[1..], ms)
  }

  lemma DueUnfolds(acks: seq<AckContext>, ms: nat)
    ensures acks == [] ==> Due(acks, ms) == [] && NotDue(acks, ms) == []
    ensures acks != [] && ms > acks[0].timeout ==>
              Due(acks, ms) == [Outcome(acks[0].id, TIMEOUT, acks[0].data)] + Due(acks[1..], ms) && NotDue(acks, ms) == NotDue(acks[1..], ms)
    ensures acks != [] && ms <= acks[0].timeout ==>
              Due(acks, ms) == Due(acks[1..], ms) && NotDue(acks, ms) == [acks[0]] + NotDue(acks[1..], ms)
  {
  }

  function Run(deferred: seq<(AckContext, Status)>): seq<Outcome>
  {
    if deferred == [] then []
    else [Outcome(deferred[0].0.id, deferred[0].1, deferred[0].0.data)] + Run(deferred[1..])
  }

  /** `tick`: once a second the timeouts, every time the deferred callbacks. */
  function Ticked(s: Service, sec: nat, ms: nat): Service
  {
    var s' := if sec != s.lastTickSec
              then s.(lastTickSec := sec, finished := s.finished + Due(s.acks, ms % WRAP), acks := NotDue(s.acks, ms % WRAP))
              else s;
    s'.(finished := s'.finished + Run(s'.deferred), deferred := [])
  }

  function Acknowledged(acks: seq<AckContext>, reqId: nat): seq<Outcome>
  {
    if acks == [] then []
    else (if acks[0].reqId == reqId then [Outcome(acks[0].id, SUCCESS, acks[0].data)] else []) + Acknowledged(acks[1..], reqId)
  }

  function Unacknowledged(acks: seq<AckContext>, reqId: nat): seq<AckContext>
  {
    if acks == [] then []
    else (if acks[0].reqId == reqId then [] else [acks[0]]) + Unacknowledged(acks[1..], reqId)
  }

  lemma AcknowledgedUnfolds(acks: seq<AckContext>, id: nat)
    ensures acks == [] ==> Acknowledged(acks, id) == [] && Unacknowledged(acks, id) == []
    ensures acks != [] && acks[0].reqId == id ==>
              Acknowledged(acks, id) == [Outcome(acks[0].id, SUCCESS, acks[0].data)] + Acknowledged(acks[1..], id)
              && Unacknowledged(acks, id) == Unacknowledged(acks[1..], id)
    ensures acks != [] && acks[0].reqId != id ==>
              Acknowledged(acks, id) == Acknowledged(acks[1..], id)
              && Unacknowledged(acks, id) == [acks[0]] + Unacknowledged(acks[1..], id)
  {
  }

  /** An ack command from the cloud. */
  function Acked(s: Service, reqId: nat): Service
  {
    s.(finished := s.finished + Acknowledged(s.acks, reqId), acks := Unacknowledged(s.acks, reqId))
  }

  /** `start`: a new thread, whose ring of publish times is empty again. */
  function Started(s: Service): Service
  {
    if s.publisher.running || !s.publisher.thread.Idle? then s
    else s.(publisher := s.publisher.(running := true, ring := FRESH_RING, slot := 0))
  }

  function CallbackIds(events: seq<Event>): seq<nat>
  {
    if events == [] then []
    else (if events[0].callback.Some? then [events[0].callback.value.id] else []) + CallbackIds(events[1..])
  }

  function CallbackIdsAll(queues: seq<seq<Event>>): seq<nat>
  {
    if queues == [] then [] else CallbackIds(queues[0]) + CallbackIdsAll(queues[1..])
  }

  lemma CallbackIdsUnfolds(events: seq<Event>)
    ensures events == [] ==> CallbackIds(events) == []
    ensures events != [] && events[0].callback.Some? ==>
              CallbackIds(events) == [events[0].callback.value.id] + CallbackIds(events[1..])
    ensures events != [] && events[0].callback.None? ==> CallbackIds(events) == CallbackIds(events[1..])
  {
  }

  lemma CallbackIdsAllUnfolds(queues: seq<seq<Event>>)
    ensures queues == [] ==> CallbackIdsAll(queues) == []
    ensures queues != [] ==> CallbackIdsAll(queues) == CallbackIds(queues[0]) + CallbackIdsAll(queues[1..])
  {
  }

  /** The end of `stop`, once the thread has been joined: every queued event is cancelled. */
  function CleanedUp(s: Service): Service
  {
    if s.publisher.running || !s.publisher.thread.Idle? then s
    else s.(cancelled := s.cancelled + CallbackIdsAll(s.publisher.queues),
            publisher := s.publisher.(queues := seq(|s.publisher.queues|, _ => [])))
  }

  /* ---- Runs ---- */

  datatype Step =
    | SendData(request: Request)
    | SendCommand(request: Request, fits: bool)
    | Start
    | StopRunning
    | Cleanup
    | Poll(now: nat)
    | Check
    | Done(error: Error)
    | Tick(sec: nat, ms: nat)
    | Ack(reqId: nat)

  function Next(s: Service, step: Step, maxEntries: nat): Service
    requires WellFormed(s.publisher)
  {
    match step
    case SendData(r) => SentData(s, r, maxEntries).0
    case SendCommand(r, fits) => SentCommand(s, r, fits, maxEntries).0
    case Start => Started(s)
    case StopRunning => s.(publisher := s.publisher.(running := false))
    case Cleanup => CleanedUp(s)
    case Poll(now) => s.(publisher := Polled(s.publisher, now))
    case Check => s.(publisher := Checked(s.publisher))
    case Done(error) => PublishDone(s, error)
    case Tick(sec, ms) => Ticked(s, sec, ms)
    case Ack(reqId) => Acked(s, reqId)
  }

  lemma NextKeepsShape(s: Service, step: Step, maxEntries: nat)
    requires WellFormed(s.publisher)
    ensures WellFormed(Next(s, step, maxEntries).publisher)
  {
  }

  function After(steps: seq<Step>, maxEntries: nat): (s: Service)
    ensures WellFormed(s.publisher)
  {
    if steps == [] then Init()
    else
      var s := After(steps[..|steps| - 1], maxEntries);
      NextKeepsShape(s, steps[|steps| - 1], maxEntries);
      Next(s, steps[|steps| - 1], maxEntries)
  }
}
