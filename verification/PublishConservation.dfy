/** Every send with a callback is in exactly one place, and its callback runs at most once. */
module PublishConservation {
  import opened Prelude
  import opened PublishPipeline

  function InFlight(t: Thread): seq<nat>
  {
    if t.Publishing? && t.event.callback.Some? then [t.event.callback.value.id] else []
  }

  function AckIds(acks: seq<AckContext>): seq<nat>
  {
    seq(|acks|, i requires 0 <= i < |acks| => acks[i].id)
  }

  function DeferredIds(deferred: seq<(AckContext, Status)>): seq<nat>
  {
    seq(|deferred|, i requires 0 <= i < |deferred| => deferred[i].0.id)
  }

  function OutcomeIds(outcomes: seq<Outcome>): seq<nat>
  {
    seq(|outcomes|, i requires 0 <= i < |outcomes| => outcomes[i].id)
  }

  /** Queued, being published, waiting for an ack, deferred, finished, cancelled. */
  function Places(s: Service): multiset<nat>
  {
    multiset(CallbackIdsAll(s.publisher.queues)) + multiset(InFlight(s.publisher.thread))
    + multiset(AckIds(s.acks)) + multiset(DeferredIds(s.deferred))
    + multiset(OutcomeIds(s.finished)) + multiset(s.cancelled)
  }

  function IdsBelow(n: nat): multiset<nat>
  {
    if n == 0 then multiset{} else IdsBelow(n - 1) + multiset{n - 1}
  }

  lemma {:induction false} EachIdOnce(n: nat, id: nat)
    ensures IdsBelow(n)[id] == if id < n then 1 else 0
  {
    if n > 0 { EachIdOnce(n - 1, id); }
  }

  /* ---- Sequences of ids ---- */

  lemma {:induction false} CallbackIdsAppend(events: seq<Event>, e: Event)
    ensures CallbackIds(events + [e]) == CallbackIds(events) + (if e.callback.Some? then [e.callback.value.id] else [])
  {
    if events == [] {
      assert events + [e] == [e] && [e][1..] == [];
    } else {
      CallbackIdsAppend(events[1..], e);
      assert (events + [e])[1..] == events[1..] + [e];
    }
  }

  lemma {:induction false} ReplaceQueue(queues: seq<seq<Event>>, q: nat, queue: seq<Event>)
    requires q < |queues|
    ensures multiset(CallbackIdsAll(queues[q := queue])) + multiset(CallbackIds(queues[q]))
            == multiset(CallbackIdsAll(queues)) + multiset(CallbackIds(queue))
  {
    if q == 0 {
      assert queues[q := queue][1..] == queues[1..];
    } else {
      ReplaceQueue(queues[1..], q - 1, queue);
      var queues' := queues[q := queue];
      assert queues'[1..] == queues[1..][q - 1 := queue] && queues'[0] == queues[0];
      assert CallbackIdsAll(queues') == CallbackIds(queues[0]) + CallbackIdsAll(queues'[1..]);
      assert CallbackIdsAll(queues) == CallbackIds(queues[0]) + CallbackIdsAll(queues[1..]);
      assert queues[1..][q - 1] == queues[q];
      Prepend(multiset(CallbackIds(queues[0])), multiset(CallbackIdsAll(queues'[1..])), multiset(CallbackIds(queues[q])),
              multiset(CallbackIdsAll(queues[1..])), multiset(CallbackIds(queue)));
    }
  }

  lemma Prepend(first: multiset<nat>, a': multiset<nat>, b: multiset<nat>, a: multiset<nat>, x: multiset<nat>)
    requires a' + b == a + x
    ensures first + a' + b == first + a + x
  {
    forall i ensures (first + a' + b)[i] == (first + a + x)[i] {
      assert (a' + b)[i] == (a + x)[i];
    }
  }

  lemma {:induction false} NoQueuesNoIds(n: nat)
    ensures CallbackIdsAll(seq(n, _ => [])) == []
  {
    if n > 0 {
      NoQueuesNoIds(n - 1);
      var s: seq<seq<Event>> := seq(n, _ => []);
      assert s[1..] == seq(n - 1, _ => []);
    }
  }

  lemma {:induction false} DueSplits(acks: seq<AckContext>, ms: nat)
    ensures multiset(OutcomeIds(Due(acks, ms))) + multiset(AckIds(NotDue(acks, ms))) == multiset(AckIds(acks))
  {
    if acks != [] {
      DueSplits(acks[1..], ms);
      FirstOfEach(acks, Due(acks[1..], ms), NotDue(acks[1..], ms), TIMEOUT);
    }
  }

  lemma {:induction false} AckSplits(acks: seq<AckContext>, reqId: nat)
    ensures multiset(OutcomeIds(Acknowledged(acks, reqId))) + multiset(AckIds(Unacknowledged(acks, reqId))) == multiset(AckIds(acks))
  {
    if acks != [] {
      AckSplits(acks[1..], reqId);
      FirstOfEach(acks, Acknowledged(acks[1..], reqId), Unacknowledged(acks[1..], reqId), SUCCESS);
    }
  }

  lemma FirstOfEach(acks: seq<AckContext>, outcomes: seq<Outcome>, rest: seq<AckContext>, status: Status)
    requires acks != []
    ensures OutcomeIds([Outcome(acks[0].id, status, acks[0].data)] + outcomes) == [acks[0].id] + OutcomeIds(outcomes)
    ensures AckIds([acks[0]] + rest) == [acks[0].id] + AckIds(rest)
    ensures AckIds(acks) == [acks[0].id] + AckIds(acks[1..])
    ensures [] + outcomes == outcomes && [] + rest == rest
  {
  }

  lemma {:induction false} RunIds(deferred: seq<(AckContext, Status)>)
    ensures OutcomeIds(Run(deferred)) == DeferredIds(deferred)
  {
    if deferred != [] {
      RunIds(deferred[1..]);
      var first := Outcome(deferred[0].0.id, deferred[0].1, deferred[0].0.data);
      assert OutcomeIds([first] + Run(deferred[1..])) == [first.id] + OutcomeIds(Run(deferred[1..]));
      assert DeferredIds(deferred) == [deferred[0].0.id] + DeferredIds(deferred[1..]);
    }
  }

  lemma OutcomeIdsConcat(a: seq<Outcome>, b: seq<Outcome>)
    ensures OutcomeIds(a + b) == OutcomeIds(a) + OutcomeIds(b)
  {
  }

  /* ---- Steps ---- */

  /** The six places as multisets, in the order of Places. */
  function Total(a: multiset<nat>, b: multiset<nat>, c: multiset<nat>, d: multiset<nat>, e: multiset<nat>, f: multiset<nat>): multiset<nat>
  {
    a + b + c + d + e + f
  }

  lemma PlacesTotal(s: Service)
    ensures Places(s) == Total(multiset(CallbackIdsAll(s.publisher.queues)), multiset(InFlight(s.publisher.thread)),
                               multiset(AckIds(s.acks)), multiset(DeferredIds(s.deferred)),
                               multiset(OutcomeIds(s.finished)), multiset(s.cancelled))
  {
  }

  lemma OneMore(a: multiset<nat>, b: multiset<nat>, c: multiset<nat>, d: multiset<nat>, e: multiset<nat>, f: multiset<nat>, x: multiset<nat>)
    ensures Total(a + x, b, c, d, e, f) == Total(a, b + x, c, d, e, f) == Total(a, b, c + x, d, e, f)
            == Total(a, b, c, d + x, e, f) == Total(a, b, c, d, e, f + x) == Total(a, b, c, d, e, f) + x
  {
  }

  lemma CompletedKeeps(s: Service, ctx: AckContext, error: Error)
    ensures Places(Completed(s, ctx, error)) == Places(s) + multiset{ctx.id}
  {
    hide Places, Total, CallbackIdsAll, InFlight, AckIds, DeferredIds, OutcomeIds;
    var s' := Completed(s, ctx, error);
    PlacesTotal(s);
    PlacesTotal(s');
    OneMore(multiset(CallbackIdsAll(s.publisher.queues)), multiset(InFlight(s.publisher.thread)), multiset(AckIds(s.acks)),
            multiset(DeferredIds(s.deferred)), multiset(OutcomeIds(s.finished)), multiset(s.cancelled), multiset{ctx.id});
    AckIdsAppend(s.acks, ctx);
    DeferredIdsAppend(s.deferred, ctx, SUCCESS);
    DeferredIdsAppend(s.deferred, ctx, FAILURE);
  }

  lemma AckIdsAppend(acks: seq<AckContext>, ctx: AckContext)
    ensures AckIds(acks + [ctx]) == AckIds(acks) + [ctx.id]
  {
  }

  lemma DeferredIdsAppend(deferred: seq<(AckContext, Status)>, ctx: AckContext, status: Status)
    ensures DeferredIds(deferred + [(ctx, status)]) == DeferredIds(deferred) + [ctx.id]
  {
  }

  /** Changing the queues and the thread only: what they hold together is what counts. */
  lemma PublisherKeeps(s: Service, p: Publisher, x: multiset<nat>)
    requires multiset(CallbackIdsAll(p.queues)) + multiset(InFlight(p.thread))
             == multiset(CallbackIdsAll(s.publisher.queues)) + multiset(InFlight(s.publisher.thread)) + x
    ensures Places(s.(publisher := p)) == Places(s) + x
  {
  }

  lemma EnqueuedKeeps(s: Service, priority: nat, e: Event)
    requires priority < |s.publisher.queues|
    ensures Places(s.(publisher := Enqueued(s.publisher, priority, e)))
            == Places(s) + (if e.callback.Some? then multiset{e.callback.value.id} else multiset{})
  {
    hide Places, CallbackIds, CallbackIdsAll;
    var queues, x := s.publisher.queues, if e.callback.Some? then [e.callback.value.id] else [];
    var queue := queues[priority] + [e];
    ReplaceQueue(queues, priority, queue);
    CallbackIdsAppend(queues[priority], e);
    MoreInOne(multiset(CallbackIdsAll(queues[priority := queue])), multiset(CallbackIds(queues[priority])),
              multiset(CallbackIdsAll(queues)), multiset(x), multiset(InFlight(s.publisher.thread)));
    PublisherKeeps(s, Enqueued(s.publisher, priority, e), multiset(x));
  }

  lemma MoreInOne(all': multiset<nat>, one: multiset<nat>, all: multiset<nat>, x: multiset<nat>, thread: multiset<nat>)
    requires all' + one == all + (one + x)
    ensures all' + thread == all + thread + x
  {
    forall i ensures (all' + thread)[i] == (all + thread + x)[i] {
      assert (all' + one)[i] == (all + (one + x))[i];
    }
  }

  lemma CheckedKeeps(s: Service)
    requires WellFormed(s.publisher)
    ensures Places(s.(publisher := Checked(s.publisher))) == Places(s)
  {
    hide Places, CallbackIdsAll;
    var p := s.publisher;
    if p.thread.Scanning? && p.thread.next < |p.queues| && p.queues[p.thread.next] != [] {
      var q := p.thread.next;
      var event, rest := p.queues[q][0], p.queues[q][1..];
      ReplaceQueue(p.queues, q, rest);
      var x := if event.callback.Some? then [event.callback.value.id] else [];
      assert CallbackIds(p.queues[q]) == x + CallbackIds(rest);
      LessInOne(multiset(CallbackIdsAll(p.queues[q := rest])), multiset(CallbackIds(rest)), multiset(CallbackIdsAll(p.queues)), multiset(x));
    }
    PublisherKeeps(s, Checked(p), multiset{});
    NothingAdded(Places(s));
  }

  lemma NothingAdded(m: multiset<nat>)
    ensures m + multiset{} == m
  {
  }

  lemma LessInOne(all': multiset<nat>, rest: multiset<nat>, all: multiset<nat>, x: multiset<nat>)
    requires all' + (x + rest) == all + rest
    ensures all' + x == all + multiset{} + multiset{}
  {
    forall i ensures (all' + x)[i] == (all + multiset{} + multiset{})[i] {
      assert (all' + (x + rest))[i] == (all + rest)[i];
    }
  }

  lemma SentDataKeeps(s: Service, r: Request, maxEntries: nat)
    ensures var s' := SentData(s, r, maxEntries).0;
            && s'.issued == (if r.name.Some? && r.hasCallback then s.issued + 1 else s.issued)
            && Places(s') == Places(s) + (if r.name.Some? && r.hasCallback then multiset{s.issued} else multiset{})
  {
    if r.name.Some? {
      var rejection := Rejection(s.publisher, r.priority, maxEntries);
      var ctx := AckContext(s.issued, r.reqId, Deadline(r.ms, r.timeoutMs), r.fullAck, r.data);
      var s' := s.(issued := s.issued + 1);
      CompletedKeeps(s', ctx, rejection);
      if rejection == NONE {
        EnqueuedKeeps(s', r.priority, Event(r.name.value, r.data, Some(ctx)));
        EnqueuedKeeps(s, r.priority, Event(r.name.value, r.data, None));
      }
    }
  }

  lemma TickedKeeps(s: Service, sec: nat, ms: nat)
    ensures Places(Ticked(s, sec, ms)) == Places(s)
  {
    hide Due, NotDue, Run, OutcomeIds, AckIds, InFlight, CallbackIdsAll;
    DueSplits(s.acks, ms % WRAP);
    RunIds(s.deferred);
    OutcomeIdsConcat(s.finished, Due(s.acks, ms % WRAP));
    OutcomeIdsConcat(s.finished, Run(s.deferred));
    OutcomeIdsConcat(s.finished + Due(s.acks, ms % WRAP), Run(s.deferred));
  }

  lemma AckedKeeps(s: Service, reqId: nat)
    ensures Places(Acked(s, reqId)) == Places(s)
  {
    AckSplits(s.acks, reqId);
    OutcomeIdsConcat(s.finished, Acknowledged(s.acks, reqId));
  }

  lemma DoneKeeps(s: Service, error: Error)
    ensures Places(PublishDone(s, error)) == Places(s)
  {
    if s.publisher.thread.Publishing? {
      hide Places, CallbackIdsAll;
      var p := s.publisher.(thread := Idle);
      var callback := s.publisher.thread.event.callback;
      if callback.Some? {
        CompletedKeeps(s.(publisher := p), callback.value, error);
        PublisherKeeps(s.(publisher := p), s.publisher, multiset{callback.value.id});
        assert s.(publisher := p).(publisher := s.publisher) == s;
      } else {
        PublisherKeeps(s, p, multiset{});
        NothingAdded(Places(s));
      }
    }
  }

  lemma CleanedUpKeeps(s: Service)
    ensures Places(CleanedUp(s)) == Places(s)
  {
    NoQueuesNoIds(|s.publisher.queues|);
  }

  lemma SentCommandKeeps(s: Service, r: Request, fits: bool, maxEntries: nat)
    requires Places(s) == IdsBelow(s.issued)
    ensures var s' := SentCommand(s, r, fits, maxEntries).0; Places(s') == IdsBelow(s'.issued)
  {
    hide Places, SentData;
    var s' := s.(nextReqId := NextReqId(s.nextReqId));
    SamePlaces(s, s');
    SentDataKeeps(s, r.(reqId := 0), maxEntries);
    SentDataKeeps(s', r.(reqId := s.nextReqId), maxEntries);
  }

  /** No step loses a callback or makes a second one of it; only a send makes a new one. */
  lemma NextKeeps(s: Service, step: Step, maxEntries: nat)
    requires WellFormed(s.publisher) && Places(s) == IdsBelow(s.issued)
    ensures var s' := Next(s, step, maxEntries); Places(s') == IdsBelow(s'.issued)
  {
    hide Places, Checked, Polled, Ticked, Acked, CleanedUp, PublishDone, SentData, SentCommand;
    match step
    case SendData(r) =>
      SentDataKeeps(s, r, maxEntries);
    case SendCommand(r, fits) =>
      SentCommandKeeps(s, r, fits, maxEntries);
    case Start => SamePlaces(s, Started(s));
    case StopRunning => SamePlaces(s, Next(s, step, maxEntries));
    case Cleanup => CleanedUpKeeps(s); CleanedUpIssues(s);
    case Poll(now) => PolledKeeps(s, now);
    case Check => CheckedKeeps(s);
    case Done(error) => DoneKeeps(s, error); DoneIssues(s, error);
    case Tick(sec, ms) => TickedKeeps(s, sec, ms); TickedIssues(s, sec, ms);
    case Ack(reqId) => AckedKeeps(s, reqId); AckedIssues(s, reqId);
  }

  lemma SamePlaces(s: Service, s': Service)
    requires s'.publisher.queues == s.publisher.queues && s'.publisher.thread == s.publisher.thread
    requires s'.acks == s.acks && s'.deferred == s.deferred && s'.finished == s.finished && s'.cancelled == s.cancelled
    ensures Places(s') == Places(s)
  {
  }

  lemma PolledKeeps(s: Service, now: nat)
    requires WellFormed(s.publisher)
    ensures Places(s.(publisher := Polled(s.publisher, now))) == Places(s)
  {
  }

  lemma CleanedUpIssues(s: Service) ensures CleanedUp(s).issued == s.issued {}
  lemma DoneIssues(s: Service, error: Error) ensures PublishDone(s, error).issued == s.issued {}
  lemma TickedIssues(s: Service, sec: nat, ms: nat) ensures Ticked(s, sec, ms).issued == s.issued {}
  lemma AckedIssues(s: Service, reqId: nat) ensures Acked(s, reqId).issued == s.issued {}

  /** Over every run each send with a callback is in exactly one place, and nothing else is anywhere. */
  lemma {:induction false} Conserved(steps: seq<Step>, maxEntries: nat)
    ensures var s := After(steps, maxEntries); Places(s) == IdsBelow(s.issued)
  {
    if steps != [] {
      Conserved(steps[..|steps| - 1], maxEntries);
      NextKeeps(After(steps[..|steps| - 1], maxEntries), steps[|steps| - 1], maxEntries);
    }
  }

  /** The number of times the user callback of a send has run. */
  function Runs(s: Service, id: nat): nat
  {
    multiset(OutcomeIds(s.finished))[id]
  }

  /** Not finished and not cancelled: still in a queue, with the thread, waiting for an ack, or deferred. */
  predicate Pending(s: Service, id: nat)
  {
    id in CallbackIdsAll(s.publisher.queues) || id in InFlight(s.publisher.thread) || id in AckIds(s.acks) || id in DeferredIds(s.deferred)
  }

  /** No user callback ever runs twice, none runs for a cancelled or pending send, and nothing is forgotten. */
  lemma AtMostOnce(steps: seq<Step>, maxEntries: nat, id: nat)
    ensures var s := After(steps, maxEntries);
            && Runs(s, id) <= 1
            && (id < s.issued ==> (Runs(s, id) == 1 <==> !Pending(s, id) && id !in s.cancelled))
            && (id >= s.issued ==> Runs(s, id) == 0)
  {
    var s := After(steps, maxEntries);
    Conserved(steps, maxEntries);
    EachIdOnce(s.issued, id);
    var a, b, c, d := multiset(CallbackIdsAll(s.publisher.queues)), multiset(InFlight(s.publisher.thread)),
                      multiset(AckIds(s.acks)), multiset(DeferredIds(s.deferred));
    var e, f := multiset(OutcomeIds(s.finished)), multiset(s.cancelled);
    assert Places(s)[id] == a[id] + b[id] + c[id] + d[id] + e[id] + f[id];
    assert Pending(s, id) <==> a[id] + b[id] + c[id] + d[id] > 0;
    assert id in s.cancelled <==> f[id] > 0;
  }

  lemma {:induction false} NotDueIsWaiting(acks: seq<AckContext>, ms: nat, id: nat)
    requires forall i :: 0 <= i < |acks| && acks[i].id == id ==> acks[i].timeout < ms
    ensures id !in AckIds(NotDue(acks, ms))
  {
    if acks != [] {
      NotDueIsWaiting(acks[1..], ms, id);
      var rest := NotDue(acks[1..], ms);
      assert AckIds([acks[0]] + rest) == [acks[0].id] + AckIds(rest);
      assert [] + rest == rest;
    }
  }

  /**
   * Once the publisher is done with a send, the first tick of a new second after its timeout has run
   * its callback, exactly once.
   */
  lemma TickPastTimeoutFinishes(steps: seq<Step>, maxEntries: nat, sec: nat, ms: nat, id: nat)
    requires var s := After(steps, maxEntries);
             && sec != s.lastTickSec && id < s.issued && id !in s.cancelled
             && id !in CallbackIdsAll(s.publisher.queues) && id !in InFlight(s.publisher.thread)
             && forall i :: 0 <= i < |s.acks| && s.acks[i].id == id ==> s.acks[i].timeout < ms % WRAP
    ensures Runs(After(steps + [Tick(sec, ms)], maxEntries), id) == 1
  {
    var s := After(steps, maxEntries);
    var steps' := steps + [Tick(sec, ms)];
    assert steps'[..|steps|] == steps;
    var s' := After(steps', maxEntries);
    assert s' == Ticked(s, sec, ms);
    AtMostOnce(steps', maxEntries, id);
    NotDueIsWaiting(s.acks, ms % WRAP, id);
  }

  lemma {:induction false} NotDueFilters(acks: seq<AckContext>, ms: nat, ctx: AckContext)
    ensures ctx in NotDue(acks, ms) <==> ctx in acks && ms <= ctx.timeout
  {
    if acks != [] {
      NotDueFilters(acks[1..], ms, ctx);
      assert ctx in acks <==> ctx == acks[0] || ctx in acks[1..];
    }
  }

  /** The deadline saturates exactly when the timeout reaches past the clock's last value. */
  lemma DeadlineSaturates(ms: nat, timeoutMs: nat)
    requires timeoutMs < WRAP
    ensures Deadline(ms, timeoutMs) < WRAP
    ensures Deadline(ms, timeoutMs) == WRAP - 1 <==> ms % WRAP + timeoutMs >= WRAP - 1
    ensures ms % WRAP + timeoutMs < WRAP ==> Deadline(ms, timeoutMs) == ms % WRAP + timeoutMs
  {
  }

  /** A handler waiting for its ack outlives every tick exactly when its deadline is saturated: the clock never exceeds it. */
  lemma SaturatedNeverTimesOut(s: Service, ctx: AckContext)
    requires ctx in s.acks
    ensures (forall sec: nat, ms: nat :: ctx in Ticked(s, sec, ms).acks) <==> ctx.timeout >= WRAP - 1
  {
    forall sec: nat, ms: nat ensures ctx in Ticked(s, sec, ms).acks <==> sec == s.lastTickSec || ms % WRAP <= ctx.timeout {
      NotDueFilters(s.acks, ms % WRAP, ctx);
    }
    assert ctx in Ticked(s, s.lastTickSec + 1, WRAP - 1).acks <==> WRAP - 1 <= ctx.timeout;
  }

  /** A send turned down by the publisher has failed, and the next tick tells its callback so. */
  lemma RejectionIsOneFailure(s: Service, r: Request, maxEntries: nat, sec: nat, ms: nat)
    requires r.name.Some? && r.hasCallback && Rejection(s.publisher, r.priority, maxEntries) != NONE
    ensures var (s', result) := SentData(s, r, maxEntries);
            && result == Busy && s'.publisher == s.publisher && s'.acks == s.acks && s'.finished == s.finished
            && var f := Ticked(s', sec, ms).finished;
            f != [] && f[|f| - 1] == Outcome(s.issued, FAILURE, r.data)
  {
    var ctx := AckContext(s.issued, r.reqId, Deadline(r.ms, r.timeoutMs), r.fullAck, r.data);
    RunLast(s.deferred, ctx, FAILURE);
  }

  /** In every run the callback of such a send runs once, and never again. */
  lemma RejectionFailsOnce(steps: seq<Step>, r: Request, maxEntries: nat, sec: nat, ms: nat, more: seq<Step>)
    requires r.name.Some? && r.hasCallback && Rejection(After(steps, maxEntries).publisher, r.priority, maxEntries) != NONE
    ensures var id, told := After(steps, maxEntries).issued, steps + [SendData(r), Tick(sec, ms)];
            && Outcome(id, FAILURE, r.data) in After(told, maxEntries).finished
            && Runs(After(told, maxEntries), id) == 1
            && Runs(After(told + more, maxEntries), id) <= 1
  {
    var s, sent := After(steps, maxEntries), steps + [SendData(r)];
    var told := sent + [Tick(sec, ms)];
    assert sent[..|steps|] == steps && told[..|sent|] == sent && told == steps + [SendData(r), Tick(sec, ms)];
    var s' := After(told, maxEntries);
    assert After(sent, maxEntries) == SentData(s, r, maxEntries).0;
    assert s' == Ticked(After(sent, maxEntries), sec, ms);
    hide After, Ticked, SentData;
    RejectionIsOneFailure(s, r, maxEntries, sec, ms);
    AtMostOnce(told, maxEntries, s.issued);
    AtMostOnce(told + more, maxEntries, s.issued);
    OutcomeCounts(s'.finished, |s'.finished| - 1);
  }

  lemma OutcomeCounts(outcomes: seq<Outcome>, i: nat)
    requires i < |outcomes|
    ensures multiset(OutcomeIds(outcomes))[outcomes[i].id] >= 1
  {
    assert OutcomeIds(outcomes)[i] == outcomes[i].id;
  }

  lemma {:induction false} RunLast(deferred: seq<(AckContext, Status)>, ctx: AckContext, status: Status)
    ensures Run(deferred + [(ctx, status)]) == Run(deferred) + [Outcome(ctx.id, status, ctx.data)]
  {
    if deferred == [] {
      assert deferred + [(ctx, status)] == [(ctx, status)] && [(ctx, status)][1..] == [];
    } else {
      RunLast(deferred[1..], ctx, status);
      assert (deferred + [(ctx, status)])[1..] == deferred[1..] + [(ctx, status)];
    }
  }

  /** Without a callback there is none to report to: a send calls an empty function exactly when it is turned down. */
  lemma EmptyCallbackIffRejected(s: Service, r: Request, maxEntries: nat)
    requires r.name.Some?
    ensures SentData(s, r, maxEntries).1 == EmptyCallbackCalled <==>
            !r.hasCallback && (!s.publisher.running || r.priority >= |s.publisher.queues|
                               || |s.publisher.queues[r.priority]| >= maxEntries)
  {
  }

  /* ---- Request ids ---- */

  /** The id that the k-th call of a boot gets. */
  function NthReqId(k: nat): nat
  {
    if k == 0 then Init().nextReqId else NextReqId(NthReqId(k - 1))
  }

  lemma {:induction false} ReqIdsRotate(k: nat)
    ensures NthReqId(k) == k % (WRAP - 1) + 1
  {
    if k == 0 {
      RemainderIs(0, 0, 0);
    } else {
      ReqIdsRotate(k - 1);
      NextReqIdIs(NthReqId(k - 1));
      RemainderSteps(k);
      assert NthReqId(k) == NextReqId(NthReqId(k - 1));
      hide NextReqId, NthReqId;
    }
  }

  lemma NextReqIdIs(id: nat)
    requires id < WRAP
    ensures NextReqId(id) == if id == WRAP - 1 then 1 else id + 1
  {
  }

  lemma RemainderSteps(k: nat)
    requires k > 0
    ensures k % (WRAP - 1) == if (k - 1) % (WRAP - 1) == WRAP - 2 then 0 else (k - 1) % (WRAP - 1) + 1
  {
    var q, r := (k - 1) / (WRAP - 1), (k - 1) % (WRAP - 1);
    assert k - 1 == q * (WRAP - 1) + r;
    if r == WRAP - 2 {
      RemainderIs(k, q + 1, 0);
    } else {
      RemainderIs(k, q, r + 1);
    }
  }

  /** An id is never zero, and comes back only after all the others: 2^32 - 1 calls later. */
  lemma ReqIdsAreDistinct(j: nat, k: nat)
    requires j <= k
    ensures NthReqId(k) != 0
    ensures NthReqId(j) == NthReqId(k) <==> (k - j) % (WRAP - 1) == 0
  {
    ReqIdsRotate(j);
    ReqIdsRotate(k);
    hide NthReqId;
    SameRemainder(j, k);
  }

  lemma SameRemainder(j: nat, k: nat)
    requires j <= k
    ensures j % (WRAP - 1) == k % (WRAP - 1) <==> (k - j) % (WRAP - 1) == 0
  {
    if k % (WRAP - 1) == j % (WRAP - 1) {
      RemainderIs(k - j, k / (WRAP - 1) - j / (WRAP - 1), 0);
    } else if (k - j) % (WRAP - 1) == 0 {
      WholeTurns(j, k);
    }
  }

  lemma WholeTurns(j: nat, k: nat)
    requires j <= k && (k - j) % (WRAP - 1) == 0
    ensures j % (WRAP - 1) == k % (WRAP - 1)
  {
    RemainderIs(k, j / (WRAP - 1) + (k - j) / (WRAP - 1), j % (WRAP - 1));
  }

  lemma RemainderIs(k: nat, q: int, r: nat)
    requires r < WRAP - 1 && k == q * (WRAP - 1) + r
    ensures k % (WRAP - 1) == r
  {
  }
}
