/** The publisher over whole runs: its rate, the order within a queue, and the order between queues. */
module PublishSchedule {
  import opened Prelude
  import opened PublishPipeline

  /** What the thread saw when it looked at a queue. */
  datatype Look = Empty(queue: nat) | Took(queue: nat)

  /**
   * Times at which earlier threads and this one took events; all looks; per queue, all events put in
   * and all taken out.
   */
  datatype History = History(
    past: seq<seq<nat>>, starts: seq<nat>, looks: seq<Look>, entered: seq<seq<Event>>, taken: seq<seq<Event>>)

  const NO_HISTORY := History([], [], [], [[], []], [[], []])

  predicate Shaped(h: History)
  {
    |h.entered| == NUM_QUEUES && |h.taken| == NUM_QUEUES
  }

  /** The event that a send put into its queue, if it got there. */
  function EnteredEvents(s: Service, s': Service, q: nat): seq<Event>
    requires q < |s.publisher.queues| && q < |s'.publisher.queues|
  {
    var old', new' := s.publisher.queues[q], s'.publisher.queues[q];
    new'[if |old'| <= |new'| then |old'| else |new'|..]
  }

  function NextHistory(s: Service, h: History, step: Step, maxEntries: nat): (h': History)
    requires WellFormed(s.publisher) && Shaped(h)
    ensures Shaped(h')
  {
    var p, t := s.publisher, s.publisher.thread;
    match step
    case Start => if !p.running && t.Idle? then h.(past := h.past + [h.starts], starts := []) else h
    case Check =>
      if t.Scanning? && t.next < |p.queues| then
        if p.queues[t.next] == [] then h.(looks := h.looks + [Empty(t.next)])
        else h.(looks := h.looks + [Took(t.next)], starts := h.starts + [t.now],
                taken := h.taken[t.next := h.taken[t.next] + [p.queues[t.next][0]]])
      else h
    case Cleanup =>
      if !p.running && t.Idle? then h.(taken := [h.taken[0] + p.queues[0], h.taken[1] + p.queues[1]]) else h
    case SendData(_) =>
      NextKeepsShape(s, step, maxEntries);
      var s' := Next(s, step, maxEntries);
      h.(entered := [h.entered[0] + EnteredEvents(s, s', 0), h.entered[1] + EnteredEvents(s, s', 1)])
    case SendCommand(_, _) =>
      NextKeepsShape(s, step, maxEntries);
      var s' := Next(s, step, maxEntries);
      h.(entered := [h.entered[0] + EnteredEvents(s, s', 0), h.entered[1] + EnteredEvents(s, s', 1)])
    case _ => h
  }

  function HistoryAfter(steps: seq<Step>, maxEntries: nat): (h: History)
    ensures Shaped(h)
  {
    if steps == [] then NO_HISTORY
    else
      var n := |steps| - 1;
      NextHistory(After(steps[..n], maxEntries), HistoryAfter(steps[..n], maxEntries), steps[n], maxEntries)
  }

  /* ---- The rate ---- */

  /** The clock, in unwrapped milliseconds, never runs backwards from poll to poll. */
  ghost predicate ClockRuns(steps: seq<Step>)
  {
    forall i, j :: 0 <= i < j < |steps| && steps[i].Poll? && steps[j].Poll? ==> steps[i].now <= steps[j].now
  }

  function LastPoll(steps: seq<Step>): nat
  {
    if steps == [] then 0
    else if steps[|steps| - 1].Poll? then steps[|steps| - 1].now
    else LastPoll(steps[..|steps| - 1])
  }

  /** Publish k + BURST_RATE comes at least PROCESS_INTERVAL after publish k. */
  ghost predicate Spaced(starts: seq<nat>)
  {
    && (forall k :: 0 <= k < |starts| - 1 ==> starts[k] <= starts[k + 1])
    && (forall k :: 0 <= k < |starts| - BURST_RATE ==> starts[k] + PROCESS_INTERVAL <= starts[k + BURST_RATE])
  }

  /** The ring holds the last BURST_RATE publish times, wrapped, and `slot` points at the older one. */
  ghost predicate RingHolds(p: Publisher, starts: seq<nat>)
  {
    && WellFormed(p) && p.slot == |starts| % BURST_RATE
    && (|starts| >= 1 ==> p.ring[1 - p.slot] == starts[|starts| - 1] % WRAP)
    && (|starts| >= 2 ==> p.ring[p.slot] == starts[|starts| - 2] % WRAP)
  }

  /** A scan under way may take an event at its time. */
  ghost predicate MayStart(t: Thread, starts: seq<nat>, clock: nat)
  {
    && (t.Scanning? ==>
          t.now <= clock
          && (|starts| >= 1 ==> starts[|starts| - 1] <= t.now)
          && (|starts| >= 2 ==> starts[|starts| - 2] + PROCESS_INTERVAL <= t.now))
    && (|starts| >= 1 ==> starts[|starts| - 1] <= clock)
  }

  ghost predicate RateKept(s: Service, h: History, clock: nat)
  {
    && (forall i :: 0 <= i < |h.past| ==> Spaced(h.past[i]))
    && Spaced(h.starts) && RingHolds(s.publisher, h.starts) && MayStart(s.publisher.thread, h.starts, clock)
  }

  /** On wrapped ticks a gap never looks longer than it is. */
  lemma WrappedGap(now: nat, then': nat)
    requires then' <= now && Since(now % WRAP, then' % WRAP) >= PROCESS_INTERVAL
    ensures then' + PROCESS_INTERVAL <= now
  {
  }

  lemma PollKeepsRate(s: Service, h: History, clock: nat, now: nat)
    requires RateKept(s, h, clock) && clock <= now
    ensures RateKept(s.(publisher := Polled(s.publisher, now)), h, now)
  {
    if Polled(s.publisher, now) != s.publisher && |h.starts| >= 2 {
      WrappedGap(now, h.starts[|h.starts| - 2]);
    }
  }

  lemma CheckKeepsRate(s: Service, h: History, clock: nat, maxEntries: nat)
    requires RateKept(s, h, clock) && Shaped(h)
    ensures RateKept(s.(publisher := Checked(s.publisher)), NextHistory(s, h, Check, maxEntries), clock)
  {
    hide Spaced;
    var p := s.publisher;
    if p.thread.Scanning? && p.thread.next < |p.queues| && p.queues[p.thread.next] != [] {
      var h', now := NextHistory(s, h, Check, maxEntries), p.thread.now;
      assert h'.past == h.past && h'.starts == h.starts + [now];
      StartKeepsSpacing(h.starts, now);
      StartKeepsRing(p, h.starts, Checked(p), now);
      assert !Checked(p).thread.Scanning? && now <= clock;
      hide *;
      RateOfIdle(s.(publisher := Checked(p)), h, h', now, clock);
    }
  }

  lemma RateOfIdle(s: Service, h: History, h': History, now: nat, clock: nat)
    requires (forall i :: 0 <= i < |h.past| ==> Spaced(h.past[i])) && h'.past == h.past && h'.starts == h.starts + [now]
    requires Spaced(h'.starts) && RingHolds(s.publisher, h'.starts) && !s.publisher.thread.Scanning? && now <= clock
    ensures RateKept(s, h', clock)
  {
    hide Spaced, RingHolds;
  }

  lemma StartKeepsRing(p: Publisher, starts: seq<nat>, p': Publisher, now: nat)
    requires RingHolds(p, starts) && WellFormed(p')
    requires p'.ring == p.ring[p.slot := now % WRAP] && p'.slot == (p.slot + 1) % BURST_RATE
    ensures RingHolds(p', starts + [now])
  {
  }

  lemma StartKeepsSpacing(starts: seq<nat>, now: nat)
    requires Spaced(starts)
    requires |starts| >= 1 ==> starts[|starts| - 1] <= now
    requires |starts| >= 2 ==> starts[|starts| - 2] + PROCESS_INTERVAL <= now
    ensures Spaced(starts + [now])
  {
  }

  /** A step that leaves the ring alone, and the thread too unless it stops scanning. */
  lemma OtherStepsKeepRing(s: Service, h: History, step: Step, maxEntries: nat)
    requires WellFormed(s.publisher) && Shaped(h) && !step.Poll? && !step.Check? && !step.Start?
    ensures var s' := Next(s, step, maxEntries);
            && WellFormed(s'.publisher) && s'.publisher.ring == s.publisher.ring && s'.publisher.slot == s.publisher.slot
            && (s'.publisher.thread == s.publisher.thread || s'.publisher.thread.Idle?)
            && NextHistory(s, h, step, maxEntries).starts == h.starts && NextHistory(s, h, step, maxEntries).past == h.past
  {
  }

  lemma NextKeepsRate(s: Service, h: History, clock: nat, step: Step, maxEntries: nat)
    requires RateKept(s, h, clock) && Shaped(h) && (step.Poll? ==> clock <= step.now)
    ensures RateKept(Next(s, step, maxEntries), NextHistory(s, h, step, maxEntries), if step.Poll? then step.now else clock)
  {
    if step.Poll? {
      PollKeepsRate(s, h, clock, step.now);
    } else if step.Check? {
      CheckKeepsRate(s, h, clock, maxEntries);
    } else if step.Start? {
      EmptyIsSpaced();
    } else {
      OtherStepsKeepRing(s, h, step, maxEntries);
      hide Spaced, Next, NextHistory;
    }
  }

  lemma EmptyIsSpaced() ensures Spaced([]) {}

  lemma {:induction false} RateAlwaysKept(steps: seq<Step>, maxEntries: nat)
    requires ClockRuns(steps)
    ensures RateKept(After(steps, maxEntries), HistoryAfter(steps, maxEntries), LastPoll(steps))
    ensures forall i :: 0 <= i < |steps| && steps[i].Poll? ==> steps[i].now <= LastPoll(steps)
  {
    if steps != [] {
      var n := |steps| - 1;
      var before := steps[..n];
      RateAlwaysKept(before, maxEntries);
      if steps[n].Poll? {
        LastPollIsPoll(before);
      } else {
        forall i | 0 <= i < |steps| && steps[i].Poll? ensures steps[i].now <= LastPoll(steps) { assert before[i] == steps[i]; }
      }
      NextKeepsRate(After(before, maxEntries), HistoryAfter(before, maxEntries), LastPoll(before), steps[n], maxEntries);
    }
  }

  /**
   * Over every run, exactly when a resting thread that polls may publish: an interval after its last publish
   * but one, on a clock that wraps; before its second publish, from 1000 ms of the wrapped clock on.
   */
  lemma PollStartsExactly(steps: seq<Step>, maxEntries: nat, now: nat)
    requires ClockRuns(steps) && After(steps, maxEntries).publisher.thread == Idle
    ensures var p, starts := After(steps, maxEntries).publisher, HistoryAfter(steps, maxEntries).starts;
            Polled(p, now).thread.Scanning?
            <==> p.running && (if |starts| < 2 then now else now - starts[|starts| - 2]) % 0x1_0000_0000 >= 1000
  {
    hide After, HistoryAfter, Spaced, Polled, RingHolds, MayStart;
    RateAlwaysKept(steps, maxEntries);
    RingIsFresh(steps, maxEntries);
    PolledExactly(After(steps, maxEntries).publisher, HistoryAfter(steps, maxEntries).starts, now);
  }

  lemma PolledExactly(p: Publisher, starts: seq<nat>, now: nat)
    requires RingHolds(p, starts) && p.thread == Idle
    requires |starts| < 2 ==> p.ring[|starts|..] == FRESH_RING[|starts|..] && p.slot == |starts|
    ensures Polled(p, now).thread.Scanning?
            <==> p.running && (if |starts| < 2 then now else now - starts[|starts| - 2]) % 0x1_0000_0000 >= 1000
  {
    if |starts| < 2 {
      assert p.ring[|starts|..][0] == FRESH_RING[|starts|..][0] == 0;
      WrappedDifference(now, 0);
    } else {
      WrappedDifference(now, starts[|starts| - 2]);
    }
  }

  lemma WrappedDifference(a: int, b: int)
    ensures (a % WRAP - b % WRAP) % WRAP == (a - b) % WRAP
  {
  }

  /** Slots not yet used hold zero. */
  lemma {:induction false} RingIsFresh(steps: seq<Step>, maxEntries: nat)
    ensures var p, starts := After(steps, maxEntries).publisher, HistoryAfter(steps, maxEntries).starts;
            |starts| < 2 ==> p.ring[|starts|..] == FRESH_RING[|starts|..] && p.slot == |starts|
  {
    if steps != [] {
      var n := |steps| - 1;
      RingIsFresh(steps[..n], maxEntries);
      StepLeavesFresh(After(steps[..n], maxEntries), HistoryAfter(steps[..n], maxEntries), steps[n], maxEntries);
      hide Next, NextHistory;
    }
  }

  lemma StepLeavesFresh(s: Service, h: History, step: Step, maxEntries: nat)
    requires WellFormed(s.publisher) && Shaped(h)
    requires |h.starts| < 2 ==> s.publisher.ring[|h.starts|..] == FRESH_RING[|h.starts|..] && s.publisher.slot == |h.starts|
    ensures var p, starts := Next(s, step, maxEntries).publisher, NextHistory(s, h, step, maxEntries).starts;
            |p.ring| == 2 && (|starts| < 2 ==> p.ring[|starts|..] == FRESH_RING[|starts|..] && p.slot == |starts|)
  {
    if step.Check? {
      CheckLeavesFresh(s, h, maxEntries);
    } else if !step.Poll? && !step.Start? {
      OtherStepsKeepRing(s, h, step, maxEntries);
      hide Next, NextHistory;
    }
    hide EnteredEvents;
  }

  lemma CheckLeavesFresh(s: Service, h: History, maxEntries: nat)
    requires WellFormed(s.publisher) && Shaped(h)
    requires |h.starts| < 2 ==> s.publisher.ring[|h.starts|..] == FRESH_RING[|h.starts|..] && s.publisher.slot == |h.starts|
    ensures var p, starts := Checked(s.publisher), NextHistory(s, h, Check, maxEntries).starts;
            |p.ring| == 2 && (|starts| < 2 ==> p.ring[|starts|..] == FRESH_RING[|starts|..] && p.slot == |starts|)
  {
  }

  lemma {:induction false} LastPollIsPoll(steps: seq<Step>)
    ensures LastPoll(steps) == 0 || exists i :: 0 <= i < |steps| && steps[i].Poll? && steps[i].now == LastPoll(steps)
  {
    if steps != [] && !steps[|steps| - 1].Poll? {
      var before := steps[..|steps| - 1];
      LastPollIsPoll(before);
      if LastPoll(before) != 0 {
        var i :| 0 <= i < |before| && before[i].Poll? && before[i].now == LastPoll(before);
        assert steps[i] == before[i];
      }
    }
  }

  /** In any window shorter than the interval each publisher thread, from its start to its stop, takes at most BURST_RATE events. */
  lemma AtMostBurstRate(steps: seq<Step>, maxEntries: nat, life: nat, j: nat, k: nat)
    requires ClockRuns(steps) && life < |Lives(HistoryAfter(steps, maxEntries))|
    requires var starts := Lives(HistoryAfter(steps, maxEntries))[life];
             j <= k < |starts| && starts[k] < starts[j] + PROCESS_INTERVAL
    ensures k - j < BURST_RATE
  {
    RateAlwaysKept(steps, maxEntries);
    var starts := Lives(HistoryAfter(steps, maxEntries))[life];
    if j + BURST_RATE <= k {
      StartsGrow(starts, j + BURST_RATE, k);
    }
  }

  /** The times of all threads, one thread after the other. */
  function Lives(h: History): seq<seq<nat>>
  {
    h.past + [h.starts]
  }

  lemma {:induction false} StartsGrow(starts: seq<nat>, i: nat, k: nat)
    requires Spaced(starts) && i <= k < |starts|
    ensures starts[i] <= starts[k]
    decreases k - i
  {
    if i < k { StartsGrow(starts, i + 1, k); }
  }

  /* ---- The rate across restarts ---- */

  function Joined(lives: seq<seq<nat>>): seq<nat>
  {
    if lives == [] then [] else Joined(lives[..|lives| - 1]) + lives[|lives| - 1]
  }

  function AllStarts(h: History): seq<nat>
  {
    Joined(h.past) + h.starts
  }

  /** A new thread knows nothing of the publishes before it: from 1000 ms of the wrapped clock on, its first poll may publish. */
  lemma NewThreadIsFree(s: Service, now: nat)
    requires WellFormed(s.publisher) && !s.publisher.running && s.publisher.thread.Idle?
    ensures Polled(Started(s).publisher, now).thread == Scanning(now, 0) <==> now % WRAP >= PROCESS_INTERVAL
  {
  }

  /** A publisher that has come to rest takes no event and publishes nothing until it is started again, whatever happens. */
  lemma {:induction false} NothingTakenAtRest(steps: seq<Step>, more: seq<Step>, maxEntries: nat)
    requires !After(steps, maxEntries).publisher.running && After(steps, maxEntries).publisher.thread == Idle && Start !in more
    ensures var s, h, h' := After(steps + more, maxEntries), HistoryAfter(steps, maxEntries), HistoryAfter(steps + more, maxEntries);
            !s.publisher.running && s.publisher.thread == Idle && AllStarts(h') == AllStarts(h)
    decreases |more|
  {
    if more == [] {
      assert steps + more == steps;
    } else {
      var n := |more| - 1;
      var run := steps + more[..n];
      assert steps + more == run + [more[n]] && more == more[..n] + [more[n]];
      NothingTakenAtRest(steps, more[..n], maxEntries);
      AfterOne(run, more[n], maxEntries);
      hide After, HistoryAfter;
      RestKept(After(run, maxEntries), HistoryAfter(run, maxEntries), more[n], maxEntries);
    }
  }

  lemma RestKept(s: Service, h: History, step: Step, maxEntries: nat)
    requires WellFormed(s.publisher) && Shaped(h) && !s.publisher.running && s.publisher.thread == Idle && step != Start
    ensures var s', h' := Next(s, step, maxEntries), NextHistory(s, h, step, maxEntries);
            !s'.publisher.running && s'.publisher.thread == Idle && AllStarts(h') == AllStarts(h)
  {
    hide Joined, EnteredEvents;
  }

  /** A thread's whole life: started, one event sent and published, stopped. */
  function OneLife(r: Request, now: nat): seq<Step>
  {
    [Start, SendData(r), Poll(now), Check, Done(NONE), StopRunning]
  }

  ghost predicate Stopped(s: Service)
  {
    WellFormed(s.publisher) && !s.publisher.running && s.publisher.thread.Idle? && s.publisher.queues == [[], []]
  }

  lemma AfterOne(steps: seq<Step>, step: Step, maxEntries: nat)
    ensures After(steps + [step], maxEntries) == Next(After(steps, maxEntries), step, maxEntries)
    ensures HistoryAfter(steps + [step], maxEntries) == NextHistory(After(steps, maxEntries), HistoryAfter(steps, maxEntries), step, maxEntries)
  {
    assert (steps + [step])[..|steps|] == steps;
  }

  lemma OneLifePublishes(steps: seq<Step>, r: Request, now: nat, maxEntries: nat)
    requires Stopped(After(steps, maxEntries)) && maxEntries > 0 && now % WRAP >= PROCESS_INTERVAL
    requires r.name.Some? && !r.hasCallback && r.priority == 0
    ensures Stopped(After(steps + OneLife(r, now), maxEntries))
    ensures AllStarts(HistoryAfter(steps + OneLife(r, now), maxEntries)) == AllStarts(HistoryAfter(steps, maxEntries)) + [now]
  {
    hide *;
    var s0, h0 := After(steps, maxEntries), HistoryAfter(steps, maxEntries);
    var run1 := steps + [Start];
    var run2 := run1 + [SendData(r)];
    var run3 := run2 + [Poll(now)];
    var run4 := run3 + [Check];
    var run5 := run4 + [Done(NONE)];
    var run6 := run5 + [StopRunning];
    StepByStep(steps, r, now);
    AfterOne(steps, Start, maxEntries);
    AfterOne(run1, SendData(r), maxEntries);
    AfterOne(run2, Poll(now), maxEntries);
    AfterOne(run3, Check, maxEntries);
    AfterOne(run4, Done(NONE), maxEntries);
    AfterOne(run5, StopRunning, maxEntries);
    var event := Event(r.name.value, r.data, None);
    LifeBegins(s0, h0, maxEntries);
    LifeSends(After(run1, maxEntries), HistoryAfter(run1, maxEntries), r, maxEntries);
    LifePolls(After(run2, maxEntries), HistoryAfter(run2, maxEntries), event, now, maxEntries);
    LifeTakes(After(run3, maxEntries), HistoryAfter(run3, maxEntries), event, now, maxEntries);
    LifeEnds(After(run4, maxEntries), HistoryAfter(run4, maxEntries), event, maxEntries);
    LifeStops(After(run5, maxEntries), HistoryAfter(run5, maxEntries), maxEntries);
    LifeIsJoined(h0, HistoryAfter(run6, maxEntries), now);
  }

  lemma StepByStep(steps: seq<Step>, r: Request, now: nat)
    ensures steps + [Start] + [SendData(r)] + [Poll(now)] + [Check] + [Done(NONE)] + [StopRunning] == steps + OneLife(r, now)
  {
  }

  lemma LifeIsJoined(h: History, h': History, now: nat)
    requires h'.past == h.past + [h.starts] && h'.starts == [now]
    ensures AllStarts(h') == AllStarts(h) + [now]
  {
    assert h'.past[..|h.past|] == h.past;
  }

  lemma LifeBegins(s: Service, h: History, maxEntries: nat)
    requires Stopped(s) && Shaped(h)
    ensures Next(s, Start, maxEntries).publisher == Publisher([[], []], true, Idle, FRESH_RING, 0)
    ensures NextHistory(s, h, Start, maxEntries) == h.(past := h.past + [h.starts], starts := [])
  {
  }

  lemma LifeSends(s: Service, h: History, r: Request, maxEntries: nat)
    requires s.publisher == Publisher([[], []], true, Idle, FRESH_RING, 0) && Shaped(h) && maxEntries > 0
    requires r.name.Some? && !r.hasCallback && r.priority == 0
    ensures Next(s, SendData(r), maxEntries).publisher == Publisher([[Event(r.name.value, r.data, None)], []], true, Idle, FRESH_RING, 0)
    ensures var h' := NextHistory(s, h, SendData(r), maxEntries); h'.past == h.past && h'.starts == h.starts
  {
    var e, queues := Event(r.name.value, r.data, None), s.publisher.queues;
    assert queues[0] + [e] == [e] && queues[0 := [e]] == [[e], []];
  }

  lemma LifePolls(s: Service, h: History, event: Event, now: nat, maxEntries: nat)
    requires s.publisher == Publisher([[event], []], true, Idle, FRESH_RING, 0) && Shaped(h) && now % WRAP >= PROCESS_INTERVAL
    ensures Next(s, Poll(now), maxEntries).publisher == Publisher([[event], []], true, Scanning(now, 0), FRESH_RING, 0)
    ensures NextHistory(s, h, Poll(now), maxEntries) == h
  {
  }

  lemma LifeTakes(s: Service, h: History, event: Event, now: nat, maxEntries: nat)
    requires s.publisher == Publisher([[event], []], true, Scanning(now, 0), FRESH_RING, 0) && Shaped(h)
    ensures var p := Next(s, Check, maxEntries).publisher;
            WellFormed(p) && p.queues == [[], []] && p.running && p.thread == Publishing(event)
    ensures var h' := NextHistory(s, h, Check, maxEntries); h'.past == h.past && h'.starts == h.starts + [now]
  {
    var queues := s.publisher.queues;
    assert queues[0][1..] == [] && queues[0 := []] == [[], []];
  }

  lemma LifeEnds(s: Service, h: History, event: Event, maxEntries: nat)
    requires WellFormed(s.publisher) && s.publisher.queues == [[], []] && s.publisher.thread == Publishing(event) && Shaped(h)
    requires event.callback.None?
    ensures var p := Next(s, Done(NONE), maxEntries).publisher;
            WellFormed(p) && p.queues == [[], []] && p.thread.Idle?
    ensures NextHistory(s, h, Done(NONE), maxEntries) == h
  {
  }

  lemma LifeStops(s: Service, h: History, maxEntries: nat)
    requires WellFormed(s.publisher) && s.publisher.queues == [[], []] && s.publisher.thread.Idle? && Shaped(h)
    ensures Stopped(Next(s, StopRunning, maxEntries))
    ensures NextHistory(s, h, StopRunning, maxEntries) == h
  {
  }

  /** Three publishes within ten milliseconds, by three threads: restarts do not keep the rate. */
  lemma RestartsBreakTheRate(r: Request)
    requires r.name.Some? && !r.hasCallback && r.priority == 0
    ensures var starts := AllStarts(HistoryAfter(OneLife(r, 1000) + OneLife(r, 1005) + OneLife(r, 1010), 1));
            starts == [1000, 1005, 1010] && !Spaced(starts)
  {
    assert 1000 % WRAP >= PROCESS_INTERVAL && 1005 % WRAP >= PROCESS_INTERVAL && 1010 % WRAP >= PROCESS_INTERVAL;
    hide *;
    var one := OneLife(r, 1000);
    var two := one + OneLife(r, 1005);
    var three := two + OneLife(r, 1010);
    NothingYet();
    OneLifePublishes([], r, 1000, 1);
    assert [] + one == one;
    OneLifePublishes(one, r, 1005, 1);
    OneLifePublishes(two, r, 1010, 1);
    ThreeTooSoon(AllStarts(HistoryAfter(one, 1)), AllStarts(HistoryAfter(two, 1)), AllStarts(HistoryAfter(three, 1)));
  }

  lemma NothingYet()
    ensures Stopped(After([], 1)) && AllStarts(HistoryAfter([], 1)) == []
  {
  }

  lemma ThreeTooSoon(one: seq<nat>, two: seq<nat>, three: seq<nat>)
    requires one == [] + [1000] && two == one + [1005] && three == two + [1010]
    ensures three == [1000, 1005, 1010] && !Spaced(three)
  {
    assert three[0] + PROCESS_INTERVAL > three[0 + BURST_RATE];
  }

  /** The joint history of a stopped service after two more lives, one publish each. */
  function TwoLives(steps: seq<Step>, r: Request, now: nat, now': nat, maxEntries: nat): seq<nat>
  {
    AllStarts(HistoryAfter(steps + OneLife(r, now) + OneLife(r, now'), maxEntries))
  }

  /** The next two lives keep the rate, whenever from `from` on they publish, `gap` or more apart. */
  ghost predicate KeptFrom(steps: seq<Step>, r: Request, from: nat, gap: nat, maxEntries: nat)
  {
    forall now: nat, now': nat :: from <= now && now + gap <= now' < WRAP ==> Spaced(TwoLives(steps, r, now, now', maxEntries))
  }

  /**
   * Exactly when a stopped service may publish again from `from` on: the last publish but one is an
   * interval ago then, and the last one is by the time of the second publish.
   */
  lemma RestIsNeeded(steps: seq<Step>, r: Request, from: nat, gap: nat, maxEntries: nat)
    requires Stopped(After(steps, maxEntries)) && maxEntries > 0 && r.name.Some? && !r.hasCallback && r.priority == 0
    requires var all := AllStarts(HistoryAfter(steps, maxEntries)); all != [] && Spaced(all) && all[|all| - 1] <= from
    requires PROCESS_INTERVAL <= from && from + gap < WRAP
    ensures var all := AllStarts(HistoryAfter(steps, maxEntries));
            KeptFrom(steps, r, from, gap, maxEntries)
            <==> all[|all| - 1] + PROCESS_INTERVAL <= from + gap && (|all| >= 2 ==> all[|all| - 2] + PROCESS_INTERVAL <= from)
  {
    var all := AllStarts(HistoryAfter(steps, maxEntries));
    hide Stopped, AllStarts, HistoryAfter, After, TwoLives, Spaced, Meet, OneLife;
    forall now: nat, now': nat | from <= now && now + gap <= now' < WRAP
      ensures Spaced(TwoLives(steps, r, now, now', maxEntries)) <==> Meet(all, [now, now'])
    {
      TwoLivesMeet(steps, r, now, now', maxEntries);
    }
    assert KeptFrom(steps, r, from, gap, maxEntries) ==> Meet(all, [from, from + gap]) by {
      assert KeptFrom(steps, r, from, gap, maxEntries) ==> Spaced(TwoLives(steps, r, from, from + gap, maxEntries));
    }
    MeetsFrom(all, from, gap);
  }

  /** Publishing at will from `from` on keeps the rate exactly when the last publish is an interval ago then. */
  lemma RestedIsNeeded(steps: seq<Step>, r: Request, from: nat, maxEntries: nat)
    requires Stopped(After(steps, maxEntries)) && maxEntries > 0 && r.name.Some? && !r.hasCallback && r.priority == 0
    requires var all := AllStarts(HistoryAfter(steps, maxEntries)); all != [] && Spaced(all) && all[|all| - 1] <= from
    requires PROCESS_INTERVAL <= from < WRAP
    ensures var all := AllStarts(HistoryAfter(steps, maxEntries));
            KeptFrom(steps, r, from, 0, maxEntries) <==> all[|all| - 1] + PROCESS_INTERVAL <= from
  {
    hide KeptFrom, Stopped, AllStarts, HistoryAfter, After;
    var all := AllStarts(HistoryAfter(steps, maxEntries));
    RestIsNeeded(steps, r, from, 0, maxEntries);
    if |all| >= 2 { assert all[|all| - 2] <= all[|all| - 2 + 1]; }
  }

  /** For instance after one publish at 1000 ms: the second publish after it has to come at 2000 ms or later. */
  lemma RestAfterOneLife(r: Request, from: nat, gap: nat)
    requires r.name.Some? && !r.hasCallback && r.priority == 0 && 1000 <= from && from + gap < WRAP
    ensures KeptFrom(OneLife(r, 1000), r, from, gap, 1) <==> 2000 <= from + gap
  {
    assert 1000 % WRAP >= PROCESS_INTERVAL && from >= PROCESS_INTERVAL == 1000 && Spaced([1000]);
    hide *;
    var one := OneLife(r, 1000);
    NothingYet();
    OneLifePublishes([], r, 1000, 1);
    assert [] + one == one;
    var all := AllStarts(HistoryAfter(one, 1));
    assert all == [1000];
    RestIsNeeded(one, r, from, gap, 1);
  }

  lemma MeetsFrom(all: seq<nat>, from: nat, gap: nat)
    requires all != [] && all[|all| - 1] <= from
    ensures Meet(all, [from, from + gap])
            <==> all[|all| - 1] + PROCESS_INTERVAL <= from + gap && (|all| >= 2 ==> all[|all| - 2] + PROCESS_INTERVAL <= from)
    ensures Meet(all, [from, from + gap])
            ==> forall now: nat, now': nat :: from <= now && now + gap <= now' ==> Meet(all, [now, now'])
  {
  }

  lemma TwoLivesMeet(steps: seq<Step>, r: Request, now: nat, now': nat, maxEntries: nat)
    requires Stopped(After(steps, maxEntries)) && maxEntries > 0 && r.name.Some? && !r.hasCallback && r.priority == 0
    requires PROCESS_INTERVAL <= now <= now' < WRAP && Spaced(AllStarts(HistoryAfter(steps, maxEntries)))
    ensures Spaced(TwoLives(steps, r, now, now', maxEntries)) <==> Meet(AllStarts(HistoryAfter(steps, maxEntries)), [now, now'])
  {
    hide After, HistoryAfter, Stopped, AllStarts, Spaced, Meet, OneLife;
    assert TwoLives(steps, r, now, now', maxEntries) == AllStarts(HistoryAfter(steps + OneLife(r, now) + OneLife(r, now'), maxEntries));
    hide *;
    var all := AllStarts(HistoryAfter(steps, maxEntries));
    TwoTimes(all, now, now');
    OneLifePublishes(steps, r, now, maxEntries);
    OneLifePublishes(steps + OneLife(r, now), r, now', maxEntries);
    SpacedTogether(all, [now, now']);
  }

  lemma TwoTimes(all: seq<nat>, now: nat, now': nat)
    requires PROCESS_INTERVAL <= now <= now' < WRAP
    ensures now % WRAP >= PROCESS_INTERVAL && now' % WRAP >= PROCESS_INTERVAL
    ensures Spaced([now, now']) && all + [now] + [now'] == all + [now, now']
  {
  }

  /** Exactly when the publishes of two threads keep the rate together. */
  lemma SpacedTogether(a: seq<nat>, b: seq<nat>)
    ensures Spaced(a + b) <==> Spaced(a) && Spaced(b) && Meet(a, b)
  {
    hide Spaced, Meet;
    if Spaced(a + b) {
      PartsSpaced(a, b);
    }
    if Spaced(a) && Spaced(b) && Meet(a, b) {
      JoinSpaced(a, b);
    }
  }

  ghost predicate Meet(a: seq<nat>, b: seq<nat>)
  {
    && (|a| >= 1 && |b| >= 1 ==> a[|a| - 1] <= b[0])
    && (|a| >= 2 && |b| >= 1 ==> a[|a| - 2] + PROCESS_INTERVAL <= b[0])
    && (|a| >= 1 && |b| >= 2 ==> a[|a| - 1] + PROCESS_INTERVAL <= b[1])
  }

  lemma PartsSpaced(a: seq<nat>, b: seq<nat>)
    requires Spaced(a + b)
    ensures Spaced(a) && Spaced(b) && Meet(a, b)
  {
    var s := a + b;
    forall k | 0 <= k < |a| - 1 ensures a[k] <= a[k + 1] { assert s[k] <= s[k + 1]; }
    forall k | 0 <= k < |a| - BURST_RATE ensures a[k] + PROCESS_INTERVAL <= a[k + BURST_RATE] {
      assert s[k] + PROCESS_INTERVAL <= s[k + BURST_RATE];
    }
    forall k | 0 <= k < |b| - 1 ensures b[k] <= b[k + 1] { assert s[|a| + k] <= s[|a| + k + 1]; }
    forall k | 0 <= k < |b| - BURST_RATE ensures b[k] + PROCESS_INTERVAL <= b[k + BURST_RATE] {
      assert s[|a| + k] + PROCESS_INTERVAL <= s[|a| + k + BURST_RATE];
    }
    if |a| >= 1 && |b| >= 1 { assert s[|a| - 1] <= s[|a| - 1 + 1]; }
    if |a| >= 2 && |b| >= 1 { assert s[|a| - 2] + PROCESS_INTERVAL <= s[|a| - 2 + BURST_RATE]; }
    if |a| >= 1 && |b| >= 2 { assert s[|a| - 1] + PROCESS_INTERVAL <= s[|a| - 1 + BURST_RATE]; }
  }

  lemma JoinSpaced(a: seq<nat>, b: seq<nat>)
    requires Spaced(a) && Spaced(b) && Meet(a, b)
    ensures Spaced(a + b)
  {
    forall k | 0 <= k < |a + b| - 1 ensures (a + b)[k] <= (a + b)[k + 1] {
      JoinGrows(a, b, k);
    }
    forall k | 0 <= k < |a + b| - BURST_RATE ensures (a + b)[k] + PROCESS_INTERVAL <= (a + b)[k + BURST_RATE] {
      JoinLeavesGap(a, b, k);
    }
    hide Meet;
  }

  lemma JoinGrows(a: seq<nat>, b: seq<nat>, k: nat)
    requires Spaced(a) && Spaced(b) && Meet(a, b) && k < |a + b| - 1
    ensures (a + b)[k] <= (a + b)[k + 1]
  {
    if k + 1 < |a| {
      assert a[k] <= a[k + 1];
    } else if k >= |a| {
      var i := k - |a|;
      assert b[i] <= b[i + 1];
    }
    hide Spaced;
  }

  lemma JoinLeavesGap(a: seq<nat>, b: seq<nat>, k: nat)
    requires Spaced(a) && Spaced(b) && Meet(a, b) && k < |a + b| - BURST_RATE
    ensures (a + b)[k] + PROCESS_INTERVAL <= (a + b)[k + BURST_RATE]
  {
    if k + BURST_RATE < |a| {
      assert a[k] + PROCESS_INTERVAL <= a[k + BURST_RATE];
    } else if k >= |a| {
      var i := k - |a|;
      assert b[i] + PROCESS_INTERVAL <= b[i + BURST_RATE];
    }
    hide Spaced;
  }

  /** When this thread may publish without regard to the others: an interval after their last publish. */
  function RestedFrom(h: History): nat
  {
    var before := Joined(h.past);
    if before == [] then 0 else before[|before| - 1] + PROCESS_INTERVAL
  }

  /** After each restart nobody polls before the interval since the last publish is over. */
  ghost predicate Rested(steps: seq<Step>, maxEntries: nat)
  {
    forall i :: 0 <= i < |steps| && steps[i].Poll? ==> RestedFrom(HistoryAfter(steps[..i], maxEntries)) <= steps[i].now
  }

  ghost predicate RateKeptTogether(s: Service, h: History)
  {
    Spaced(AllStarts(h)) && (s.publisher.thread.Scanning? ==> RestedFrom(h) <= s.publisher.thread.now)
  }

  lemma NextKeepsRateTogether(s: Service, h: History, clock: nat, step: Step, maxEntries: nat)
    requires RateKept(s, h, clock) && Shaped(h) && RateKeptTogether(s, h)
    requires step.Poll? ==> clock <= step.now && RestedFrom(h) <= step.now
    ensures RateKeptTogether(Next(s, step, maxEntries), NextHistory(s, h, step, maxEntries))
  {
    if step.Check? {
      CheckKeepsRateTogether(s, h, maxEntries);
    } else if step.Start? {
      StartKeepsRateTogether(s, h, maxEntries);
    } else if !step.Poll? {
      OtherStepsKeepRing(s, h, step, maxEntries);
      hide Next, NextHistory, Spaced, RingHolds;
    }
    hide RateKept, RingHolds, Spaced;
  }

  lemma StartKeepsRateTogether(s: Service, h: History, maxEntries: nat)
    requires WellFormed(s.publisher) && Shaped(h) && RateKeptTogether(s, h)
    ensures RateKeptTogether(Next(s, Start, maxEntries), NextHistory(s, h, Start, maxEntries))
  {
    hide Spaced;
    assert (h.past + [h.starts])[..|h.past|] == h.past;
    assert AllStarts(h.(past := h.past + [h.starts], starts := [])) == AllStarts(h);
  }

  lemma CheckKeepsRateTogether(s: Service, h: History, maxEntries: nat)
    requires WellFormed(s.publisher) && Shaped(h) && RateKeptTogether(s, h)
    requires s.publisher.thread.Scanning? ==> MayStart(s.publisher.thread, h.starts, s.publisher.thread.now)
    ensures RateKeptTogether(Next(s, Check, maxEntries), NextHistory(s, h, Check, maxEntries))
  {
    hide Spaced, Joined;
    var p := s.publisher;
    if p.thread.Scanning? && p.thread.next < |p.queues| && p.queues[p.thread.next] != [] {
      var h', now := NextHistory(s, h, Check, maxEntries), p.thread.now;
      assert h'.past == h.past && h'.starts == h.starts + [now];
      assert !Next(s, Check, maxEntries).publisher.thread.Scanning?;
      MoreJoined(h, h', now);
      assert MayStart(Scanning(now, 0), h.starts, now) && RestedFrom(h) <= now;
      hide *;
      TakenInTime(h, now);
      StartKeepsSpacing(AllStarts(h), now);
      NotScanning(Next(s, Check, maxEntries), h');
    } else {
      hide AllStarts, RestedFrom, MayStart;
    }
  }

  lemma MoreJoined(h: History, h': History, now: nat)
    requires h'.past == h.past && h'.starts == h.starts + [now]
    ensures AllStarts(h') == AllStarts(h) + [now]
  {
  }

  lemma NotScanning(s: Service, h: History)
    requires Spaced(AllStarts(h)) && !s.publisher.thread.Scanning?
    ensures RateKeptTogether(s, h)
  {
  }

  /** In the joint history too, a scan comes late enough to take an event. */
  lemma TakenInTime(h: History, now: nat)
    requires Spaced(AllStarts(h)) && RestedFrom(h) <= now && MayStart(Scanning(now, 0), h.starts, now)
    ensures var all := AllStarts(h);
            && (|all| >= 1 ==> all[|all| - 1] <= now)
            && (|all| >= 2 ==> all[|all| - 2] + PROCESS_INTERVAL <= now)
  {
    var all, before := AllStarts(h), Joined(h.past);
    if |h.starts| == 0 && |before| >= 2 {
      assert all == before;
      assert all[|all| - 2] <= all[|all| - 2 + 1];
    }
  }

  /** Restarts that rest keep the rate over the whole run, whatever happens in between. */
  lemma {:induction false} RestedRestartsKeepTheRate(steps: seq<Step>, maxEntries: nat)
    requires ClockRuns(steps) && Rested(steps, maxEntries)
    ensures RateKeptTogether(After(steps, maxEntries), HistoryAfter(steps, maxEntries))
  {
    if steps != [] {
      var n := |steps| - 1;
      var before := steps[..n];
      assert forall i :: 0 <= i < n ==> before[i] == steps[i] && before[..i] == steps[..i];
      RestedRestartsKeepTheRate(before, maxEntries);
      RateAlwaysKept(before, maxEntries);
      if steps[n].Poll? { LastPollIsPoll(before); }
      NextKeepsRateTogether(After(before, maxEntries), HistoryAfter(before, maxEntries), LastPoll(before), steps[n], maxEntries);
    }
  }

  /* ---- Each queue is first in, first out, and bounded ---- */

  ghost predicate QueueKept(s: Service, h: History, maxEntries: nat, q: nat)
    requires WellFormed(s.publisher) && Shaped(h) && q < NUM_QUEUES
  {
    h.entered[q] == h.taken[q] + s.publisher.queues[q] && |s.publisher.queues[q]| <= maxEntries
  }

  lemma EnqueueKeepsQueue(s: Service, h: History, step: Step, maxEntries: nat, q: nat)
    requires WellFormed(s.publisher) && Shaped(h) && q < NUM_QUEUES && QueueKept(s, h, maxEntries, q)
    requires step.SendData? || step.SendCommand?
    ensures WellFormed(Next(s, step, maxEntries).publisher)
    ensures QueueKept(Next(s, step, maxEntries), NextHistory(s, h, step, maxEntries), maxEntries, q)
  {
    NextKeepsShape(s, step, maxEntries);
    var old', new' := s.publisher.queues[q], Next(s, step, maxEntries).publisher.queues[q];
    SendGrows(s, step, maxEntries, q);
    assert new' == old' + new'[|old'|..];
    assert h.entered[q] + new'[|old'|..] == h.taken[q] + new';
  }

  lemma SendGrows(s: Service, step: Step, maxEntries: nat, q: nat)
    requires WellFormed(s.publisher) && q < NUM_QUEUES && |s.publisher.queues[q]| <= maxEntries
    requires step.SendData? || step.SendCommand?
    ensures var s' := Next(s, step, maxEntries);
            && WellFormed(s'.publisher) && |s'.publisher.queues[q]| <= maxEntries
            && s.publisher.queues[q] <= s'.publisher.queues[q]
  {
  }

  lemma NextKeepsQueue(s: Service, h: History, step: Step, maxEntries: nat, q: nat)
    requires WellFormed(s.publisher) && Shaped(h) && q < NUM_QUEUES && QueueKept(s, h, maxEntries, q)
    ensures WellFormed(Next(s, step, maxEntries).publisher)
    ensures QueueKept(Next(s, step, maxEntries), NextHistory(s, h, step, maxEntries), maxEntries, q)
  {
    NextKeepsShape(s, step, maxEntries);
    match step
    case SendData(_) => EnqueueKeepsQueue(s, h, step, maxEntries, q);
    case SendCommand(_, _) => EnqueueKeepsQueue(s, h, step, maxEntries, q);
    case Check =>
      var p, t := s.publisher, s.publisher.thread;
      if t.Scanning? && t.next == q && p.queues[q] != [] {
        assert p.queues[q] == [p.queues[q][0]] + p.queues[q][1..];
      }
    case _ =>
  }

  /** Over every run a queue's events leave it in the order they came, and it never holds more than its limit. */
  lemma {:induction false} QueuesAlwaysKept(steps: seq<Step>, maxEntries: nat, q: nat)
    requires q < NUM_QUEUES
    ensures QueueKept(After(steps, maxEntries), HistoryAfter(steps, maxEntries), maxEntries, q)
  {
    if steps != [] {
      var n := |steps| - 1;
      QueuesAlwaysKept(steps[..n], maxEntries, q);
      NextKeepsQueue(After(steps[..n], maxEntries), HistoryAfter(steps[..n], maxEntries), steps[n], maxEntries, q);
    }
  }

  /* ---- What enters a queue is what was sent ---- */

  function Texts(events: seq<Event>): seq<(string, string)>
  {
    seq(|events|, i requires 0 <= i < |events| => (events[i].name, events[i].data))
  }

  /** Name and data of a request, if queue q takes it: the publisher runs, the priority is q, and there is room. */
  function TakenBy(p: Publisher, r: Request, maxEntries: nat, q: nat): seq<(string, string)>
    requires q < |p.queues|
  {
    if r.name.Some? && r.priority == q && p.running && |p.queues[q]| < maxEntries then [(r.name.value, r.data)] else []
  }

  /** Name and data of all requests that queue q took. */
  function SentTo(steps: seq<Step>, maxEntries: nat, q: nat): seq<(string, string)>
    requires q < NUM_QUEUES
  {
    if steps == [] then []
    else
      var before, last := steps[..|steps| - 1], steps[|steps| - 1];
      var p := After(before, maxEntries).publisher;
      SentTo(before, maxEntries, q)
      + match last
        case SendData(r) => TakenBy(p, r, maxEntries, q)
        case SendCommand(r, fits) => if fits then TakenBy(p, r, maxEntries, q) else []
        case _ => []
  }

  lemma SentGrowsBy(s: Service, step: Step, r: Request, maxEntries: nat, q: nat)
    requires WellFormed(s.publisher) && q < NUM_QUEUES && (step == SendData(r) || step == SendCommand(r, true))
    ensures |Next(s, step, maxEntries).publisher.queues| == NUM_QUEUES
    ensures var old', new' := s.publisher.queues[q], Next(s, step, maxEntries).publisher.queues[q];
            var taken := TakenBy(s.publisher, r, maxEntries, q);
            if taken == [] then new' == old'
            else |new'| == |old'| + 1 && new'[..|old'|] == old' && taken == [(new'[|old'|].name, new'[|old'|].data)]
  {
  }

  lemma SentEnters(s: Service, h: History, step: Step, r: Request, maxEntries: nat, q: nat)
    requires WellFormed(s.publisher) && Shaped(h) && q < NUM_QUEUES
    requires step == SendData(r) || step == SendCommand(r, true)
    ensures Texts(NextHistory(s, h, step, maxEntries).entered[q]) == Texts(h.entered[q]) + TakenBy(s.publisher, r, maxEntries, q)
  {
    SentGrowsBy(s, step, r, maxEntries, q);
    var s' := Next(s, step, maxEntries);
    var more := EnteredEvents(s, s', q);
    assert NextHistory(s, h, step, maxEntries).entered[q] == h.entered[q] + more by { hide Next, TakenBy, Texts; }
    hide Next, NextHistory, TakenBy;
    assert Texts(more) == TakenBy(s.publisher, r, maxEntries, q);
    assert Texts(h.entered[q] + more) == Texts(h.entered[q]) + Texts(more);
  }

  /** Over every run what a queue has been given are the requests sent with its priority while it had room, in order. */
  lemma {:induction false} EnteredAreSent(steps: seq<Step>, maxEntries: nat, q: nat)
    requires q < NUM_QUEUES
    ensures Texts(HistoryAfter(steps, maxEntries).entered[q]) == SentTo(steps, maxEntries, q)
  {
    if steps != [] {
      var before, last := steps[..|steps| - 1], steps[|steps| - 1];
      var s, h := After(before, maxEntries), HistoryAfter(before, maxEntries);
      EnteredAreSent(before, maxEntries, q);
      assert SentTo(before, maxEntries, q) + [] == SentTo(before, maxEntries, q);
      hide Next, TakenBy, EnteredEvents, Texts, WellFormed;
      match last {
        case SendData(r) => SentEnters(s, h, last, r, maxEntries, q);
        case SendCommand(r, fits) =>
          if fits { SentEnters(s, h, last, r, maxEntries, q); } else { UnsentEnters(s, h, r, maxEntries, q); }
        case _ =>
      }
    }
  }

  lemma UnsentEnters(s: Service, h: History, r: Request, maxEntries: nat, q: nat)
    requires WellFormed(s.publisher) && Shaped(h) && q < NUM_QUEUES
    ensures NextHistory(s, h, SendCommand(r, false), maxEntries).entered[q] == h.entered[q]
  {
    var none := EnteredEvents(s, Next(s, SendCommand(r, false), maxEntries), q);
    assert none == [] && h.entered[q] + none == h.entered[q];
  }

  /* ---- Priority ---- */

  /** The q looks before position k found queues 0 to q - 1 empty. */
  ghost predicate HigherEmpty(looks: seq<Look>, k: nat, q: nat)
  {
    q <= k <= |looks| && forall p :: 0 <= p < q ==> looks[k - q + p] == Empty(p)
  }

  ghost predicate PriorityKept(s: Service, h: History)
  {
    && (s.publisher.thread.Scanning? ==> HigherEmpty(h.looks, |h.looks|, s.publisher.thread.next))
    && (forall k :: 0 <= k < |h.looks| && h.looks[k].Took? ==> HigherEmpty(h.looks, k, h.looks[k].queue))
  }

  lemma CheckKeepsPriority(s: Service, h: History, maxEntries: nat)
    requires WellFormed(s.publisher) && Shaped(h) && PriorityKept(s, h)
    ensures PriorityKept(Next(s, Check, maxEntries), NextHistory(s, h, Check, maxEntries))
  {
    var looks, looks' := h.looks, NextHistory(s, h, Check, maxEntries).looks;
    var t := s.publisher.thread;
    if looks' != looks {
      var look := looks'[|looks|];
      assert looks' == looks + [look] && look.queue == t.next;
      OneMoreLook(looks, look);
      if look.Empty? {
        OneMoreEmpty(looks, t.next);
      }
      hide HigherEmpty;
    }
    hide HigherEmpty;
  }

  lemma OneMoreLook(looks: seq<Look>, look: Look)
    requires forall k :: 0 <= k < |looks| && looks[k].Took? ==> HigherEmpty(looks, k, looks[k].queue)
    requires HigherEmpty(looks, |looks|, look.queue)
    ensures var looks' := looks + [look];
            forall k :: 0 <= k < |looks'| && looks'[k].Took? ==> HigherEmpty(looks', k, looks'[k].queue)
  {
    var looks' := looks + [look];
    forall k | 0 <= k < |looks'| && looks'[k].Took? ensures HigherEmpty(looks', k, looks'[k].queue) {
      MoreLooks(looks, look, k, looks'[k].queue);
    }
  }

  lemma MoreLooks(looks: seq<Look>, look: Look, k: nat, q: nat)
    requires k <= |looks| && HigherEmpty(looks, k, q)
    ensures HigherEmpty(looks + [look], k, q)
  {
  }

  lemma OneMoreEmpty(looks: seq<Look>, q: nat)
    requires HigherEmpty(looks, |looks|, q)
    ensures HigherEmpty(looks + [Empty(q)], |looks| + 1, q + 1)
  {
  }

  lemma LookingNowhere(looks: seq<Look>)
    ensures HigherEmpty(looks, |looks|, 0)
  {
  }

  lemma NextKeepsPriority(s: Service, h: History, step: Step, maxEntries: nat)
    requires WellFormed(s.publisher) && Shaped(h) && PriorityKept(s, h)
    ensures PriorityKept(Next(s, step, maxEntries), NextHistory(s, h, step, maxEntries))
  {
    if step.Check? {
      CheckKeepsPriority(s, h, maxEntries);
    } else {
      LookingNowhere(h.looks);
      hide HigherEmpty;
    }
  }

  /** An event leaves a queue only after the thread has just found every queue of higher priority empty. */
  lemma {:induction false} PriorityAlwaysKept(steps: seq<Step>, maxEntries: nat)
    ensures PriorityKept(After(steps, maxEntries), HistoryAfter(steps, maxEntries))
  {
    if steps != [] {
      var n := |steps| - 1;
      PriorityAlwaysKept(steps[..n], maxEntries);
      NextKeepsPriority(After(steps[..n], maxEntries), HistoryAfter(steps[..n], maxEntries), steps[n], maxEntries);
    }
  }
}
