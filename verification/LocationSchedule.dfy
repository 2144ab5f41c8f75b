/** When a location is published: triggers, minimum and maximum interval, and the drift-free grid. */
module LocationSchedule {
  import opened Prelude

  datatype GnssState = OFF | ERROR | ON_UNLOCKED | ON_LOCKED_UNSTABLE | ON_LOCKED_STABLE | DISABLED

  datatype PublishReason = NONE | TIME | TRIGGERS | IMMEDIATE

  datatype EvaluationResults = EvaluationResults(reason: PublishReason, networkNeeded: bool, lockWait: bool)

  const LOCK_TIMEOUT_SEC: nat := 10

  /** The intervals in seconds, zero for none, and what else decides. */
  datatype Config = Config(intervalMin: nat, intervalMax: nat, processAck: bool, connectingTime: nat)

  datatype Schedule = Schedule(
    lastPublish: nat, monotonic: nat, newMonotonic: bool, firstPublish: bool, pendingFirst: bool,
    pendingImmediate: bool, triggers: seq<string>, nextEarlyWake: nat, gnssStarted: nat)

  /** The interval shortened by the early wake, if it is long enough for that. */
  function NetworkInterval(interval: nat, early: nat): nat
  {
    if interval > early then interval - early else interval
  }

  function Evaluated(s: Schedule, c: Config, now: nat): EvaluationResults
  {
    if s.pendingImmediate then EvaluationResults(IMMEDIATE, true, false)
    else if s.firstPublish && !s.pendingFirst then
      EvaluationResults(TRIGGERS, true, Since(now, s.gnssStarted) < c.connectingTime)
    else
      var interval, maxInterval := Since(now, s.lastPublish), Since(now, s.monotonic);
      var maxNetwork := c.intervalMax != 0 && maxInterval >= NetworkInterval(c.intervalMax, s.nextEarlyWake);
      if c.intervalMax != 0 && maxInterval >= c.intervalMax then
        EvaluationResults(TIME, true, maxInterval - c.intervalMax < LOCK_TIMEOUT_SEC)
      else if s.triggers != [] && (c.intervalMin == 0 || interval >= c.intervalMin) then
        EvaluationResults(TRIGGERS, true, Since(interval, c.intervalMin) < LOCK_TIMEOUT_SEC)
      else
        var minNetwork := s.triggers != [] && (c.intervalMin == 0 || interval >= NetworkInterval(c.intervalMin, s.nextEarlyWake));
        EvaluationResults(NONE, maxNetwork || minNetwork, false)
  }

  /** A position good enough, or not to be had at all: no reason to wait for a lock. */
  predicate NoWait(gnss: GnssState)
  {
    gnss.ERROR? || gnss.DISABLED? || gnss.ON_LOCKED_STABLE?
  }

  function WithTrigger(triggers: seq<string>, t: string): seq<string>
  {
    if t in triggers then triggers else triggers + [t]
  }

  /** One evaluation of the loop: the location state and whether a publish can go anywhere. */
  datatype Sample = Sample(now: nat, gnss: GnssState, online: bool)

  predicate Decides(s: Schedule, c: Config, x: Sample)
  {
    var e := Evaluated(s, c, x.now);
    e.reason.IMMEDIATE? || (!e.reason.NONE? && (NoWait(x.gnss) || !e.lockWait))
  }

  predicate Publishes(s: Schedule, c: Config, x: Sample)
  {
    Decides(s, c, x) && x.online
  }

  /** The schedule after the decision, before any publish. */
  function Decided(s: Schedule, c: Config, x: Sample): Schedule
  {
    if !Decides(s, c, x) then s
    else
      match Evaluated(s, c, x.now).reason
      case NONE => s
      case TIME => s.(triggers := WithTrigger(s.triggers, "time"))
      case TRIGGERS => s.(newMonotonic := true)
      case IMMEDIATE => s.(pendingImmediate := false, newMonotonic := true)
  }

  /** The bookkeeping of a publish. */
  function Published(s: Schedule, c: Config, now: nat): Schedule
  {
    var restart := (s.firstPublish && !s.pendingFirst) || s.newMonotonic;
    var first := s.firstPublish && c.processAck;
    s.(triggers := [], lastPublish := now,
       monotonic := if restart then now else (s.monotonic + c.intervalMax) % WRAP,
       newMonotonic := if restart then false else s.newMonotonic,
       firstPublish := first, pendingFirst := s.pendingFirst || first)
  }

  function Looped(s: Schedule, c: Config, x: Sample): Schedule
  {
    var d := Decided(s, c, x);
    if Publishes(s, c, x) then Published(d, c, x.now) else d
  }

  /* ---- The object ---- */

  class EdgeLocation {
    var lastLocationPublishSec: nat
    var monotonicPublishSec: nat
    var newMonotonic: bool
    var firstPublish: bool
    var pendingFirstPublish: bool
    var pendingImmediate: bool
    var pendingTriggers: seq<string>
    var nextEarlyWake: nat
    var gnssStartedSec: nat
    var config: Config

    function Value(): Schedule
      reads this
    {
      Schedule(lastLocationPublishSec, monotonicPublishSec, newMonotonic, firstPublish, pendingFirstPublish,
               pendingImmediate, pendingTriggers, nextEarlyWake, gnssStartedSec)
    }

    method TriggerLocPub(immediate: bool, s: string)
      modifies this`pendingTriggers, this`pendingImmediate
      ensures Value() == old(Value()).(triggers := WithTrigger(old(pendingTriggers), s), pendingImmediate := immediate || old(pendingImmediate))
    {
      var matched := false;
      for i := 0 to |pendingTriggers|
        invariant !matched && s !in pendingTriggers[..i]
      {
        if pendingTriggers[i] == s {
          matched := true;
          break;
        }
      }
      if !matched {
        pendingTriggers := pendingTriggers + [s];
      }
      if immediate {
        pendingImmediate := true;
      }
    }

    method EvaluatePublish(now: nat) returns (e: EvaluationResults)
      ensures e == Evaluated(Value(), config, now)
    {
      if pendingImmediate {
        return EvaluationResults(IMMEDIATE, true, false);
      }
      if firstPublish && !pendingFirstPublish {
        return EvaluationResults(TRIGGERS, true, Since(now, gnssStartedSec) < config.connectingTime);
      }
      var interval := Since(now, lastLocationPublishSec);
      var maxInterval := Since(now, monotonicPublishSec);
      var networkNeeded := false;
      var max := config.intervalMax;
      var maxNetwork := max;
      if maxNetwork > nextEarlyWake {
        maxNetwork := maxNetwork - nextEarlyWake;
      }
      if config.intervalMax != 0 {
        if maxInterval >= maxNetwork {
          networkNeeded := true;
        }
        if maxInterval >= max {
          return EvaluationResults(TIME, true, maxInterval - max < LOCK_TIMEOUT_SEC);
        }
      }
      var min := config.intervalMin;
      var minNetwork := min;
      if minNetwork > nextEarlyWake {
        minNetwork := minNetwork - nextEarlyWake;
      }
      if |pendingTriggers| != 0 {
        if config.intervalMin == 0 || interval >= minNetwork {
          networkNeeded := true;
        }
        if config.intervalMin == 0 || interval >= min {
          return EvaluationResults(TRIGGERS, true, Since(interval, min) < LOCK_TIMEOUT_SEC);
        }
      }
      return EvaluationResults(NONE, networkNeeded, false);
    }

    /** The decision and publish part of the loop; a publish reports the triggers that led to it. */
    method Loop(x: Sample) returns (published: bool, reported: seq<string>)
      modifies this
      ensures Value() == Looped(old(Value()), old(config), x) && config == old(config)
      ensures published == Publishes(old(Value()), old(config), x)
      ensures published ==> reported == Decided(old(Value()), old(config), x).triggers
    {
      hide Evaluated, WithTrigger, Published;
      published, reported := false, [];
      var publishReason := EvaluatePublish(x.now);
      var publishNow := false;
      match publishReason.reason {
        case NONE =>
          return;
        case TIME =>
          if NoWait(x.gnss) || !publishReason.lockWait {
            TriggerLocPub(false, "time");
            publishNow := true;
          }
        case TRIGGERS =>
          if NoWait(x.gnss) || !publishReason.lockWait {
            publishNow := true;
            newMonotonic := true;
          }
        case IMMEDIATE =>
          pendingImmediate := false;
          publishNow := true;
          newMonotonic := true;
      }
      if publishNow && x.online {
        published, reported := true, pendingTriggers;
        Publish(x.now);
      }
    }

    /** The bookkeeping around building and sending a publish. */
    method Publish(now: nat)
      modifies this
      ensures Value() == Published(old(Value()), config, now) && config == old(config)
    {
      pendingTriggers := [];
      lastLocationPublishSec := now;
      if (firstPublish && !pendingFirstPublish) || newMonotonic {
        monotonicPublishSec := lastLocationPublishSec;
        newMonotonic := false;
      } else {
        monotonicPublishSec := (monotonicPublishSec + config.intervalMax) % WRAP;
      }
      if !config.processAck && firstPublish {
        firstPublish := false;
      }
      if firstPublish && !pendingFirstPublish {
        pendingFirstPublish := true;
      }
    }

    /** The publish callback: a success ends the wait for the first publish. */
    method LocationPublishCb(success: bool)
      modifies this`firstPublish, this`pendingFirstPublish
      ensures Value() == Confirmed(old(Value()), success)
    {
      if success {
        firstPublish := false;
        pendingFirstPublish := false;
      }
    }
  }

  function Confirmed(s: Schedule, success: bool): Schedule
  {
    if success then s.(firstPublish := false, pendingFirst := false) else s
  }

  /* ---- One sample after the first publish ---- */

  /** The first publish is over: it was made, and is either confirmed or waits to be. */
  predicate Settled(s: Schedule)
  {
    s.firstPublish ==> s.pendingFirst
  }

  predicate Ordered(s: Schedule, now: nat)
  {
    s.monotonic <= s.lastPublish <= now < WRAP
  }

  /** The first sample that can publish does so at the latest after the connecting time, and settles the schedule. */
  lemma FirstPublishSettles(s: Schedule, c: Config, x: Sample)
    requires !Settled(s) && x.online && x.now < WRAP
    requires s.pendingImmediate || NoWait(x.gnss) || Since(x.now, s.gnssStarted) >= c.connectingTime
    ensures var s' := Looped(s, c, x);
            Publishes(s, c, x) && Settled(s') && s'.lastPublish == s'.monotonic == x.now
  {
  }

  lemma LoopKeepsOrder(s: Schedule, c: Config, x: Sample)
    requires Settled(s) && Ordered(s, x.now)
    ensures Settled(Looped(s, c, x)) && Ordered(Looped(s, c, x), x.now)
  {
  }

  /** A publish for triggers keeps the minimum distance to the publish before it. */
  lemma TriggersKeepDistance(s: Schedule, c: Config, x: Sample)
    requires Settled(s) && Ordered(s, x.now)
    requires Publishes(s, c, x) && Evaluated(s, c, x.now).reason == TRIGGERS
    ensures s.lastPublish + c.intervalMin <= x.now
  {
  }

  /** Ten seconds past the maximum interval nothing but being offline holds a publish back. */
  lemma OverduePublishes(s: Schedule, c: Config, x: Sample)
    requires Settled(s) && Ordered(s, x.now) && x.online && c.intervalMax > 0
    requires s.monotonic + c.intervalMax + LOCK_TIMEOUT_SEC <= x.now
    ensures Publishes(s, c, x)
  {
  }

  /**
   * A request for an immediate publish is met at the next sample if and only if there is a
   * connection. If not, its immediacy is gone, and the next publish will restart the grid.
   */
  lemma ImmediateIffOnline(s: Schedule, c: Config, x: Sample)
    requires s.pendingImmediate
    ensures Publishes(s, c, x) <==> x.online
    ensures !x.online ==> Looped(s, c, x) == s.(pendingImmediate := false, newMonotonic := true)
  {
  }

  /**
   * Exactly when a sample publishes: offline never; for the time once the maximum interval is over, for
   * triggers once the minimum interval is, and either of them ten seconds later unless there is a
   * stable position or none to be had.
   */
  lemma PublishesExactly(s: Schedule, c: Config, x: Sample)
    requires Settled(s) && Ordered(s, x.now) && !s.pendingImmediate
    ensures var free, wait := x.gnss.ERROR? || x.gnss.DISABLED? || x.gnss.ON_LOCKED_STABLE?, 10;
            Publishes(s, c, x)
            <==> x.online
                 && (if c.intervalMax > 0 && s.monotonic + c.intervalMax <= x.now
                     then free || s.monotonic + c.intervalMax + wait <= x.now
                     else s.triggers != [] && s.lastPublish + c.intervalMin <= x.now
                          && (free || s.lastPublish + c.intervalMin + wait <= x.now))
  {
  }

  /** A publish reports the triggers listed, each once, and "time" besides if the maximum interval is the reason. */
  lemma ReportedExactly(s: Schedule, c: Config, x: Sample)
    requires Settled(s) && Ordered(s, x.now) && Publishes(s, c, x)
    ensures var reported := Decided(s, c, x).triggers;
            && (forall name :: name in reported
                  <==> name in s.triggers
                       || (name == "time" && !s.pendingImmediate && c.intervalMax > 0 && s.monotonic + c.intervalMax <= x.now))
            && ((forall i, j :: 0 <= i < j < |s.triggers| ==> s.triggers[i] != s.triggers[j])
                ==> forall i, j :: 0 <= i < j < |reported| ==> reported[i] != reported[j])
  {
  }

  /** Exactly when the network is asked for: as early before the end of either interval as it takes to wake, if that is within the interval. */
  lemma NetworkIsNeeded(s: Schedule, c: Config, now: nat)
    requires Settled(s) && Ordered(s, now)
    ensures var earlier := if c.intervalMax > s.nextEarlyWake then s.nextEarlyWake else 0;
            var earlierMin := if c.intervalMin > s.nextEarlyWake then s.nextEarlyWake else 0;
            Evaluated(s, c, now).networkNeeded
            <==> s.pendingImmediate
                 || (c.intervalMax > 0 && s.monotonic + c.intervalMax <= now + earlier)
                 || (s.triggers != [] && s.lastPublish + c.intervalMin <= now + earlierMin)
  {
  }

  /** The first publish waits for a stable position, or for there to be none, no longer than the connecting time. */
  lemma FirstPublishesExactly(s: Schedule, c: Config, x: Sample)
    requires !Settled(s) && s.gnssStarted <= x.now < WRAP
    ensures var free := x.gnss.ERROR? || x.gnss.DISABLED? || x.gnss.ON_LOCKED_STABLE?;
            Publishes(s, c, x) <==> x.online && (s.pendingImmediate || free || s.gnssStarted + c.connectingTime <= x.now)
  {
  }

  /** A request that waits among the triggers, and no longer for a lock, is met exactly when an interval is over. */
  lemma WaitingRequestIsMet(s: Schedule, c: Config, x: Sample)
    requires Settled(s) && Ordered(s, x.now) && s.triggers != [] && !s.pendingImmediate
    requires x.online && NoWait(x.gnss)
    ensures Publishes(s, c, x)
            <==> s.lastPublish + c.intervalMin <= x.now || (c.intervalMax > 0 && s.monotonic + c.intervalMax <= x.now)
  {
  }

  /* ---- Runs ---- */

  datatype Step = Loop(x: Sample) | Trigger(immediate: bool, name: string) | Callback(success: bool)

  function Next(s: Schedule, c: Config, step: Step): Schedule
  {
    match step
    case Loop(x) => Looped(s, c, x)
    case Trigger(immediate, name) => s.(triggers := WithTrigger(s.triggers, name), pendingImmediate := immediate || s.pendingImmediate)
    case Callback(success) => Confirmed(s, success)
  }

  /** A publish made: when and why. */
  datatype PublishRecord = PublishRecord(at: nat, reason: PublishReason)

  /**
   * The run so far: the schedule, all publishes, where the grid was last restarted, the TIME publishes
   * since, and whether since the last publish a request or trigger came up that could not be sent.
   */
  datatype Run = Run(s: Schedule, publishes: seq<PublishRecord>, base: nat, times: nat, owed: bool)

  /** The sample decides for a publish for a trigger or a request, which only the connection can hold back. */
  predicate AsksNow(s: Schedule, c: Config, x: Sample)
  {
    Decides(s, c, x) && Evaluated(s, c, x.now).reason != TIME
  }

  function Advance(r: Run, c: Config, step: Step): Run
  {
    var s' := Next(r.s, c, step);
    if !step.Loop? then r.(s := s')
    else if !Publishes(r.s, c, step.x) then r.(s := s', owed := r.owed || AsksNow(r.s, c, step.x))
    else
      var reason := Evaluated(r.s, c, step.x.now).reason;
      var restart := reason != TIME || r.owed;
      Run(s', r.publishes + [PublishRecord(step.x.now, reason)],
          if restart then step.x.now else r.base,
          if restart then 0 else r.times + 1, false)
  }

  /** The run from a settled schedule whose grid starts at its monotonic time. */
  function After(start: Schedule, c: Config, steps: seq<Step>): Run
  {
    if steps == [] then Run(start, [PublishRecord(start.lastPublish, NONE)], start.monotonic, 0, start.newMonotonic)
    else Advance(After(start, c, steps[..|steps| - 1]), c, steps[|steps| - 1])
  }

  ghost predicate ClockRuns(steps: seq<Step>, from: nat, to: nat)
  {
    && (forall i :: 0 <= i < |steps| && steps[i].Loop? ==> from <= steps[i].x.now <= to)
    && (forall i, j :: 0 <= i < j < |steps| && steps[i].Loop? && steps[j].Loop? ==> steps[i].x.now <= steps[j].x.now)
  }

  /** Publishes for triggers keep the minimum interval to the publish before them. */
  ghost predicate DistancesKept(publishes: seq<PublishRecord>, c: Config)
  {
    forall k :: 0 < k < |publishes| && publishes[k].reason == TRIGGERS ==>
      publishes[k - 1].at + c.intervalMin <= publishes[k].at
  }

  ghost predicate OnGrid(r: Run, c: Config, now: nat)
  {
    && Settled(r.s) && Ordered(r.s, now) && r.s.newMonotonic == r.owed
    && r.s.monotonic == r.base + r.times * c.intervalMax
    && r.publishes != [] && r.publishes[|r.publishes| - 1].at == r.s.lastPublish
    && DistancesKept(r.publishes, c)
  }

  lemma AdvanceStaysOnGrid(r: Run, c: Config, step: Step, was: nat, now: nat)
    requires OnGrid(r, c, was) && was <= now < WRAP && (step.Loop? ==> step.x.now == now)
    ensures OnGrid(Advance(r, c, step), c, now)
  {
    if step.Loop? && Publishes(r.s, c, step.x) {
      LoopKeepsOrder(r.s, c, step.x);
      if Evaluated(r.s, c, now).reason == TRIGGERS {
        TriggersKeepDistance(r.s, c, step.x);
      }
      GridStep(r.s, c, step.x);
      OneIntervalMore(r.times, c.intervalMax);
      hide Publishes, Decided, Evaluated, Looped;
    }
  }

  /** Whatever is raised stays listed until the next publish, and nothing else is: names but for that of the time. */
  lemma {:induction false} ListedIffRaised(start: Schedule, c: Config, steps: seq<Step>, name: string)
    requires Silent(start, c, steps) && name != "time"
    ensures name in After(start, c, steps).s.triggers
            <==> name in start.triggers || exists i :: 0 <= i < |steps| && steps[i].Trigger? && steps[i].name == name
  {
    if steps != [] {
      var n := |steps| - 1;
      var before := steps[..n];
      SilentBefore(start, c, steps);
      ListedIffRaised(start, c, before, name);
      assert forall i :: 0 <= i < n ==> before[i] == steps[i];
      var s := After(start, c, before).s;
      assert After(start, c, steps).s == Next(s, c, steps[n]);
      assert steps[n].Loop? ==> !Publishes(s, c, steps[n].x) by { assert steps[..n] == before; }
      if steps[n].Loop? { UnpublishedKeepsNames(s, c, steps[n].x, name); }
      hide Publishes, After, Looped, Silent;
    }
  }

  lemma UnpublishedKeepsNames(s: Schedule, c: Config, x: Sample, name: string)
    requires !Publishes(s, c, x) && name != "time"
    ensures name in Looped(s, c, x).triggers <==> name in s.triggers
  {
    hide Evaluated, Decides;
  }

  lemma SilentBefore(start: Schedule, c: Config, steps: seq<Step>)
    requires steps != [] && Silent(start, c, steps)
    ensures Silent(start, c, steps[..|steps| - 1])
  {
    var before := steps[..|steps| - 1];
    forall i | 0 <= i < |before| && before[i].Loop? ensures !Publishes(After(start, c, before[..i]).s, c, before[i].x) {
      assert before[..i] == steps[..i] && before[i] == steps[i];
    }
  }

  lemma OneIntervalMore(times: nat, interval: nat)
    ensures (times + 1) * interval == times * interval + interval
    ensures 0 * interval == 0
  {
  }

  /** Only a TIME publish moves along the grid; every other one restarts it. */
  lemma GridStep(s: Schedule, c: Config, x: Sample)
    requires Settled(s) && Ordered(s, x.now) && Publishes(s, c, x)
    ensures var restart := Evaluated(s, c, x.now).reason != TIME || s.newMonotonic;
            && Looped(s, c, x).monotonic == (if restart then x.now else s.monotonic + c.intervalMax)
            && (!restart ==> s.monotonic + c.intervalMax <= x.now)
            && !Looped(s, c, x).newMonotonic
  {
  }

  /**
   * Over every run with constant intervals: the order of times, the distance of trigger publishes,
   * and the grid. From where it was last restarted, n TIME publishes have moved it n intervals.
   */
  lemma {:induction false} AlwaysOnGrid(start: Schedule, c: Config, steps: seq<Step>, now: nat)
    requires Settled(start) && start.monotonic <= start.lastPublish <= now < WRAP
    requires ClockRuns(steps, start.lastPublish, now)
    ensures OnGrid(After(start, c, steps), c, now)
    decreases |steps|
  {
    if steps != [] {
      var n := |steps| - 1;
      var before, last := steps[..n], steps[n];
      var was := LatestBefore(steps, start.lastPublish, now);
      AlwaysOnGrid(start, c, before, was);
      AdvanceStaysOnGrid(After(start, c, before), c, last, was, if last.Loop? then last.x.now else was);
    }
  }

  lemma LatestBefore(steps: seq<Step>, from: nat, to: nat) returns (was: nat)
    requires steps != [] && ClockRuns(steps, from, to) && from <= to
    ensures from <= was <= to && ClockRuns(steps[..|steps| - 1], from, was)
    ensures steps[|steps| - 1].Loop? ==> was == steps[|steps| - 1].x.now
  {
    var last := steps[|steps| - 1];
    was := if last.Loop? then last.x.now else to;
  }

  /** At most one TIME publish per maximum interval since the grid was last restarted. */
  lemma TimePublishesAreBounded(start: Schedule, c: Config, steps: seq<Step>, now: nat)
    requires Settled(start) && start.monotonic <= start.lastPublish <= now < WRAP && c.intervalMax > 0
    requires ClockRuns(steps, start.lastPublish, now)
    ensures var r := After(start, c, steps);
            r.base <= now && r.times <= (now - r.base) / c.intervalMax
  {
    AlwaysOnGrid(start, c, steps, now);
    var r := After(start, c, steps);
    Quotient(now - r.base, c.intervalMax, r.times);
  }

  lemma Quotient(n: int, d: nat, k: nat)
    requires d > 0 && k * d <= n
    ensures 0 <= n && k <= n / d
  {
    var q, r := n / d, n % d;
    assert n == q * d + r;
    assert (k - q) * d == k * d - q * d;
    LessThanOne(k - q, d);
  }

  lemma LessThanOne(m: int, d: nat)
    requires d > 0 && m * d < d
    ensures m <= 0
  {
  }

  /**
   * From a boot on, exactly when the first publish still counts as unconfirmed: until a publish callback
   * reports success, or, if acknowledgements are not processed, until it is made. It is pending from when
   * it is made.
   */
  lemma {:induction false} FirstPublishIsPending(start: Schedule, c: Config, steps: seq<Step>)
    requires start.firstPublish && !start.pendingFirst
    ensures var r := After(start, c, steps);
            && |r.publishes| >= 1
            && (r.s.firstPublish <==> Callback(true) !in steps && (|r.publishes| == 1 || c.processAck))
            && (r.s.pendingFirst <==> r.s.firstPublish && |r.publishes| > 1)
  {
    if steps != [] {
      var n := |steps| - 1;
      FirstPublishIsPending(start, c, steps[..n]);
      assert steps == steps[..n] + [steps[n]];
      if steps[n].Loop? { LoopKeepsFlags(After(start, c, steps[..n]).s, c, steps[n].x); }
      hide Publishes, Evaluated, Decides, Looped, AsksNow;
    }
  }

  lemma LoopKeepsFlags(s: Schedule, c: Config, x: Sample)
    ensures var s' := Looped(s, c, x);
            if Publishes(s, c, x)
            then s'.firstPublish == (s.firstPublish && c.processAck) && s'.pendingFirst == (s.pendingFirst || s'.firstPublish)
            else s'.firstPublish == s.firstPublish && s'.pendingFirst == s.pendingFirst
  {
    hide Evaluated, Decides;
  }

  /* ---- A request met offline ---- */

  /** No step of the run publishes. */
  ghost predicate Silent(start: Schedule, c: Config, steps: seq<Step>)
  {
    forall i :: 0 <= i < |steps| && steps[i].Loop? ==> !Publishes(After(start, c, steps[..i]).s, c, steps[i].x)
  }

  lemma {:induction false} RequestStaysListed(start: Schedule, c: Config, steps: seq<Step>, name: string)
    requires start.newMonotonic && name in start.triggers && Silent(start, c, steps)
    ensures var s := After(start, c, steps).s; s.newMonotonic && name in s.triggers
  {
    if steps != [] {
      var n := |steps| - 1;
      var before := steps[..n];
      SilentBefore(start, c, steps);
      RequestStaysListed(start, c, before, name);
      assert steps[..n] == before;
      hide Publishes, Decides;
    }
  }

  /**
   * Whatever happens between a request met offline and the next publish: the request is still listed
   * for that publish, which takes all triggers with it and restarts the grid.
   */
  lemma OfflineRequestIsPublishedLater(s: Schedule, c: Config, x: Sample, steps: seq<Step>, name: string, y: Sample)
    requires s.pendingImmediate && name in s.triggers && !x.online
    requires Silent(Looped(s, c, x), c, steps)
    requires Publishes(After(Looped(s, c, x), c, steps).s, c, y)
    ensures var s' := After(Looped(s, c, x), c, steps).s;
            && name in s'.triggers
            && Looped(s', c, y).triggers == []
            && Looped(s', c, y).monotonic == Looped(s', c, y).lastPublish == y.now
  {
    ImmediateIffOnline(s, c, x);
    RequestStaysListed(Looped(s, c, x), c, steps, name);
    hide After;
  }
}
