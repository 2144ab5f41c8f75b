/** The per-zone verification and event protocol of the geofence. */
module Geofencing {
  import opened Prelude
  import opened Polygon

  datatype EventType = UNKNOWN | POOR_LOCATION | INSIDE | OUTSIDE | ENTER | EXIT

  datatype Shape = CIRCULAR | POLYGONAL

  datatype ZoneInfo = ZoneInfo(
    polygonPoints: seq<PolygonPoint>, enable: bool, insideEvent: bool, outsideEvent: bool,
    enterEvent: bool, exitEvent: bool, verificationTimeSec: nat, shape: Shape)

  datatype ZoneState = ZoneState(prevEvent: EventType, pendingEvent: EventType, pendingTimeMs: nat)

  const FRESH := ZoneState(UNKNOWN, UNKNOWN, 0)

  datatype CallbackContext = CallbackContext(index: nat, event: EventType)

  /** `verification_time_sec * 1000` in 32-bit unsigned arithmetic. */
  function VerifyMs(sec: nat): nat
  {
    (sec * 1000) % WRAP
  }

  /** `System.millis() - pending_time_ms` in 64-bit unsigned arithmetic. */
  function Elapsed(now: nat, since: nat): nat
  {
    (now - since) % 0x1_0000_0000_0000_0000
  }

  function Side(outside: bool): EventType
  {
    if outside then OUTSIDE else INSIDE
  }

  predicate Stable(state: ZoneState, outside: bool, sec: nat)
  {
    state.pendingEvent == Side(outside) || sec == 0
  }

  /** The pending side and the time it is counted from, after one more sample. */
  function Pended(state: ZoneState, outside: bool, sec: nat, now: nat): ZoneState
  {
    if state.pendingTimeMs == 0 || !Stable(state, outside, sec)
    then state.(pendingEvent := Side(outside), pendingTimeMs := now)
    else state
  }

  predicate Triggered(state: ZoneState, outside: bool, sec: nat, now: nat)
  {
    Elapsed(now, Pended(state, outside, sec, now).pendingTimeMs) >= VerifyMs(sec) && Stable(state, outside, sec)
  }

  /** One evaluation of an enabled zone with a good location. */
  function ZoneStep(zone: ZoneInfo, state: ZoneState, outside: bool, now: nat): ZoneState
  {
    var pended := Pended(state, outside, zone.verificationTimeSec, now);
    if Triggered(state, outside, zone.verificationTimeSec, now) then pended.(prevEvent := Side(outside)) else pended
  }

  function ZoneEvents(zone: ZoneInfo, state: ZoneState, outside: bool, now: nat): seq<EventType>
  {
    if !Triggered(state, outside, zone.verificationTimeSec, now) then []
    else if outside then
      (if zone.outsideEvent then [OUTSIDE] else [])
      + (if zone.exitEvent && state.prevEvent == INSIDE then [EXIT] else [])
    else
      (if zone.insideEvent then [INSIDE] else [])
      + (if zone.enterEvent && state.prevEvent == OUTSIDE then [ENTER] else [])
  }

  /* ---- The whole loop ---- */

  class Geofence {
    var zones: seq<ZoneInfo>
    var states: seq<ZoneState>
    var lat: real
    var lon: real
    var hdop: real
    var maximumDop: real
    // What the registered callbacks have been told, oldest first.
    var events: seq<CallbackContext>

    ghost predicate Valid()
      reads this
    {
      |states| == |zones| && forall z :: z in zones && z.shape.POLYGONAL? ==> z.polygonPoints != []
    }

    /** Outside according to the zone's shape; the great-circle distance test is an input. */
    ghost predicate Outside(zone: ZoneInfo, farFromCenter: bool)
      requires zone.shape.POLYGONAL? ==> zone.polygonPoints != []
      reads this
    {
      match zone.shape
      case CIRCULAR => farFromCenter
      case POLYGONAL => !InPolygon(zone.polygonPoints, lat, lon)
    }

    method IsOutside(zone: ZoneInfo, farFromCenter: bool) returns (outside: bool)
      requires zone.shape.POLYGONAL? ==> zone.polygonPoints != []
      ensures outside <==> Outside(zone, farFromCenter)
      ensures zone.shape == CIRCULAR ==> outside == farFromCenter
      ensures zone.shape == POLYGONAL ==> outside == !InPolygon(zone.polygonPoints, lat, lon)
    {
      if zone.shape.CIRCULAR? {
        return farFromCenter;
      }
      var inside := IsPointInPolygon(zone.polygonPoints, lat, lon);
      return !inside;
    }

    method IsEventTriggered(outside: bool, zone: ZoneInfo, index: nat, now: nat) returns (triggered: bool)
      requires index < |states|
      modifies this`states
      ensures states == old(states)[index := Pended(old(states)[index], outside, zone.verificationTimeSec, now)]
      ensures triggered <==> Triggered(old(states)[index], outside, zone.verificationTimeSec, now)
    {
      triggered := false;
      var stable := (outside && states[index].pendingEvent == OUTSIDE) || (!outside && states[index].pendingEvent == INSIDE)
                    || zone.verificationTimeSec == 0;
      if states[index].pendingTimeMs == 0 || !stable {
        states := states[index := states[index].(pendingEvent := if outside then OUTSIDE else INSIDE)];
        states := states[index := states[index].(pendingTimeMs := now)];
      }
      if Elapsed(now, states[index].pendingTimeMs) >= VerifyMs(zone.verificationTimeSec) && stable {
        triggered := true;
      }
    }

    method Notify(index: nat, event: EventType)
      modifies this`events
      ensures events == old(events) + [CallbackContext(index, event)]
    {
      events := events + [CallbackContext(index, event)];
    }

    /** One enabled zone with a good location: its events in order, then its new state. */
    method Evaluate(zone: ZoneInfo, index: nat, farFromCenter: bool, now: nat)
      requires Valid() && index < |zones| && (zone.shape.POLYGONAL? ==> zone.polygonPoints != [])
      modifies this`states, this`events
      ensures Valid()
      ensures var outside := old(Outside(zone, farFromCenter));
              && states == old(states)[index := ZoneStep(zone, old(states)[index], outside, now)]
              && events == old(events) + Tagged(index, ZoneEvents(zone, old(states)[index], outside, now))
    {
      hide InPolygon, Pended, Triggered;
      var outside := IsOutside(zone, farFromCenter);
      var zoneState := states[index];
      var triggered := IsEventTriggered(outside, zone, index, now);
      if triggered {
        if outside {
          if zone.outsideEvent {
            Notify(index, OUTSIDE);
          }
          if zone.exitEvent {
            if zoneState.prevEvent == INSIDE {
              Notify(index, EXIT);
            }
          }
          states := states[index := states[index].(prevEvent := OUTSIDE)];
        } else {
          if zone.insideEvent {
            Notify(index, INSIDE);
          }
          if zone.enterEvent {
            if zoneState.prevEvent == OUTSIDE {
              Notify(index, ENTER);
            }
          }
          states := states[index := states[index].(prevEvent := INSIDE)];
        }
      }
    }

    /**
     * One pass over the zones. With a good location every enabled zone takes its step and no other
     * zone changes. With a poor one no zone changes, and each enabled zone reports POOR_LOCATION
     * under the number of disabled zones before it.
     */
    method Loop(farFromCenter: seq<bool>, now: nat)
      requires Valid() && |farFromCenter| == |zones|
      modifies this`states, this`events
      ensures Valid()
      ensures hdop > maximumDop ==> states == old(states) && events == old(events) + PoorEvents(zones, 0)
      ensures hdop <= maximumDop ==>
                forall i :: 0 <= i < |zones| ==>
                  states[i] == if zones[i].enable
                               then ZoneStep(zones[i], old(states)[i], old(Outside(zones[i], farFromCenter[i])), now)
                               else old(states)[i]
      ensures hdop <= maximumDop ==> events == old(events) + old(PassEvents(farFromCenter, now, 0))
    {
      hide ZoneStep, ZoneEvents, Tagged, InPolygon, PoorEvents;
      var zoneIndex := 0;
      ghost var start := events;
      for i := 0 to |zones|
        invariant Valid()
        invariant zoneIndex <= i && (hdop <= maximumDop ==> zoneIndex == i)
        invariant hdop > maximumDop ==> states == old(states)
        invariant hdop > maximumDop ==> events + PoorEvents(zones[i..], zoneIndex) == start + PoorEvents(zones, 0)
        invariant hdop <= maximumDop ==>
                    forall k :: 0 <= k < |zones| ==>
                      states[k] == if k < i && zones[k].enable
                                   then ZoneStep(zones[k], old(states)[k], old(Outside(zones[k], farFromCenter[k])), now)
                                   else old(states)[k]
        invariant hdop <= maximumDop ==> events + old(PassEvents(farFromCenter, now, i)) == start + old(PassEvents(farFromCenter, now, 0))
      {
        var zone := zones[i];
        assert zones[i..][1..] == zones[i + 1..];
        PoorEventsUnfolds(zones[i..], zoneIndex);
        if zone.enable {
          if hdop > maximumDop {
            Notify(zoneIndex, POOR_LOCATION);
            continue;
          }
          Evaluate(zone, zoneIndex, farFromCenter[i], now);
        }
        zoneIndex := zoneIndex + 1;
      }
      PoorEventsUnfolds([], zoneIndex);
    }

    /** The events of zones i and up, zone by zone. */
    ghost function PassEvents(farFromCenter: seq<bool>, now: nat, i: nat): seq<CallbackContext>
      requires Valid() && |farFromCenter| == |zones| && i <= |zones|
      reads this
      decreases |zones| - i
    {
      if i == |zones| then []
      else
        (if zones[i].enable
         then Tagged(i, ZoneEvents(zones[i], states[i], Outside(zones[i], farFromCenter[i]), now))
         else [])
        + PassEvents(farFromCenter, now, i + 1)
    }
  }

  function Tagged(index: nat, events: seq<EventType>): seq<CallbackContext>
  {
    seq(|events|, i requires 0 <= i < |events| => CallbackContext(index, events[i]))
  }

  function PoorEvents(zones: seq<ZoneInfo>, index: nat): seq<CallbackContext>
  {
    if zones == [] then []
    else if zones[0].enable then [CallbackContext(index, POOR_LOCATION)] + PoorEvents(zones[1..], index)
    else PoorEvents(zones[1..], index + 1)
  }

  lemma PoorEventsUnfolds(zones: seq<ZoneInfo>, index: nat)
    ensures zones == [] ==> PoorEvents(zones, index) == []
    ensures zones != [] && zones[0].enable ==>
              PoorEvents(zones, index) == [CallbackContext(index, POOR_LOCATION)] + PoorEvents(zones[1..], index)
    ensures zones != [] && !zones[0].enable ==> PoorEvents(zones, index) == PoorEvents(zones[1..], index + 1)
  {
  }

  /** How many zones before the i-th are enabled. */
  function EnabledBefore(zones: seq<ZoneInfo>, i: nat): (k: nat)
    requires i <= |zones|
    ensures k <= i
    ensures k == 0 <==> forall j :: 0 <= j < i ==> !zones[j].enable
  {
    if i == 0 then 0 else EnabledBefore(zones, i - 1) + if zones[i - 1].enable then 1 else 0
  }

  lemma {:induction false} EnabledBeforeFirst(zones: seq<ZoneInfo>, i: nat)
    requires 0 < i <= |zones|
    ensures EnabledBefore(zones, i) == (if zones[0].enable then 1 else 0) + EnabledBefore(zones[1..], i - 1)
  {
    if i > 1 {
      EnabledBeforeFirst(zones, i - 1);
    }
  }

  /** With a poor location the event of an enabled zone is numbered short by the enabled zones before it. */
  lemma {:induction false} PoorIndex(zones: seq<ZoneInfo>, index: nat, i: nat)
    requires i < |zones| && zones[i].enable
    ensures var k := EnabledBefore(zones, i);
            k < |PoorEvents(zones, index)| && PoorEvents(zones, index)[k] == CallbackContext(index + i - k, POOR_LOCATION)
  {
    if i > 0 {
      EnabledBeforeFirst(zones, i);
      PoorIndex(zones[1..], if zones[0].enable then index else index + 1, i - 1);
    }
  }

  /** So the event names its own zone exactly when no enabled zone precedes it. */
  lemma PoorIndexIsOwn(zones: seq<ZoneInfo>, i: nat)
    requires i < |zones| && zones[i].enable
    ensures var k := EnabledBefore(zones, i);
            && k < |PoorEvents(zones, 0)|
            && (PoorEvents(zones, 0)[k].index == i <==> forall j :: 0 <= j < i ==> !zones[j].enable)
  {
    PoorIndex(zones, 0, i);
  }

  /** Two enabled zones: both events name the first. */
  lemma SecondZoneIsMisnamed(a: ZoneInfo, b: ZoneInfo)
    requires a.enable && b.enable
    ensures PoorEvents([a, b], 0) == [CallbackContext(0, POOR_LOCATION), CallbackContext(0, POOR_LOCATION)]
  {
    var event := CallbackContext(0, POOR_LOCATION);
    assert [a, b][1..] == [b] && [b][1..] == [];
    assert PoorEvents([b], 0) == [event] + PoorEvents([], 0) == [event];
    assert PoorEvents([a, b], 0) == [event] + PoorEvents([b], 0);
  }

  /* ---- Runs of one zone ---- */

  /** One evaluated sample of a zone: its settings, its side and the time. */
  datatype Sample = Sample(zone: ZoneInfo, outside: bool, now: nat)

  function After(start: ZoneState, samples: seq<Sample>): ZoneState
  {
    if samples == [] then start
    else
      var last := samples[|samples| - 1];
      ZoneStep(last.zone, After(start, samples[..|samples| - 1]), last.outside, last.now)
  }

  /** Whether the last sample of the run triggers. */
  predicate Fires(start: ZoneState, samples: seq<Sample>)
    requires samples != []
  {
    var last := samples[|samples| - 1];
    Triggered(After(start, samples[..|samples| - 1]), last.outside, last.zone.verificationTimeSec, last.now)
  }

  /** Time never runs backwards, and verification is never switched off. */
  ghost predicate Timed(samples: seq<Sample>)
  {
    && (forall i, j :: 0 <= i <= j < |samples| ==> samples[i].now <= samples[j].now)
    && (forall i :: 0 <= i < |samples| ==> samples[i].now < 0x1_0000_0000_0000_0000 && VerifyMs(samples[i].zone.verificationTimeSec) > 0)
  }

  /** Every sample from j on has been on the last sample's side. */
  ghost predicate SteadySince(samples: seq<Sample>, j: int)
  {
    0 <= j < |samples| && forall k :: j <= k < |samples| ==> samples[k].outside == samples[|samples| - 1].outside
  }

  /** What the zone state remembers of a run: the current side, and the oldest non-zero time of its unbroken stretch. */
  lemma {:induction false} StateRemembersStretch(samples: seq<Sample>)
    requires Timed(samples) && samples != []
    ensures var s := After(FRESH, samples);
            && s.pendingEvent == Side(samples[|samples| - 1].outside)
            && (forall j :: SteadySince(samples, j) && samples[j].now != 0 ==> 0 < s.pendingTimeMs <= samples[j].now)
            && (s.pendingTimeMs != 0 ==> exists j :: SteadySince(samples, j) && samples[j].now == s.pendingTimeMs)
  {
    var n := |samples| - 1;
    var before, last := samples[..n], samples[n];
    var s, s' := After(FRESH, before), After(FRESH, samples);
    assert SteadySince(samples, n);
    assert s' == ZoneStep(last.zone, s, last.outside, last.now);
    assert VerifyMs(last.zone.verificationTimeSec) > 0;
    StepRemembers(last.zone, s, last.outside, last.now);
    if before == [] {
      assert s == FRESH;
      hide After, ZoneStep;
    } else {
      StateRemembersStretch(before);
      hide After, ZoneStep;
      if last.outside == before[n - 1].outside {
        forall j | 0 <= j < n ensures SteadySince(samples, j) <==> SteadySince(before, j) {
          StretchGrows(samples, j);
        }
      } else {
        forall j | 0 <= j < n ensures !SteadySince(samples, j) { StretchBreaks(samples, j); }
      }
    }
  }

  /** A step keeps the time of an unbroken stretch, and starts another one otherwise. */
  lemma StepRemembers(zone: ZoneInfo, s: ZoneState, outside: bool, now: nat)
    requires VerifyMs(zone.verificationTimeSec) > 0
    ensures var s' := ZoneStep(zone, s, outside, now);
            && s'.pendingEvent == Side(outside)
            && s'.pendingTimeMs == if s.pendingEvent == Side(outside) && s.pendingTimeMs != 0 then s.pendingTimeMs else now
  {
  }

  lemma StretchGrows(samples: seq<Sample>, j: int)
    requires 0 <= j < |samples| - 1
    requires samples[|samples| - 1].outside == samples[|samples| - 2].outside
    ensures SteadySince(samples, j) <==> SteadySince(samples[..|samples| - 1], j)
  {
  }

  lemma StretchBreaks(samples: seq<Sample>, j: int)
    requires 0 <= j < |samples| - 1
    requires samples[|samples| - 1].outside != samples[|samples| - 2].outside
    ensures !SteadySince(samples, j)
  {
  }

  /**
   * A sample triggers exactly when all evaluated samples since some moment, at least the
   * verification time ago, have been on its side. (A time of exactly zero does not count as a moment.)
   */
  lemma FiresIffSteady(samples: seq<Sample>)
    requires Timed(samples) && samples != []
    ensures var last := samples[|samples| - 1];
            Fires(FRESH, samples) <==>
            exists j :: SteadySince(samples, j) && samples[j].now != 0
                        && last.now - samples[j].now >= (last.zone.verificationTimeSec * 1000) % 0x1_0000_0000
  {
    hide After, Fires;
    if Fires(FRESH, samples) {
      var j := FiresAfterSteady(samples);
    }
    var last := samples[|samples| - 1];
    if j :| SteadySince(samples, j) && samples[j].now != 0
            && last.now - samples[j].now >= VerifyMs(last.zone.verificationTimeSec) {
      SteadyFires(samples, j);
    }
  }

  lemma FiredSince(samples: seq<Sample>)
    requires Timed(samples) && samples != [] && Fires(FRESH, samples)
    ensures var s, last := After(FRESH, samples), samples[|samples| - 1];
            s.pendingTimeMs != 0 && (s.pendingTimeMs <= last.now ==> last.now - s.pendingTimeMs >= VerifyMs(last.zone.verificationTimeSec))
  {
  }

  lemma FiresAfterSteady(samples: seq<Sample>) returns (j: int)
    requires Timed(samples) && samples != [] && Fires(FRESH, samples)
    ensures SteadySince(samples, j) && samples[j].now != 0
    ensures var last := samples[|samples| - 1];
            last.now - samples[j].now >= VerifyMs(last.zone.verificationTimeSec)
  {
    StateRemembersStretch(samples);
    var s := After(FRESH, samples);
    FiredSince(samples);
    hide SteadySince, After, Fires, Timed;
    j :| SteadySince(samples, j) && 0 <= j < |samples| && samples[j].now == s.pendingTimeMs;
  }

  lemma SteadyFires(samples: seq<Sample>, j: int)
    requires Timed(samples) && SteadySince(samples, j) && samples[j].now != 0
    requires var last := samples[|samples| - 1];
             last.now - samples[j].now >= VerifyMs(last.zone.verificationTimeSec)
    ensures Fires(FRESH, samples)
  {
    var n := |samples| - 1;
    var before := samples[..n];
    assert j < n;
    StretchGrows(samples, j);
    StateRemembersStretch(before);
    assert SteadySince(before, j) && before[j].now == samples[j].now && before[n - 1].outside == samples[n].outside;
    hide SteadySince, Triggered, After;
    TriggersWhenSteady(After(FRESH, before), samples[n].outside, samples[n].zone.verificationTimeSec, samples[j].now, samples[n].now);
  }

  lemma TriggersWhenSteady(s: ZoneState, outside: bool, sec: nat, since: nat, now: nat)
    requires s.pendingEvent == Side(outside) && 0 < s.pendingTimeMs <= since <= now < 0x1_0000_0000_0000_0000
    requires now - since >= VerifyMs(sec)
    ensures Triggered(s, outside, sec, now)
  {
  }

  /* ---- ENTER and EXIT ---- */

  function RunEvents(start: ZoneState, samples: seq<Sample>): seq<EventType>
  {
    if samples == [] then []
    else
      var n := |samples| - 1;
      RunEvents(start, samples[..n])
      + ZoneEvents(samples[n].zone, After(start, samples[..n]), samples[n].outside, samples[n].now)
  }

  function Crossings(events: seq<EventType>): seq<EventType>
  {
    if events == [] then [] else CrossingOf(events[0]) + Crossings(events[1..])
  }

  function CrossingOf(event: EventType): seq<EventType>
  {
    if event == ENTER || event == EXIT then [event] else []
  }

  lemma {:induction false} CrossingsAppend(a: seq<EventType>, b: seq<EventType>)
    ensures Crossings(a + b) == Crossings(a) + Crossings(b)
  {
    hide CrossingOf;
    if a == [] {
      assert a + b == b;
    } else {
      CrossingsAppend(a[1..], b);
      assert (a + b)[1..] == a[1..] + b;
      assert (a + b)[0] == a[0];
      assert Crossings(a + b) == CrossingOf(a[0]) + Crossings(a[1..] + b);
    }
  }

  ghost predicate Alternates(events: seq<EventType>)
  {
    forall i :: 0 <= i < |events| - 1 ==> events[i] != events[i + 1]
  }

  /** ENTER and EXIT in turn, the last of them leaving the zone with the side it led to. */
  ghost predicate AlternatesUpTo(crossings: seq<EventType>, side: EventType)
  {
    && Alternates(crossings)
    && (forall i :: 0 <= i < |crossings| ==> crossings[i] == ENTER || crossings[i] == EXIT)
    && (crossings != [] ==> side == if crossings[|crossings| - 1] == ENTER then INSIDE else OUTSIDE)
  }

  ghost predicate BothFlagsOn(samples: seq<Sample>)
  {
    forall i :: 0 <= i < |samples| ==> samples[i].zone.enterEvent && samples[i].zone.exitEvent
  }

  /** What arriving on a side reports, having been on `from`. */
  function CrossingTo(outside: bool, from: EventType): seq<EventType>
  {
    if outside && from == INSIDE then [EXIT] else if !outside && from == OUTSIDE then [ENTER] else []
  }

  lemma CrossingKeepsAlternation(crossings: seq<EventType>, side: EventType, outside: bool)
    requires AlternatesUpTo(crossings, side)
    ensures AlternatesUpTo(crossings + CrossingTo(outside, side), Side(outside))
  {
  }

  lemma StepCrossings(zone: ZoneInfo, state: ZoneState, outside: bool, now: nat)
    requires zone.enterEvent && zone.exitEvent
    ensures Crossings(ZoneEvents(zone, state, outside, now)) ==
            if Triggered(state, outside, zone.verificationTimeSec, now) then CrossingTo(outside, state.prevEvent) else []
  {
    CrossingsAppend(if outside then (if zone.outsideEvent then [OUTSIDE] else []) else (if zone.insideEvent then [INSIDE] else []),
                    if outside then (if state.prevEvent == INSIDE then [EXIT] else []) else (if state.prevEvent == OUTSIDE then [ENTER] else []));
  }

  /** With both flags on, the zone never enters twice without leaving in between, nor leaves twice. */
  lemma {:induction false} EntersAndExitsAlternate(start: ZoneState, samples: seq<Sample>)
    requires BothFlagsOn(samples)
    ensures AlternatesUpTo(Crossings(RunEvents(start, samples)), After(start, samples).prevEvent)
  {
    if samples != [] {
      var n := |samples| - 1;
      var before, last := samples[..n], samples[n];
      var state := After(start, before);
      EntersAndExitsAlternate(start, before);
      var events := ZoneEvents(last.zone, state, last.outside, last.now);
      CrossingsAppend(RunEvents(start, before), events);
      StepCrossings(last.zone, state, last.outside, last.now);
      CrossingKeepsAlternation(Crossings(RunEvents(start, before)), state.prevEvent, last.outside);
      StepTakesSide(last.zone, state, last.outside, last.now);
      assert RunEvents(start, samples) == RunEvents(start, before) + events;
      assert After(start, samples) == ZoneStep(last.zone, state, last.outside, last.now);
      hide *;
      assert Crossings(RunEvents(start, before)) + [] == Crossings(RunEvents(start, before));
    }
  }

  lemma StepTakesSide(zone: ZoneInfo, state: ZoneState, outside: bool, now: nat)
    ensures ZoneStep(zone, state, outside, now).prevEvent
            == if Triggered(state, outside, zone.verificationTimeSec, now) then Side(outside) else state.prevEvent
  {
    hide Triggered;
  }

  /* ---- What a sample reports ---- */

  /** The side of the last sample that triggered. */
  function LastSide(start: ZoneState, samples: seq<Sample>): EventType
  {
    if samples == [] then start.prevEvent
    else if Fires(start, samples) then Side(samples[|samples| - 1].outside)
    else LastSide(start, samples[..|samples| - 1])
  }

  lemma {:induction false} StateRemembersSide(start: ZoneState, samples: seq<Sample>)
    ensures After(start, samples).prevEvent == LastSide(start, samples)
  {
    if samples != [] {
      var n := |samples| - 1;
      StateRemembersSide(start, samples[..n]);
      StepTakesSide(samples[n].zone, After(start, samples[..n]), samples[n].outside, samples[n].now);
      hide ZoneStep, Triggered;
    }
  }

  /**
   * Over every run, from any state and under any settings: a sample that does not trigger reports nothing.
   * One that does reports its side, if the zone asks for that, and then the crossing, if the zone asks for
   * that and the sample that triggered last was on the other side.
   */
  lemma ReportsExactly(start: ZoneState, samples: seq<Sample>)
    requires samples != []
    ensures var n := |samples| - 1;
            var zone, outside, was := samples[n].zone, samples[n].outside, LastSide(start, samples[..n]);
            var events := ZoneEvents(zone, After(start, samples[..n]), outside, samples[n].now);
            if !Fires(start, samples) then events == []
            else
              events == (if outside && zone.outsideEvent then [OUTSIDE] else if !outside && zone.insideEvent then [INSIDE] else [])
                        + (if outside && zone.exitEvent && was == INSIDE then [EXIT]
                           else if !outside && zone.enterEvent && was == OUTSIDE then [ENTER] else [])
  {
    StateRemembersSide(start, samples[..|samples| - 1]);
    hide Triggered;
  }

  /** A zone that asks for no verification triggers at every sample. */
  lemma NoVerificationFiresAtOnce(start: ZoneState, samples: seq<Sample>)
    requires samples != [] && samples[|samples| - 1].zone.verificationTimeSec == 0
    ensures Fires(start, samples)
  {
  }

  /** Events of enabled zones from the i-th on, zone by zone. */
  ghost predicate InOrder(events: seq<CallbackContext>, zones: seq<ZoneInfo>, i: nat)
  {
    && (forall k :: 0 <= k < |events| ==> i <= events[k].index < |zones| && zones[events[k].index].enable)
    && (forall j, k :: 0 <= j < k < |events| ==> events[j].index <= events[k].index)
  }

  lemma MoreInOrder(zones: seq<ZoneInfo>, i: nat, events: seq<EventType>, rest: seq<CallbackContext>)
    requires i < |zones| && InOrder(rest, zones, i + 1)
    ensures InOrder(rest, zones, i) && (zones[i].enable ==> InOrder(Tagged(i, events) + rest, zones, i))
  {
  }

  /** The events of one pass are those of enabled zones, zone by zone. */
  lemma {:induction false} PassIsInOrder(g: Geofence, farFromCenter: seq<bool>, now: nat, i: nat)
    requires g.Valid() && |farFromCenter| == |g.zones| && i <= |g.zones|
    ensures InOrder(g.PassEvents(farFromCenter, now, i), g.zones, i)
    decreases |g.zones| - i
  {
    if i < |g.zones| {
      var rest := g.PassEvents(farFromCenter, now, i + 1);
      PassIsInOrder(g, farFromCenter, now, i + 1);
      assert [] + rest == rest;
      hide ZoneEvents, InPolygon, InOrder, Tagged;
      MoreInOrder(g.zones, i, ZoneEvents(g.zones[i], g.states[i], g.Outside(g.zones[i], farFromCenter[i]), now), rest);
    }
  }
}
