/** The press state machine of a debounced switch, and the callbacks it makes. */
module DebounceSwitch {
  import opened Prelude

  datatype PressState =
    | NOT_PRESSED | PRESS_START | SHORT | LONG | PROGRESS | VERY_LONG | WAIT_RELEASE | RELEASED | TAP
    | TOGGLE_START | TOGGLE_LOW | TOGGLE_HIGH

  /** A callback: the state it reports, and the tap count it can ask for. */
  datatype Call = Call(state: PressState, taps: nat)

  datatype Config = Config(interTapMs: nat, longPressMs: nat, veryLongPressMs: nat)

  /** One `run()`: the settings, whether the switch is pressed, and the time. */
  datatype Sample = Sample(config: Config, pressed: bool, now: nat)

  datatype Switch = Switch(state: PressState, pressMs: nat, releaseMs: nat, taps: nat)

  function SignalToPressState(pressed: bool): PressState
  {
    if pressed then TOGGLE_HIGH else TOGGLE_LOW
  }

  /** The switch and its callbacks after one run. */
  function Ran(s: Switch, x: Sample): (Switch, seq<Call>)
  {
    match s.state
    case NOT_PRESSED =>
      if x.pressed then (s.(state := PRESS_START, pressMs := x.now), [Call(PRESS_START, s.taps)]) else (s, [])
    case PRESS_START =>
      if x.config.longPressMs == 0 then (s.(state := WAIT_RELEASE, taps := s.taps + 1), [Call(SHORT, s.taps)])
      else if Since(x.now, s.pressMs) >= x.config.longPressMs then
        if x.config.veryLongPressMs == 0 then (s.(state := WAIT_RELEASE), [Call(LONG, s.taps)])
        else (s.(state := PROGRESS), [Call(PROGRESS, s.taps)])
      else if !x.pressed then
        (s.(state := RELEASED, taps := s.taps + 1, releaseMs := x.now), [Call(SHORT, s.taps), Call(RELEASED, s.taps + 1)])
      else (s, [])
    case PROGRESS =>
      if Since(x.now, s.pressMs) >= x.config.veryLongPressMs then (s.(state := VERY_LONG), [Call(VERY_LONG, s.taps)])
      else if !x.pressed then (s.(state := RELEASED, releaseMs := x.now), [Call(LONG, s.taps), Call(RELEASED, s.taps)])
      else (s, [])
    case VERY_LONG => Releasing(s, x)
    case WAIT_RELEASE => Releasing(s, x)
    case RELEASED =>
      var (ended, calls) :=
        if Since(x.now, s.releaseMs) >= x.config.interTapMs
        then (Switch(NOT_PRESSED, s.pressMs, 0, 0), if s.taps > 0 then [Call(TAP, s.taps)] else [])
        else (s, []);
      if x.pressed then (ended.(state := PRESS_START, pressMs := x.now, releaseMs := 0), calls + [Call(PRESS_START, ended.taps)])
      else (ended, calls)
    case TOGGLE_START => (s.(state := SignalToPressState(x.pressed)), [Call(SignalToPressState(x.pressed), s.taps)])
    case TOGGLE_LOW => Toggling(s, x)
    case TOGGLE_HIGH => Toggling(s, x)
    case _ => (s, [])
  }

  function Releasing(s: Switch, x: Sample): (Switch, seq<Call>)
  {
    if !x.pressed then (s.(state := RELEASED, releaseMs := x.now), [Call(RELEASED, s.taps)]) else (s, [])
  }

  function Toggling(s: Switch, x: Sample): (Switch, seq<Call>)
  {
    var state := SignalToPressState(x.pressed);
    if state != s.state then (s.(state := state), [Call(state, s.taps)]) else (s, [])
  }

  class DebounceSwitchState {
    var pressState: PressState
    var pressMs: nat
    var releaseMs: nat
    var sequenceCount: nat
    var interTapMs: nat
    var longPressMs: nat
    var veryLongPressMs: nat
    // The callbacks made, oldest first.
    var calls: seq<Call>

    function Value(): Switch
      reads this
    {
      Switch(pressState, pressMs, releaseMs, sequenceCount)
    }

    function Settings(): Config
      reads this
    {
      Config(interTapMs, longPressMs, veryLongPressMs)
    }

    method SetPressState(state: PressState, callCallback: bool)
      modifies this`pressState, this`calls
      ensures pressState == state
      ensures calls == old(calls) + (if callCallback then [Call(state, sequenceCount)] else [])
    {
      pressState := state;
      if callCallback {
        calls := calls + [Call(state, sequenceCount)];
      }
    }

    method Run(pressed: bool, now: nat)
      modifies this`pressState, this`pressMs, this`releaseMs, this`sequenceCount, this`calls
      ensures var (s, made) := Ran(old(Value()), Sample(old(Settings()), pressed, now));
              Value() == s && calls == old(calls) + made
    {
      match pressState {
        case NOT_PRESSED =>
          if pressed {
            SetPressState(PRESS_START, true);
            pressMs := now;
          }
        case PRESS_START => RunPressed(now, pressed);
        case PROGRESS => RunProgress(now, pressed);
        case VERY_LONG => RunReleasing(pressed, now);
        case WAIT_RELEASE => RunReleasing(pressed, now);
        case RELEASED => RunReleased(now, pressed);
        case TOGGLE_START => SetPressState(SignalToPressState(pressed), true);
        case TOGGLE_LOW => RunToggling(pressed);
        case TOGGLE_HIGH => RunToggling(pressed);
        case _ =>
      }
    }

    /** Pressed: short, long, or on the way to very long. */
    method RunPressed(now: nat, pressed: bool)
      requires pressState.PRESS_START?
      modifies this`pressState, this`pressMs, this`releaseMs, this`sequenceCount, this`calls
      ensures var (s, made) := Ran(old(Value()), Sample(Settings(), pressed, now));
              Value() == s && calls == old(calls) + made
    {
      if longPressMs == 0 {
        SetPressState(SHORT, true);
        SetPressState(WAIT_RELEASE, false);
        sequenceCount := sequenceCount + 1;
      } else if Since(now, pressMs) >= longPressMs {
        if veryLongPressMs == 0 {
          SetPressState(LONG, true);
          SetPressState(WAIT_RELEASE, false);
        } else {
          SetPressState(PROGRESS, true);
        }
      } else if !pressed {
        SetPressState(SHORT, true);
        sequenceCount := sequenceCount + 1;
        SetPressState(RELEASED, true);
        releaseMs := now;
      }
    }

    /** Long enough for a long press: wait for the release or for very long. */
    method RunProgress(now: nat, pressed: bool)
      requires pressState.PROGRESS?
      modifies this`pressState, this`pressMs, this`releaseMs, this`sequenceCount, this`calls
      ensures var (s, made) := Ran(old(Value()), Sample(Settings(), pressed, now));
              Value() == s && calls == old(calls) + made
    {
      if Since(now, pressMs) >= veryLongPressMs {
        SetPressState(VERY_LONG, true);
      } else if !pressed {
        SetPressState(LONG, true);
        SetPressState(RELEASED, true);
        releaseMs := now;
      }
    }

    /** Released: the sequence ends after the inter-tap time, and a press may begin at once. */
    method RunReleased(now: nat, pressed: bool)
      requires pressState.RELEASED?
      modifies this`pressState, this`pressMs, this`releaseMs, this`sequenceCount, this`calls
      ensures var (s, made) := Ran(old(Value()), Sample(Settings(), pressed, now));
              Value() == s && calls == old(calls) + made
    {
      if Since(now, releaseMs) >= interTapMs {
        if sequenceCount > 0 {
          SetPressState(TAP, true);
        }
        SetPressState(NOT_PRESSED, false);
        releaseMs := 0;
        sequenceCount := 0;
      }
      if pressed {
        SetPressState(PRESS_START, true);
        pressMs := now;
        releaseMs := 0;
      }
    }

    method RunReleasing(pressed: bool, now: nat)
      modifies this`pressState, this`releaseMs, this`calls
      ensures var (s, made) := Releasing(old(Value()), Sample(Settings(), pressed, now));
              Value() == s && calls == old(calls) + made
    {
      if !pressed {
        SetPressState(RELEASED, true);
        releaseMs := now;
      }
    }

    method RunToggling(pressed: bool)
      modifies this`pressState, this`calls
      ensures var (s, made) := Toggling(old(Value()), Sample(Settings(), pressed, 0));
              Value() == s && calls == old(calls) + made
    {
      if SignalToPressState(pressed) != pressState {
        SetPressState(SignalToPressState(pressed), true);
      }
    }
  }

  /* ---- Runs ---- */

  const FRESH := Switch(NOT_PRESSED, 0, 0, 0)
  const FRESH_TOGGLE := Switch(TOGGLE_START, 0, 0, 0)

  function After(start: Switch, samples: seq<Sample>): (Switch, seq<Call>)
  {
    if samples == [] then (start, [])
    else
      var (s, calls) := After(start, samples[..|samples| - 1]);
      var (s', made) := Ran(s, samples[|samples| - 1]);
      (s', calls + made)
  }

  /**
   * Which callback may follow which in ((PRESS_START (SHORT | LONG | PROGRESS (LONG | VERY_LONG))
   * RELEASED)+ TAP?)*.
   */
  predicate Follows(a: PressState, b: PressState)
  {
    match a
    case PRESS_START => b.SHORT? || b.LONG? || b.PROGRESS?
    case PROGRESS => b.LONG? || b.VERY_LONG?
    case SHORT => b.RELEASED?
    case LONG => b.RELEASED?
    case VERY_LONG => b.RELEASED?
    case RELEASED => b.PRESS_START? || b.TAP?
    case TAP => b.PRESS_START?
    case _ => false
  }

  ghost predicate GoodTrace(calls: seq<Call>)
  {
    && (calls != [] ==> calls[0].state.PRESS_START?)
    && forall i :: 0 <= i < |calls| - 1 ==> Follows(calls[i].state, calls[i + 1].state)
  }

  /** The number of SHORTs since the last TAP. */
  function ShortsSinceTap(calls: seq<Call>): nat
  {
    if calls == [] || calls[|calls| - 1].state.TAP? then 0
    else ShortsSinceTap(calls[..|calls| - 1]) + if calls[|calls| - 1].state.SHORT? then 1 else 0
  }

  /** Every callback counts the SHORTs before it since the last TAP, and for a TAP there are some. */
  ghost predicate TapsCount(calls: seq<Call>)
  {
    forall i :: 0 <= i < |calls| ==>
      calls[i].taps == ShortsSinceTap(calls[..i]) && (calls[i].state.TAP? ==> calls[i].taps > 0)
  }

  /** What the state machine is waiting for, given the last callback. */
  predicate InTouch(state: PressState, calls: seq<Call>)
  {
    if calls == [] then state.NOT_PRESSED?
    else
      match calls[|calls| - 1].state
      case PRESS_START => state.PRESS_START?
      case PROGRESS => state.PROGRESS?
      case SHORT => state.WAIT_RELEASE?
      case LONG => state.WAIT_RELEASE?
      case VERY_LONG => state.VERY_LONG?
      case RELEASED => state.RELEASED? || state.NOT_PRESSED?
      case TAP => state.NOT_PRESSED?
      case _ => false
  }

  ghost predicate Kept(s: Switch, calls: seq<Call>)
  {
    GoodTrace(calls) && TapsCount(calls) && InTouch(s.state, calls) && s.taps == ShortsSinceTap(calls)
  }

  lemma CallAppended(calls: seq<Call>, c: Call)
    requires GoodTrace(calls) && TapsCount(calls)
    requires if calls == [] then c.state.PRESS_START? else Follows(calls[|calls| - 1].state, c.state)
    requires c.taps == ShortsSinceTap(calls) && (c.state.TAP? ==> c.taps > 0)
    ensures GoodTrace(calls + [c]) && TapsCount(calls + [c])
    ensures ShortsSinceTap(calls + [c]) ==
            if c.state.TAP? then 0 else ShortsSinceTap(calls) + if c.state.SHORT? then 1 else 0
  {
    var calls' := calls + [c];
    assert calls'[..|calls|] == calls;
    forall i | 0 <= i < |calls'|
      ensures calls'[i].taps == ShortsSinceTap(calls'[..i]) && (calls'[i].state.TAP? ==> calls'[i].taps > 0)
    {
      assert calls'[..i] == calls[..i];
    }
  }

  lemma RanKeeps(s: Switch, calls: seq<Call>, x: Sample)
    requires Kept(s, calls)
    ensures var (s', made) := Ran(s, x); Kept(s', calls + made)
  {
    var (s', made) := Ran(s, x);
    hide GoodTrace, TapsCount, ShortsSinceTap, Since;
    if |made| == 0 {
      assert calls + made == calls;
    } else {
      var one := calls + [made[0]];
      CallAppended(calls, made[0]);
      if |made| == 1 {
        assert calls + made == one;
      } else {
        CallAppended(one, made[1]);
        assert calls + made == one + [made[1]];
      }
    }
  }

  /**
   * Over every run of a momentary switch, whatever its settings and however they change, the
   * callbacks are a prefix of the language, and every TAP reports the SHORTs of its group.
   */
  lemma {:induction false} CallbacksAreRegular(samples: seq<Sample>)
    ensures var (s, calls) := After(FRESH, samples); Kept(s, calls)
  {
    if samples != [] {
      var (s, calls) := After(FRESH, samples[..|samples| - 1]);
      CallbacksAreRegular(samples[..|samples| - 1]);
      RanKeeps(s, calls, samples[|samples| - 1]);
    }
  }

  /** A toggle switch reports its position and then only changes of it. */
  lemma {:induction false} TogglesAlternate(samples: seq<Sample>)
    ensures var (s, calls) := After(FRESH_TOGGLE, samples);
            && (calls == [] ==> s.state.TOGGLE_START?)
            && (calls != [] ==> s.state == calls[|calls| - 1].state)
            && (samples != [] ==> s.state == if samples[|samples| - 1].pressed then TOGGLE_HIGH else TOGGLE_LOW)
            && (forall i :: 0 <= i < |calls| ==> calls[i].state.TOGGLE_LOW? || calls[i].state.TOGGLE_HIGH?)
            && (forall i :: 0 <= i < |calls| - 1 ==> calls[i].state != calls[i + 1].state)
  {
    if samples != [] {
      TogglesAlternate(samples[..|samples| - 1]);
    }
  }

  /* ---- The language itself ---- */

  /** PRESS_START (SHORT | LONG | PROGRESS (LONG | VERY_LONG)) RELEASED */
  predicate IsPress(t: seq<PressState>)
  {
    || t == [PRESS_START, SHORT, RELEASED]
    || t == [PRESS_START, LONG, RELEASED]
    || t == [PRESS_START, PROGRESS, LONG, RELEASED]
    || t == [PRESS_START, PROGRESS, VERY_LONG, RELEASED]
  }

  /** (press+ TAP?)*: a TAP comes right after a press only. */
  ghost predicate Word(t: seq<PressState>)
    decreases |t|
  {
    t == [] || exists n :: 3 <= n <= 4 && n <= |t| && StartsWithPress(t, n)
                           && (Word(t[n..]) || (n < |t| && t[n].TAP? && Word(t[n + 1..])))
  }

  predicate StartsWithPress(t: seq<PressState>, n: nat)
    requires n <= |t|
  {
    IsPress(t[..n])
  }

  /** The pairwise rule on states alone. */
  ghost predicate GoodStates(t: seq<PressState>)
  {
    && (t != [] ==> t[0].PRESS_START?)
    && forall i :: 0 <= i < |t| - 1 ==> Follows(t[i], t[i + 1])
  }

  /** Between sequences and after a release, the pairwise rule describes exactly the words of the language. */
  lemma {:induction false} GoodStatesAreWords(t: seq<PressState>)
    requires t == [] || t[|t| - 1].RELEASED? || t[|t| - 1].TAP?
    ensures GoodStates(t) <==> Word(t)
    decreases |t|
  {
    if t != [] {
      if GoodStates(t) {
        var n := FirstPress(t);
        AfterPress(t, n);
      }
      if Word(t) {
        var n :| 3 <= n <= 4 && n <= |t| && StartsWithPress(t, n)
                 && (Word(t[n..]) || (n < |t| && t[n].TAP? && Word(t[n + 1..])));
        PressThenGood(t, n);
      }
    }
  }

  lemma FirstPress(t: seq<PressState>) returns (n: nat)
    requires GoodStates(t) && t != [] && (t[|t| - 1].RELEASED? || t[|t| - 1].TAP?)
    ensures 3 <= n <= 4 && n <= |t| && StartsWithPress(t, n)
  {
    assert Follows(t[0], t[1]);
    assert Follows(t[1], t[2]);
    if t[1].PROGRESS? {
      assert Follows(t[2], t[3]);
      assert t[..4] == [t[0], t[1], t[2], t[3]];
      n := 4;
    } else {
      assert t[..3] == [t[0], t[1], t[2]];
      n := 3;
    }
  }

  lemma {:induction false} AfterPress(t: seq<PressState>, n: nat)
    requires GoodStates(t) && 3 <= n <= 4 && n <= |t| && StartsWithPress(t, n)
    requires t[|t| - 1].RELEASED? || t[|t| - 1].TAP?
    ensures Word(t)
    decreases |t|, 0
  {
    assert t[n - 1] == t[..n][n - 1] == RELEASED;
    if n < |t| {
      assert Follows(t[n - 1], t[n]);
      if t[n].TAP? {
        assert n + 1 < |t| ==> Follows(t[n], t[n + 1]);
        GoodSuffix(t, n + 1);
        GoodStatesAreWords(t[n + 1..]);
      } else {
        GoodSuffix(t, n);
        GoodStatesAreWords(t[n..]);
      }
    }
  }

  lemma GoodSuffix(t: seq<PressState>, n: nat)
    requires GoodStates(t) && n <= |t| && (n < |t| ==> t[n].PRESS_START?)
    ensures GoodStates(t[n..])
  {
  }

  lemma {:induction false} PressThenGood(t: seq<PressState>, n: nat)
    requires 3 <= n <= 4 && n <= |t| && StartsWithPress(t, n)
    requires t[|t| - 1].RELEASED? || t[|t| - 1].TAP?
    requires Word(t[n..]) || (n < |t| && t[n].TAP? && Word(t[n + 1..]))
    ensures GoodStates(t)
    decreases |t|, 0
  {
    PressFollows(t, n);
    var m := if Word(t[n..]) then n else n + 1;
    GoodStatesAreWords(t[m..]);
    hide Word, StartsWithPress;
    GoodJoins(t, n, m);
  }

  lemma GoodJoins(t: seq<PressState>, n: nat, m: nat)
    requires 3 <= n <= m <= n + 1 && m <= |t| && (n < m ==> t[n].TAP?)
    requires t[0].PRESS_START? && t[n - 1].RELEASED?
    requires forall i :: 0 <= i < n - 1 ==> Follows(t[i], t[i + 1])
    requires GoodStates(t[m..])
    ensures GoodStates(t)
  {
  }

  lemma PressFollows(t: seq<PressState>, n: nat)
    requires 3 <= n <= 4 && n <= |t| && StartsWithPress(t, n)
    ensures t[0].PRESS_START? && t[n - 1].RELEASED?
    ensures forall i :: 0 <= i < n - 1 ==> Follows(t[i], t[i + 1])
  {
  }

  lemma {:induction false} WordsEndReleased(t: seq<PressState>)
    requires Word(t) && t != []
    ensures t[|t| - 1].RELEASED? || t[|t| - 1].TAP?
    decreases |t|
  {
    var n :| 3 <= n <= 4 && n <= |t| && StartsWithPress(t, n)
             && (Word(t[n..]) || (n < |t| && t[n].TAP? && Word(t[n + 1..])));
    PressFollows(t, n);
    var m := if Word(t[n..]) then n else n + 1;
    if m < |t| { WordsEndReleased(t[m..]); }
  }

  /** What completes an unfinished press. */
  function Completion(last: PressState): seq<PressState>
  {
    match last
    case PRESS_START => [SHORT, RELEASED]
    case PROGRESS => [LONG, RELEASED]
    case SHORT => [RELEASED]
    case LONG => [RELEASED]
    case VERY_LONG => [RELEASED]
    case _ => []
  }

  /** Wherever it is cut, the pairwise rule describes exactly the prefixes of words. */
  lemma GoodStatesArePrefixes(t: seq<PressState>)
    ensures GoodStates(t) <==> exists u :: Word(t + u)
  {
    if GoodStates(t) {
      var u := if t == [] then [] else Completion(t[|t| - 1]);
      CompletionIsGood(t, u);
      GoodStatesAreWords(t + u);
    }
    if u :| Word(t + u) {
      if t != [] {
        WordsEndReleased(t + u);
        GoodStatesAreWords(t + u);
        GoodPrefix(t, u);
      }
    }
  }

  lemma GoodPrefix(t: seq<PressState>, u: seq<PressState>)
    requires GoodStates(t + u) && t != []
    ensures GoodStates(t)
  {
    assert t[0] == (t + u)[0];
    forall i | 0 <= i < |t| - 1 ensures Follows(t[i], t[i + 1]) {
      assert Follows((t + u)[i], (t + u)[i + 1]);
    }
  }

  lemma CompletionIsGood(t: seq<PressState>, u: seq<PressState>)
    requires GoodStates(t) && u == if t == [] then [] else Completion(t[|t| - 1])
    ensures GoodStates(t + u)
    ensures t + u == [] || (t + u)[|t + u| - 1].RELEASED? || (t + u)[|t + u| - 1].TAP?
  {
    var n := |t|;
    assert n > 1 ==> Follows(t[n - 2], t[n - 1]);
    forall i | 0 <= i < |t + u| - 1 ensures Follows((t + u)[i], (t + u)[i + 1]) {
      if i + 1 < n { assert Follows(t[i], t[i + 1]); }
    }
  }

  function States(calls: seq<Call>): seq<PressState>
  {
    seq(|calls|, i requires 0 <= i < |calls| => calls[i].state)
  }

  /** Over every run the callbacks are a prefix of a word of the language. */
  lemma CallbacksArePrefixes(samples: seq<Sample>)
    ensures exists u :: Word(States(After(FRESH, samples).1) + u)
  {
    CallbacksAreRegular(samples);
    var states := States(After(FRESH, samples).1);
    assert GoodStates(states);
    GoodStatesArePrefixes(states);
  }

  /* ---- When a callback is made ---- */

  /** The clock readings at which the callbacks of a run were made. */
  function Times(samples: seq<Sample>): seq<nat>
  {
    if samples == [] then []
    else
      var before, last := samples[..|samples| - 1], samples[|samples| - 1];
      Times(before) + TimesOf(Ran(After(FRESH, before).0, last).1, last.now)
  }

  function TimesOf(made: seq<Call>, now: nat): seq<nat>
  {
    seq(|made|, _ => now)
  }

  /** When a callback for a state was made last. */
  function LastAt(calls: seq<Call>, times: seq<nat>, state: PressState): nat
    requires |times| == |calls|
  {
    if calls == [] then 0
    else
      var n := |calls| - 1;
      if calls[n].state == state then times[n] else LastAt(calls[..n], times[..n], state)
  }

  ghost predicate TimesKept(s: Switch, calls: seq<Call>, times: seq<nat>)
  {
    && |times| == |calls| && (s.state.NOT_PRESSED? ==> s.taps == 0)
    && (s.state.PRESS_START? || s.state.PROGRESS? ==> s.pressMs == LastAt(calls, times, PRESS_START))
    && (s.state.RELEASED? ==> s.releaseMs == LastAt(calls, times, RELEASED))
  }

  lemma LastAtAppended(calls: seq<Call>, times: seq<nat>, c: Call, now: nat)
    requires |times| == |calls|
    ensures forall state :: LastAt(calls + [c], times + [now], state) == if c.state == state then now else LastAt(calls, times, state)
  {
    assert (calls + [c])[..|calls|] == calls && (times + [now])[..|calls|] == times;
  }

  lemma RanKeepsTimes(s: Switch, calls: seq<Call>, times: seq<nat>, x: Sample)
    requires Kept(s, calls) && TimesKept(s, calls, times)
    ensures var (s', made) := Ran(s, x); TimesKept(s', calls + made, times + TimesOf(made, x.now))
  {
    var (s', made) := Ran(s, x);
    hide GoodTrace, TapsCount, ShortsSinceTap, LastAt;
    if |made| == 0 {
      assert calls + made == calls && times + TimesOf(made, x.now) == times;
    } else {
      var one, then' := calls + [made[0]], times + [x.now];
      LastAtAppended(calls, times, made[0], x.now);
      if |made| == 1 {
        assert calls + made == one && times + TimesOf(made, x.now) == then';
      } else {
        LastAtAppended(one, then', made[1], x.now);
        assert calls + made == one + [made[1]] && times + TimesOf(made, x.now) == then' + [x.now];
      }
    }
  }

  lemma {:induction false} TimesAreKept(samples: seq<Sample>)
    ensures var (s, calls) := After(FRESH, samples); Kept(s, calls) && TimesKept(s, calls, Times(samples))
  {
    CallbacksAreRegular(samples);
    if samples != [] {
      var before, last := samples[..|samples| - 1], samples[|samples| - 1];
      var (s, calls) := After(FRESH, before);
      TimesAreKept(before);
      RanKeepsTimes(s, calls, Times(before), last);
      hide Ran, Kept, TimesKept;
    }
  }

  predicate Makes(made: seq<Call>, state: PressState)
  {
    exists i :: 0 <= i < |made| && made[i].state == state
  }

  /**
   * After any run, exactly which callbacks the next sample makes, from the callbacks and the times before it
   * alone: a press begins when the switch is pressed between presses; it is short if the switch is let go
   * before the long time, or at once if there is none; it is long, or on its way to very long, once the long
   * time is over; very long once the very long time is; it is over when the switch is let go; and the taps
   * are counted once the time between taps has passed since then.
   */
  lemma CallsAreTimely(samples: seq<Sample>, x: Sample)
    ensures var (s, calls) := After(FRESH, samples);
            |Times(samples)| == |calls|
    ensures var (s, calls) := After(FRESH, samples);
            var made := Ran(s, x).1;
            var last := if calls == [] then TAP else calls[|calls| - 1].state;
            var held := Since(x.now, LastAt(calls, Times(samples), PRESS_START));
            var idle := Since(x.now, LastAt(calls, Times(samples), RELEASED));
            var long, veryLong := x.config.longPressMs, x.config.veryLongPressMs;
            && (Makes(made, PRESS_START) <==> x.pressed && (last == TAP || last == RELEASED))
            && (Makes(made, SHORT) <==> last == PRESS_START && (long == 0 || (held < long && !x.pressed)))
            && (Makes(made, PROGRESS) <==> last == PRESS_START && 0 < long <= held && veryLong > 0)
            && (Makes(made, LONG) <==> (last == PRESS_START && 0 < long <= held && veryLong == 0)
                                       || (last == PROGRESS && held < veryLong && !x.pressed))
            && (Makes(made, VERY_LONG) <==> last == PROGRESS && held >= veryLong)
            && (Makes(made, RELEASED) <==> !x.pressed && (last == SHORT || last == LONG || last == VERY_LONG
                                           || (last == PRESS_START && held < long) || (last == PROGRESS && held < veryLong)))
            && (Makes(made, TAP) <==> last == RELEASED && ShortsSinceTap(calls) > 0 && idle >= x.config.interTapMs)
  {
    TimesAreKept(samples);
    var (s, calls) := After(FRESH, samples);
    var made := Ran(s, x).1;
    hide GoodTrace, TapsCount, LastAt, After, Times, ShortsSinceTap, Since;
    assert |made| <= 2;
    assert forall state :: Makes(made, state) <==> (|made| > 0 && made[0].state == state) || (|made| > 1 && made[1].state == state);
    hide Makes;
  }
}
