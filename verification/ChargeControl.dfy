/** Battery charging against temperature, composed with the force switch. */
module ChargeControl {
  import opened Prelude

  datatype TempChargeState = UNKNOWN | NORMAL | OVER_TEMPERATURE | UNDER_TEMPERATURE | OVER_CHARGE_REDUCTION

  const HIGH_LIMIT := 54.0
  const LOW_LIMIT := 0.0
  const REDUCED_LIMIT := 40.0
  const HYSTERESIS := 2.0

  /** The state after one evaluation; the event for it is raised only when it changes. */
  function Judged(state: TempChargeState, t: real): TempChargeState
  {
    var high := t >= HIGH_LIMIT;
    var belowHigh := t <= HIGH_LIMIT - HYSTERESIS;
    var reduced := t >= REDUCED_LIMIT;
    var belowReduced := t <= REDUCED_LIMIT - HYSTERESIS;
    var low := t <= LOW_LIMIT;
    var aboveLow := t >= LOW_LIMIT + HYSTERESIS;
    match state
    case UNKNOWN =>
      if low then UNDER_TEMPERATURE else if high then OVER_TEMPERATURE
      else if reduced then OVER_CHARGE_REDUCTION else NORMAL
    case NORMAL =>
      if low then UNDER_TEMPERATURE else if high then OVER_TEMPERATURE
      else if reduced then OVER_CHARGE_REDUCTION else state
    case UNDER_TEMPERATURE =>
      if high then OVER_TEMPERATURE else if reduced then OVER_CHARGE_REDUCTION
      else if aboveLow then NORMAL else state
    case OVER_TEMPERATURE =>
      if low then UNDER_TEMPERATURE else if belowHigh && reduced then OVER_CHARGE_REDUCTION
      else if belowReduced then NORMAL else state
    case OVER_CHARGE_REDUCTION =>
      if high then OVER_TEMPERATURE else if low then UNDER_TEMPERATURE
      else if belowReduced then NORMAL else state
  }

  predicate Unsafe(state: TempChargeState)
  {
    state.OVER_TEMPERATURE? || state.UNDER_TEMPERATURE?
  }

  /** The temperature state, the battery and force flags, the DISABLE_CHARGING feature and the charge current. */
  datatype Charge = Charge(state: TempChargeState, safe: bool, forced: bool, disabled: bool, current: nat)

  /** The configured charge currents. */
  datatype Currents = Currents(high: nat, low: nat)

  /** `chargeCallback` for the event of a state. */
  function CalledBack(c: Charge, state: TempChargeState, k: Currents): Charge
  {
    var c' := c.(current := if state.NORMAL? then k.high else k.low);
    var shouldCharge := !Unsafe(state);
    if !shouldCharge && c.safe then c'.(safe := false, disabled := true)
    else if shouldCharge && !c.safe then c'.(safe := true, disabled := c.disabled && c.forced)
    else c'
  }

  /** One evaluated sample. */
  function Sampled(c: Charge, t: real, k: Currents): Charge
  {
    var state := Judged(c.state, t);
    if state == c.state then c else CalledBack(c, state, k).(state := state)
  }

  function Forced(c: Charge, value: bool): Charge
  {
    c.(forced := value, disabled := if value then true else c.disabled && !c.safe)
  }

  /* ---- The code's own steps ---- */

  class ChargeController {
    var chargeTempState: TempChargeState
    var chargeEvalTick: nat
    var batterySafeToCharge: bool
    var forceDisable: bool
    var disableCharging: bool
    var chargeCurrent: nat
    const currents: Currents

    function Value(): Charge
      reads this
    {
      Charge(chargeTempState, batterySafeToCharge, forceDisable, disableCharging, chargeCurrent)
    }

    method PmicEnableCharging()
      modifies this`disableCharging
      ensures !disableCharging
    {
      if disableCharging {
        disableCharging := false;
      }
    }

    method PmicDisableCharging()
      modifies this`disableCharging
      ensures disableCharging
    {
      if !disableCharging {
        disableCharging := true;
      }
    }

    method ForceDisableCharging(value: bool)
      modifies this`forceDisable, this`disableCharging
      ensures Value() == Forced(old(Value()), value)
    {
      forceDisable := value;
      if forceDisable {
        PmicDisableCharging();
      } else {
        if batterySafeToCharge {
          PmicEnableCharging();
        }
      }
    }

    method ChargeCallback(event: TempChargeState)
      requires !event.UNKNOWN?
      modifies this`chargeCurrent, this`batterySafeToCharge, this`disableCharging
      ensures Value() == CalledBack(old(Value()), event, currents)
    {
      var shouldCharge := true;
      match event {
        case NORMAL => chargeCurrent := currents.high; shouldCharge := true;
        case OVER_CHARGE_REDUCTION => chargeCurrent := currents.low; shouldCharge := true;
        case OVER_TEMPERATURE => chargeCurrent := currents.low; shouldCharge := false;
        case UNDER_TEMPERATURE => chargeCurrent := currents.low; shouldCharge := false;
      }
      if !shouldCharge && batterySafeToCharge {
        batterySafeToCharge := false;
        PmicDisableCharging();
      } else if shouldCharge && !batterySafeToCharge {
        batterySafeToCharge := true;
        if !forceDisable {
          PmicEnableCharging();
        }
      }
    }

    /** Nothing before the evaluation interval is over; then the switch over the states. */
    method EvaluateChargeTemperature(t: real, uptime: nat, evalInterval: nat)
      modifies this
      ensures Since(uptime, old(chargeEvalTick)) < evalInterval ==> Value() == old(Value()) && chargeEvalTick == old(chargeEvalTick)
      ensures Since(uptime, old(chargeEvalTick)) >= evalInterval ==> Value() == Sampled(old(Value()), t, currents) && chargeEvalTick == uptime
    {
      if Since(uptime, chargeEvalTick) < evalInterval {
        return;
      }
      chargeEvalTick := uptime;
      var isTempHigh := t >= HIGH_LIMIT;
      var isTempBelowHighHyst := t <= HIGH_LIMIT - HYSTERESIS;
      var isTempReducedA := t >= REDUCED_LIMIT;
      var isTempReducedAHyst := t <= REDUCED_LIMIT - HYSTERESIS;
      var isTempLow := t <= LOW_LIMIT;
      var isTempAboveLowHyst := t >= LOW_LIMIT + HYSTERESIS;
      match chargeTempState {
        case UNKNOWN =>
          if isTempLow { ToChargeState(UNDER_TEMPERATURE); }
          else if isTempHigh { ToChargeState(OVER_TEMPERATURE); }
          else if isTempReducedA { ToChargeState(OVER_CHARGE_REDUCTION); }
          else { ToChargeState(NORMAL); }
        case NORMAL =>
          if isTempLow { ToChargeState(UNDER_TEMPERATURE); }
          else if isTempHigh { ToChargeState(OVER_TEMPERATURE); }
          else if isTempReducedA { ToChargeState(OVER_CHARGE_REDUCTION); }
        case UNDER_TEMPERATURE =>
          if isTempHigh { ToChargeState(OVER_TEMPERATURE); }
          else if isTempReducedA { ToChargeState(OVER_CHARGE_REDUCTION); }
          else if isTempAboveLowHyst { ToChargeState(NORMAL); }
        case OVER_TEMPERATURE =>
          if isTempLow { ToChargeState(UNDER_TEMPERATURE); }
          else if isTempBelowHighHyst && isTempReducedA { ToChargeState(OVER_CHARGE_REDUCTION); }
          else if isTempReducedAHyst { ToChargeState(NORMAL); }
        case OVER_CHARGE_REDUCTION =>
          if isTempHigh { ToChargeState(OVER_TEMPERATURE); }
          else if isTempLow { ToChargeState(UNDER_TEMPERATURE); }
          else if isTempReducedAHyst { ToChargeState(NORMAL); }
      }
    }

    /** Raises the event of the state, then enters it. */
    method ToChargeState(state: TempChargeState)
      requires !state.UNKNOWN?
      modifies this`chargeTempState, this`chargeCurrent, this`batterySafeToCharge, this`disableCharging
      ensures Value() == CalledBack(old(Value()), state, currents).(state := state)
    {
      ChargeCallback(state);
      chargeTempState := state;
    }
  }

  /* ---- Runs ---- */

  datatype Step = Sample(t: real) | Force(value: bool)

  function Next(c: Charge, step: Step, k: Currents): Charge
  {
    match step
    case Sample(t) => Sampled(c, t, k)
    case Force(value) => Forced(c, value)
  }

  /** At boot the battery counts as safe exactly if charging is not switched off in the power configuration. */
  function Boot(disabled: bool, forced: bool, current: nat): Charge
  {
    Charge(UNKNOWN, !disabled, forced, disabled, current)
  }

  function After(boot: Charge, steps: seq<Step>, k: Currents): Charge
  {
    if steps == [] then boot else Next(After(boot, steps[..|steps| - 1], k), steps[|steps| - 1], k)
  }

  /** Charging is off exactly when forced or last judged unsafe; the judgement follows the state. */
  predicate Consistent(c: Charge)
  {
    && (c.disabled <==> c.forced || !c.safe)
    && (!c.state.UNKNOWN? ==> (c.safe <==> !Unsafe(c.state)))
  }

  lemma NextKeepsConsistent(c: Charge, step: Step, k: Currents)
    requires Consistent(c)
    ensures Consistent(Next(c, step, k))
  {
  }

  /** A boot is consistent exactly unless charging is forced off without the power configuration saying so. */
  lemma BootConsistent(disabled: bool, forced: bool, current: nat)
    ensures Consistent(Boot(disabled, forced, current)) <==> (forced ==> disabled)
  {
  }

  lemma {:induction false} AlwaysConsistent(disabled: bool, forced: bool, current: nat, steps: seq<Step>, k: Currents)
    requires forced ==> disabled
    ensures Consistent(After(Boot(disabled, forced, current), steps, k))
  {
    if steps != [] {
      AlwaysConsistent(disabled, forced, current, steps[..|steps| - 1], k);
      NextKeepsConsistent(After(Boot(disabled, forced, current), steps[..|steps| - 1], k), steps[|steps| - 1], k);
    }
  }

  /**
   * Whatever the boot: too hot or too cold always ends up not charging, and well inside the range one
   * evaluation is enough to be normal. A consistent boot also keeps charging off exactly while it must be.
   */
  lemma SampleDecides(disabled: bool, forced: bool, current: nat, steps: seq<Step>, t: real, k: Currents)
    ensures var c := After(Boot(disabled, forced, current), steps + [Sample(t)], k);
            && (t >= 54.0 || t <= 0.0 ==> c.disabled && Unsafe(c.state))
            && (2.0 <= t <= 38.0 ==> c.state == NORMAL)
            && ((forced ==> disabled) ==> (c.forced ==> c.disabled) && (2.0 <= t <= 38.0 ==> (c.disabled <==> c.forced)))
  {
    assert (steps + [Sample(t)])[..|steps|] == steps;
    var c := After(Boot(disabled, forced, current), steps, k);
    if forced && !disabled {
      ForcedBootStaysSafe(current, steps, k);
    } else {
      AlwaysConsistent(disabled, forced, current, steps, k);
    }
    if Consistent(c) { NextKeepsConsistent(c, Sample(t), k); }
  }

  /** By temperature: five ranges decide whatever the state was, and in the three bands between them it lingers. */
  lemma RangesDecide(c: Charge, t: real, k: Currents)
    ensures var state := Sampled(c, t, k).state;
            if t <= 0.0 then state == UNDER_TEMPERATURE
            else if t < 2.0 then state == if c.state == UNDER_TEMPERATURE then UNDER_TEMPERATURE else NORMAL
            else if t <= 38.0 then state == NORMAL
            else if t < 40.0 then
              state == if c.state == OVER_TEMPERATURE || c.state == OVER_CHARGE_REDUCTION then c.state else NORMAL
            else if t <= 52.0 then state == OVER_CHARGE_REDUCTION
            else if t < 54.0 then state == if c.state == OVER_TEMPERATURE then OVER_TEMPERATURE else OVER_CHARGE_REDUCTION
            else state == OVER_TEMPERATURE
  {
  }

  /** Over every run the current is the high one exactly when the state is normal, from the first evaluation on. */
  lemma {:induction false} CurrentFollowsState(boot: Charge, steps: seq<Step>, k: Currents)
    requires boot.state == UNKNOWN
    ensures var c := After(boot, steps, k);
            if c.state == UNKNOWN then c.current == boot.current
            else c.current == if c.state == NORMAL then k.high else k.low
    ensures After(boot, steps, k).state == UNKNOWN <==> forall i :: 0 <= i < |steps| ==> !steps[i].Sample?
  {
    if steps != [] {
      var n := |steps| - 1;
      CurrentFollowsState(boot, steps[..n], k);
      assert forall i :: 0 <= i < n ==> steps[..n][i] == steps[i];
    }
  }

  /** Between 38 and 40 degrees a cooling battery stays in OVER_TEMPERATURE, and off. */
  lemma CoolingBandStaysOff(c: Charge, t: real, k: Currents)
    requires c.state == OVER_TEMPERATURE
    ensures Sampled(c, t, k) == c <==> 52.0 < t || 38.0 < t < 40.0
  {
  }

  /** Forced off at boot only: the first unsafe sample, or any use of the switch, restores consistency. */
  lemma {:induction false} ForcedBootRecovers(current: nat, steps: seq<Step>, k: Currents)
    ensures var c := After(Boot(false, true, current), steps, k);
            Consistent(c) <==>
            exists i :: 0 <= i < |steps| && (steps[i].Force? || (steps[i].Sample? && (steps[i].t >= 54.0 || steps[i].t <= 0.0)))
  {
    if steps != [] {
      var n := |steps| - 1;
      var before, c := steps[..n], After(Boot(false, true, current), steps[..n], k);
      ForcedBootRecovers(current, before, k);
      ForcedBootStaysSafe(current, before, k);
      forall i | 0 <= i < n ensures before[i] == steps[i] {}
      if Consistent(c) {
        NextKeepsConsistent(c, steps[n], k);
      }
    }
  }

  lemma {:induction false} ForcedBootStaysSafe(current: nat, steps: seq<Step>, k: Currents)
    ensures var c := After(Boot(false, true, current), steps, k);
            Consistent(c) || (c.forced && c.safe && !c.disabled && !Unsafe(c.state))
  {
    if steps != [] {
      var n := |steps| - 1;
      ForcedBootStaysSafe(current, steps[..n], k);
      var c := After(Boot(false, true, current), steps[..n], k);
      if Consistent(c) {
        NextKeepsConsistent(c, steps[n], k);
      }
    }
  }
}
