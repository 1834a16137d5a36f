/** The shared timer pool (hw_timer.c): seven timers, each free, pulsing for one token, or
    running PWM for a counted number of channels. */
module HwTimer {
  import opened Wrappers
  import opened Wire
  import opened Timers

  const COUNT: nat := 7
  const MAX_CHANNELS: nat := 4

  datatype TimerState = Free | Pulse | Pwm

  datatype Timer = Timer(state: TimerState, token: nat, psc: nat, arr: nat, refs: nat)

  const FREE_TIMER := Timer(Free, 0, 0, 0, 0)

  /** TIM2 and TIM5 are 32 bits wide; TIM9 has two channels, TIM10 and TIM11 one. */
  function Wide(t: nat): bool { t == 0 || t == 3 }

  function MaxChannel(t: nat): nat {
    if t >= COUNT then 0 else if t <= 3 then 4 else if t == 4 then 2 else 1
  }

  predicate TimerOk(t: Timer) {
    && (t.state != Pwm ==> t.psc == 0 && t.arr == 0 && t.refs == 0)
    && (t.state != Pulse ==> t.token == 0)
    && (t.state == Pwm ==> t.refs > 0)
  }

  predicate PoolOk(ts: seq<Timer>) {
    |ts| == COUNT && forall t :: 0 <= t < COUNT ==> TimerOk(ts[t])
  }

  /** Timers reserved for pulses, with their tokens. */
  ghost function Pulses(ts: seq<Timer>): map<nat, nat> {
    map t: nat | 0 <= t < |ts| && ts[t].state == Pulse :: ts[t].token
  }

  // hw_timer_pwm_acquire: open the timer, or join it at the same divider
  function Acquire(ts: seq<Timer>, t: nat, freq: nat): (r: (seq<Timer>, Err))
    requires |ts| == COUNT
    ensures |r.0| == COUNT
  {
    if t >= COUNT then (ts, InvalidParameter)
    else if ts[t].state == Pulse then (ts, PeripheralBusy)
    else
      match Compute(freq, Wide(t))
      case None => (ts, InvalidParameter)
      case Some(d) =>
        if ts[t].state == Pwm then
          if ts[t].psc != d.psc || ts[t].arr != d.arr then (ts, PwmFreqConflict)
          else (ts[t := ts[t].(refs := ts[t].refs + 1)], Success)
        else (ts[t := ts[t].(state := Pwm, psc := d.psc, arr := d.arr, refs := 1)], Success)
  }

  // hw_timer_pwm_release: the last channel stops the timer
  function Release(ts: seq<Timer>, t: nat): (r: seq<Timer>)
    requires |ts| == COUNT
    ensures |r| == COUNT
  {
    if t >= COUNT || ts[t].state != Pwm then ts
    else
      var n := if ts[t].refs > 0 then ts[t].refs - 1 else 0;
      if n == 0 then ts[t := ts[t].(state := Free, psc := 0, arr := 0, refs := 0)]
      else ts[t := ts[t].(refs := n)]
  }

  /** Releasing a channel undoes acquiring it, whether it opened or joined the timer. */
  lemma ReleaseUndoesAcquire(ts: seq<Timer>, t: nat, freq: nat)
    requires PoolOk(ts) && Acquire(ts, t, freq).1 == Success
    ensures PoolOk(Acquire(ts, t, freq).0) && Release(Acquire(ts, t, freq).0, t) == ts
    ensures Pulses(Acquire(ts, t, freq).0) == Pulses(ts)
  {
    hide Compute;
  }

  /** First timer pulsing for a token. */
  function FirstPulse(ts: seq<Timer>, token: nat, from: nat): (t: nat)
    requires from <= |ts|
    ensures from <= t <= |ts|
    ensures t < |ts| ==> ts[t].state == Pulse && ts[t].token == token
    ensures forall k :: from <= k < t ==> !(ts[k].state == Pulse && ts[k].token == token)
    decreases |ts| - from
  {
    if from == |ts| || (ts[from].state == Pulse && ts[from].token == token) then from
    else FirstPulse(ts, token, from + 1)
  }

  function PulseReleased(ts: seq<Timer>, token: nat): seq<Timer> {
    var t := FirstPulse(ts, token, 0);
    if t == |ts| then ts else ts[t := ts[t].(state := Free, token := 0)]
  }

  class TimerPool {
    const timers: array<Timer>
    /** Compare registers, four per timer. */
    const ccr: array<nat>

    ghost predicate Valid()
      reads this, timers
    {
      PoolOk(timers[..]) && ccr.Length == COUNT * MAX_CHANNELS
    }

    // hw_timer_init
    constructor ()
      ensures Valid() && fresh(timers) && fresh(ccr)
      ensures forall t :: 0 <= t < COUNT ==> timers[t] == FREE_TIMER
      ensures forall i :: 0 <= i < ccr.Length ==> ccr[i] == 0
    {
      timers := new Timer[COUNT](_ => FREE_TIMER);
      ccr := new nat[COUNT * MAX_CHANNELS](_ => 0);
    }

    method PulseAcquire(t: nat, token: nat) returns (err: Err)
      requires Valid()
      modifies timers
      ensures Valid()
      ensures err == if t >= COUNT then InvalidParameter
                     else if old(timers[t].state) != Free then PeripheralBusy else Success
      ensures timers[..] == if err == Success then old(timers[..])[t := Timer(Pulse, token, 0, 0, 0)] else old(timers[..])
    {
      if t >= COUNT {
        return InvalidParameter;
      }
      if timers[t].state != Free {
        return PeripheralBusy;
      }
      timers[t] := timers[t].(token := token, state := Pulse);
      return Success;
    }

    method FindPulse(token: nat) returns (t: nat)
      requires Valid()
      ensures t == FirstPulse(timers[..], token, 0)
    {
      t := 0;
      while t < COUNT
        invariant t <= COUNT
        invariant FirstPulse(timers[..], token, 0) == FirstPulse(timers[..], token, t)
      {
        if timers[t].state == Pulse && timers[t].token == token {
          return;
        }
        t := t + 1;
      }
    }

    method PulseRelease(token: nat)
      requires Valid()
      modifies timers
      ensures Valid()
      ensures timers[..] == PulseReleased(old(timers[..]), token)
    {
      var t := FindPulse(token);
      if t == COUNT {
        return;
      }
      timers[t] := timers[t].(token := 0, state := Free);
    }

    method PwmAcquire(t: nat, freq: nat) returns (err: Err, arr: nat)
      requires Valid()
      modifies timers
      ensures Valid()
      ensures (timers[..], err) == Acquire(old(timers[..]), t, freq)
      ensures err == Success ==> t < COUNT && arr == timers[t].arr
    {
      hide Compute;
      arr := 0;
      if t >= COUNT {
        return InvalidParameter, arr;
      }
      if timers[t].state == Pulse {
        return PeripheralBusy, arr;
      }
      var d := Compute(freq, Wide(t));
      if d.None? {
        return InvalidParameter, arr;
      }
      if timers[t].state == Pwm {
        if timers[t].psc != d.value.psc || timers[t].arr != d.value.arr {
          return PwmFreqConflict, arr;
        }
        timers[t] := timers[t].(refs := timers[t].refs + 1);
        return Success, timers[t].arr;
      }
      timers[t] := timers[t].(psc := d.value.psc, arr := d.value.arr, refs := 1, state := Pwm);
      return Success, d.value.arr;
    }

    method PwmRelease(t: nat)
      requires Valid()
      modifies timers
      ensures Valid()
      ensures timers[..] == Release(old(timers[..]), t)
    {
      if t >= COUNT {
        return;
      }
      if timers[t].state != Pwm {
        return;
      }
      if timers[t].refs > 0 {
        timers[t] := timers[t].(refs := timers[t].refs - 1);
      }
      if timers[t].refs == 0 {
        timers[t] := timers[t].(psc := 0, arr := 0, state := Free);
      }
    }
  }
}
