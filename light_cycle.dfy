/** The traffic light's timer-driven state machine, as pure values.
    The class Traffic.TrafficLight keeps its state in fields and is proved
    to step exactly as Tick does. */
module LightCycle {

  datatype LightState = Red | Yellow | Green

  /** The fixed dwell time of each colour, in simulation time units. */
  datatype Durations = Durations(green: int, yellow: int, red: int)

  /** The colour and the time spent in it so far. */
  datatype Phase = Phase(state: LightState, timer: int)

  /** Every lane builds its light with green 10, yellow 3 and red 7. */
  const LaneDurations := Durations(10, 3, 7)

  /** The cycle GREEN -> YELLOW -> RED -> GREEN. */
  function Next(s: LightState): LightState {
    match s
    case Green => Yellow
    case Yellow => Red
    case Red => Green
  }

  function DwellTime(d: Durations, s: LightState): int {
    match s
    case Green => d.green
    case Yellow => d.yellow
    case Red => d.red
  }

  predicate PositiveDurations(d: Durations) {
    d.green > 0 && d.yellow > 0 && d.red > 0
  }

  /** One update(step): add the step to the timer; once the timer reaches the
      current colour's dwell time, move to the next colour and restart the
      timer at 0, discarding whatever went beyond the threshold. */
  function Tick(d: Durations, p: Phase, step: int): Phase {
    var t := p.timer + step;
    if t >= DwellTime(d, p.state) then Phase(Next(p.state), 0) else Phase(p.state, t)
  }

  /** n successive updates with the same step. */
  function Ticks(d: Durations, p: Phase, step: int, n: nat): Phase {
    if n == 0 then p else Tick(d, Ticks(d, p, step, n - 1), step)
  }

  lemma NextIsAThreeCycle(s: LightState)
    ensures Next(s) != s && Next(Next(s)) != s && Next(Next(Next(s))) == s
  {
  }

  /** One update makes at most one transition, only along the cycle, exactly
      when the accumulated time reaches the dwell time; a transition restarts
      the timer at 0, otherwise the timer has grown by the step. */
  lemma TickIsOneTransition(d: Durations, p: Phase, step: int)
    ensures Tick(d, p, step).state == p.state || Tick(d, p, step).state == Next(p.state)
    ensures Tick(d, p, step).state != p.state <==> p.timer + step >= DwellTime(d, p.state)
    ensures Tick(d, p, step).state != p.state ==> Tick(d, p, step).timer == 0
    ensures Tick(d, p, step).state == p.state ==> Tick(d, p, step).timer == p.timer + step
  {
    NextIsAThreeCycle(p.state);
  }

  /** Time beyond the threshold is not carried over into the next colour. */
  lemma ExcessIsDiscarded(d: Durations, p: Phase, step: int)
    requires p.timer + step > DwellTime(d, p.state)
    ensures Tick(d, p, step) == Phase(Next(p.state), 0)
  {
  }

  /** With positive durations and a non-negative step the timer stays within
      the current colour's dwell time. */
  lemma TickKeepsTimerBelowDwell(d: Durations, p: Phase, step: int)
    requires PositiveDurations(d) && step >= 0
    requires 0 <= p.timer < DwellTime(d, p.state)
    ensures 0 <= Tick(d, p, step).timer < DwellTime(d, Tick(d, p, step).state)
  {
  }

  lemma {:induction false} TicksSplit(d: Durations, p: Phase, step: int, m: nat, n: nat)
    ensures Ticks(d, p, step, m + n) == Ticks(d, Ticks(d, p, step, m), step, n)
  {
    if n > 0 {
      TicksSplit(d, p, step, m, n - 1);
    }
  }

  /** With one-unit steps, a colour entered with timer 0 is held for exactly
      its dwell time: after k < dwell updates the timer reads k. */
  lemma {:induction false} HoldsForDwell(d: Durations, s: LightState, k: nat)
    requires k < DwellTime(d, s)
    ensures Ticks(d, Phase(s, 0), 1, k) == Phase(s, k)
  {
    if k > 0 {
      HoldsForDwell(d, s, k - 1);
    }
  }

  /** ... and the dwell-th one-unit update moves on to the next colour. */
  lemma AdvancesAfterDwell(d: Durations, s: LightState)
    requires DwellTime(d, s) > 0
    ensures Ticks(d, Phase(s, 0), 1, DwellTime(d, s) as nat) == Phase(Next(s), 0)
  {
    HoldsForDwell(d, s, DwellTime(d, s) - 1);
  }

  /** With one-unit steps the light is periodic: green + yellow + red updates
      bring any colour entered with timer 0 back to itself. */
  lemma FullCycle(d: Durations, s: LightState)
    requires PositiveDurations(d)
    ensures Ticks(d, Phase(s, 0), 1, (d.green + d.yellow + d.red) as nat) == Phase(s, 0)
  {
    var a, b, c := DwellTime(d, s) as nat, DwellTime(d, Next(s)) as nat, DwellTime(d, Next(Next(s))) as nat;
    NextIsAThreeCycle(s);
    assert a + b + c == d.green + d.yellow + d.red;
    AdvancesAfterDwell(d, s);
    AdvancesAfterDwell(d, Next(s));
    AdvancesAfterDwell(d, Next(Next(s)));
    TicksSplit(d, Phase(s, 0), 1, a, b);
    TicksSplit(d, Phase(s, 0), 1, a + b, c);
  }

  /** The schedule of a lane's light under one-unit steps: from GREEN with
      timer 0, ten updates give YELLOW, three more give RED and seven more
      give GREEN again; a fresh light (RED, timer 0) turns GREEN after seven. */
  lemma LaneLightSchedule()
    ensures Ticks(LaneDurations, Phase(Green, 0), 1, 10) == Phase(Yellow, 0)
    ensures Ticks(LaneDurations, Phase(Green, 0), 1, 13) == Phase(Red, 0)
    ensures Ticks(LaneDurations, Phase(Green, 0), 1, 20) == Phase(Green, 0)
    ensures Ticks(LaneDurations, Phase(Red, 0), 1, 7) == Phase(Green, 0)
  {
    var d := LaneDurations;
    AdvancesAfterDwell(d, Green);
    AdvancesAfterDwell(d, Yellow);
    AdvancesAfterDwell(d, Red);
    TicksSplit(d, Phase(Green, 0), 1, 10, 3);
    FullCycle(d, Green);
  }
}
