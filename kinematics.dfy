/** One tick of a vehicle's motion along its lane, as pure values, with the
    stop-line rule. Speeds are in km/h, positions in metres from the start of
    the lane; arithmetic is exact. The method Traffic.Vehicle.Move is proved
    to update a vehicle's fields exactly as Advance does. */
module Kinematics {
  import opened LightCycle

  /** The stop line lies this many metres before the end of the lane. */
  const StopLineSetback := 10.0

  datatype Motion = Motion(speed: real, position: real)

  function MetresPerSecond(kmh: real): real {
    kmh * 1000.0 / 3600.0
  }

  /** Where the vehicle would be after the tick if nothing stopped it. */
  function Candidate(m: Motion, step: real): real {
    m.position + MetresPerSecond(m.speed) * step
  }

  /** The light is not green and this tick would take the vehicle from before
      the stop line to on or past it. */
  predicate HaltsAtStopLine(light: LightState, length: real, m: Motion, step: real) {
    var stopLine := length - StopLineSetback;
    light != Green && m.position < stopLine && Candidate(m, step) >= stopLine
  }

  /** One move(step): either the vehicle halts (speed set to 0, position kept)
      or it advances to the candidate position at unchanged speed. */
  function Advance(light: LightState, length: real, m: Motion, step: real): Motion {
    if HaltsAtStopLine(light, length, m, step) then Motion(0.0, m.position)
    else Motion(m.speed, Candidate(m, step))
  }

  /** A vehicle halts only in front of a light that is not green. */
  lemma GreenNeverHalts(length: real, m: Motion, step: real)
    ensures Advance(Green, length, m, step).position == m.position + MetresPerSecond(m.speed) * step
    ensures Advance(Green, length, m, step).speed == m.speed
  {
  }

  /** With a non-negative speed and step the position never decreases and the
      speed stays non-negative. */
  lemma NeverBackwards(light: LightState, length: real, m: Motion, step: real)
    requires m.speed >= 0.0 && step >= 0.0
    ensures Advance(light, length, m, step).position >= m.position
    ensures 0.0 <= Advance(light, length, m, step).speed <= m.speed
  {
    assert MetresPerSecond(m.speed) >= 0.0;
    assert MetresPerSecond(m.speed) * step >= 0.0;
  }

  /** A vehicle in front of the stop line is never taken past it while the
      light is not green: it either stays in front of the line or halts. */
  lemma NoCrossingOnNonGreen(light: LightState, length: real, m: Motion, step: real)
    requires light != Green && m.position < length - StopLineSetback
    ensures Advance(light, length, m, step).position < length - StopLineSetback
  {
  }

  /** A RED light, a vehicle 11 m before the end of the lane, and a tick
      long enough to reach the stop line: the vehicle halts where it is. */
  lemma HaltsOnRedBeforeStopLine(length: real, speed: real, step: real)
    requires MetresPerSecond(speed) * step >= 1.0
    ensures Advance(Red, length, Motion(speed, length - 11.0), step) == Motion(0.0, length - 11.0)
  {
  }

  /** A stopped vehicle stays where it is on a move, whatever the light. */
  lemma StoppedStaysPut(light: LightState, length: real, m: Motion, step: real)
    requires m.speed == 0.0
    ensures Advance(light, length, m, step) == m
  {
  }

  /** One tick as seen by a vehicle: the light's colour when it moves and the
      length of the step. */
  datatype Slot = Slot(light: LightState, step: real)

  /** The vehicle's motion after moving once in each of the given ticks. */
  function Replay(length: real, m: Motion, ticks: seq<Slot>): Motion
    decreases |ticks|
  {
    if ticks == [] then m
    else Replay(length, Advance(ticks[0].light, length, m, ticks[0].step), ticks[1..])
  }

  /** There is no resumption: once its speed is 0 a vehicle keeps its position
      and its zero speed through any later sequence of ticks, green ones
      included. */
  lemma {:induction false} StoppedForever(length: real, m: Motion, ticks: seq<Slot>)
    requires m.speed == 0.0
    ensures Replay(length, m, ticks) == m
  {
    if ticks != [] {
      StoppedStaysPut(ticks[0].light, length, m, ticks[0].step);
      StoppedForever(length, m, ticks[1..]);
    }
  }

  /** Hence a vehicle that halted at the stop line never moves again. */
  lemma {:induction false} HaltIsPermanent(light: LightState, length: real, m: Motion, step: real, later: seq<Slot>)
    requires HaltsAtStopLine(light, length, m, step)
    ensures Replay(length, m, [Slot(light, step)] + later) == Motion(0.0, m.position)
  {
    var halted := Advance(light, length, m, step);
    assert ([Slot(light, step)] + later)[1..] == later;
    StoppedForever(length, halted, later);
  }
}
