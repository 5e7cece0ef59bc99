/**
 ASSUMPTION. The breaker behind `circuitbreaker.CircuitBreaker` is the library
 sony/gobreaker v1.0.0, whose source is not part of the modelled repository. This module
 writes its documented three-state machine down: a generation number that
 makes late answers stale, counts cleared with every generation, expiry of the closed
 interval and of the open timeout, and a request quota while half-open. Only the trip rule
 (`ReadyToTrip`) comes from the repository. Times are nanoseconds.
*/
module Gobreaker {
  import opened Options

  const SECOND := 1_000_000_000

  datatype State = Closed | HalfOpen | Open

  datatype Counts = Counts(
    requests: nat, totalSuccesses: nat, totalFailures: nat,
    consecutiveSuccesses: nat, consecutiveFailures: nat)

  const NO_COUNTS := Counts(0, 0, 0, 0, 0)

  datatype Settings = Settings(maxRequests: nat, interval: int, timeout: int, failureThreshold: nat) {
    /** Requests let through while half-open; zero means one. */
    function Quota(): nat {
      if maxRequests == 0 then 1 else maxRequests
    }

    /** How long the breaker stays open; a non-positive timeout means a minute. */
    function OpenPeriod(): int {
      if timeout <= 0 then 60 * SECOND else timeout
    }

    /** Failures in a row that open the breaker: a threshold of zero trips on the first. */
    function TripCount(): nat {
      if failureThreshold == 0 then 1 else failureThreshold
    }
  }

  datatype Machine = Machine(
    settings: Settings, state: State, generation: nat, counts: Counts, expiry: Option<int>)

  datatype Refusal = OpenState | TooManyRequests

  function NewGeneration(m: Machine, now: int): Machine {
    m.(generation := m.generation + 1,
       counts := NO_COUNTS,
       expiry := match m.state
                 case Closed => if m.settings.interval <= 0 then None else Some(now + m.settings.interval)
                 case Open => Some(now + m.settings.OpenPeriod())
                 case HalfOpen => None)
  }

  function MoveTo(m: Machine, state: State, now: int): Machine {
    if m.state == state then m else NewGeneration(m.(state := state), now)
  }

  function New(settings: Settings, now: int): Machine {
    NewGeneration(Machine(settings, Closed, 0, NO_COUNTS, None), now)
  }

  predicate Expired(m: Machine, now: int) {
    m.expiry.Some? && m.expiry.value < now
  }

  /** Every operation first lets the clock act: a closed interval restarts, an open period ends. */
  function Refresh(m: Machine, now: int): Machine {
    match m.state
    case Closed => if Expired(m, now) then NewGeneration(m, now) else m
    case Open => if Expired(m, now) then MoveTo(m, HalfOpen, now) else m
    case HalfOpen => m
  }

  /** Before a request: refuse it, or count it. */
  function Begin(m: Machine, now: int): (Machine, Option<Refusal>) {
    var r := Refresh(m, now);
    if r.state.Open? then (r, Some(OpenState))
    else if r.state.HalfOpen? && r.counts.requests >= r.settings.Quota() then (r, Some(TooManyRequests))
    else (r.(counts := r.counts.(requests := r.counts.requests + 1)), None)
  }

  predicate ReadyToTrip(settings: Settings, counts: Counts) {
    counts.consecutiveFailures >= settings.failureThreshold
  }

  function CountSuccess(c: Counts): Counts {
    c.(totalSuccesses := c.totalSuccesses + 1,
       consecutiveSuccesses := c.consecutiveSuccesses + 1,
       consecutiveFailures := 0)
  }

  function CountFailure(c: Counts): Counts {
    c.(totalFailures := c.totalFailures + 1,
       consecutiveFailures := c.consecutiveFailures + 1,
       consecutiveSuccesses := 0)
  }

  function OnSuccess(m: Machine, now: int): Machine {
    match m.state
    case Closed => m.(counts := CountSuccess(m.counts))
    case HalfOpen =>
      var c := m.(counts := CountSuccess(m.counts));
      if c.counts.consecutiveSuccesses >= c.settings.Quota() then MoveTo(c, Closed, now) else c
    case Open => m
  }

  function OnFailure(m: Machine, now: int): Machine {
    match m.state
    case Closed =>
      var c := m.(counts := CountFailure(m.counts));
      if ReadyToTrip(c.settings, c.counts) then MoveTo(c, Open, now) else c
    case HalfOpen => MoveTo(m, Open, now)
    case Open => m
  }

  /** After a request: an answer from an earlier generation is ignored. */
  function Finish(m: Machine, generation: nat, success: bool, now: int): Machine {
    var r := Refresh(m, now);
    if r.generation != generation then r
    else if success then OnSuccess(r, now)
    else OnFailure(r, now)
  }
}
