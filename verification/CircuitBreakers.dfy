/**
 server/circuitbreaker/circuitbreaker.go: the breaker wrapped with its metrics, and what
 the metrics and the trip rule keep over every interleaving of requests.
*/
module CircuitBreakers {
  import opened Options
  import opened Gobreaker

  /** What an error returned by an attempt, or by the whole request, stands for. */
  datatype Failure =
    | OperationFailed(code: int)
    | ContextDone(code: int)
    | Refused(refusal: Refusal)
    | NoProvidersConfigured
    | NoHealthyProvider

  /** What the wrapped operation does; a done context answers before the provider is called. */
  datatype Outcome = Succeeds | Fails(code: int) | Cancelled(code: int) {
    function Error(): Option<Failure> {
      match this
      case Succeeds => None
      case Fails(code) => Some(OperationFailed(code))
      case Cancelled(code) => Some(ContextDone(code))
    }
  }

  datatype Config = Config(name: string, settings: Settings, testMode: bool)

  function GaugeOf(state: State): int {
    match state
    case Closed => 0
    case HalfOpen => 1
    case Open => 2
  }

  /** The machine after one call that begins and ends at the given times, and its refusal. */
  function Call(m: Machine, begin: int, end: int, outcome: Outcome): (Machine, Option<Refusal>) {
    var (admitted, refusal) := Begin(m, begin);
    if refusal.Some? then (admitted, refusal)
    else (Finish(admitted, admitted.generation, outcome.Succeeds?, end), None)
  }

  class CircuitBreaker {
    const name: string
    const measured: bool
    var breaker: Machine
    var stateGauge: int
    var failureCount: nat
    var tripsTotal: nat

    /** The state gauge always shows the breaker's state. */
    ghost predicate Valid()
      reads this
    {
      measured ==> stateGauge == GaugeOf(breaker.state)
    }

    constructor (config: Config, hasRegistry: bool, now: int)
      ensures Valid() && name == config.name && measured == (hasRegistry && !config.testMode)
      ensures breaker == New(config.settings, now)
      ensures failureCount == 0 && tripsTotal == 0
    {
      name := config.name;
      measured := hasRegistry && !config.testMode;
      breaker := New(config.settings, now);
      stateGauge := 0;
      failureCount, tripsTotal := 0, 0;
    }

    /** Installs the machine's next value and runs the state-change hook. */
    method Advance(next: Machine)
      requires Valid()
      modifies this
      ensures Valid() && breaker == next && failureCount == old(failureCount)
      ensures tripsTotal == old(tripsTotal) +
              (if measured && next.state.Open? && !old(breaker.state.Open?) then 1 else 0)
      ensures measured ==> stateGauge == match next.state case Closed => 0 case HalfOpen => 1 case Open => 2
    {
      var changed := breaker.state != next.state;
      breaker := next;
      if changed && measured {
        match next.state
        case Open =>
          stateGauge := 2;
          tripsTotal := tripsTotal + 1;
        case HalfOpen =>
          stateGauge := 1;
        case Closed =>
          stateGauge := 0;
      }
    }

    /** Runs one operation. `entered` tells whether the breaker let the call through at all. */
    method Execute(begin: int, end: int, outcome: Outcome) returns (err: Option<Failure>, entered: bool)
      requires Valid()
      modifies this
      ensures Valid()
      ensures breaker == Call(old(breaker), begin, end, outcome).0
      ensures entered <==> Call(old(breaker), begin, end, outcome).1.None?
      ensures entered ==> err == match outcome
                                 case Succeeds => None
                                 case Fails(code) => Some(OperationFailed(code))
                                 case Cancelled(code) => Some(ContextDone(code))
      ensures !entered ==> err == Some(Refused(Call(old(breaker), begin, end, outcome).1.value))
      // Metrics: one failure per call let through that fails, one trip per call let through
      // that leaves the breaker open; refused calls count nothing.
      ensures failureCount == old(failureCount) + (if measured && entered && err.Some? then 1 else 0)
      ensures tripsTotal == old(tripsTotal) + (if measured && entered && breaker.state.Open? then 1 else 0)
    {
      var (admitted, refusal) := Begin(breaker, begin);
      Advance(admitted);
      if refusal.Some? {
        return Some(Refused(refusal.value)), false;
      }
      if outcome.Error().Some? && measured {
        failureCount := failureCount + 1;
      }
      // The clock acts first, the verdict second: two separate state changes.
      Advance(Refresh(breaker, end));
      Advance(Finish(breaker, admitted.generation, outcome.Succeeds?, end));
      RefreshTwice(admitted, end);
      return outcome.Error(), true;
    }

    method State(now: int) returns (state: State)
      requires Valid()
      modifies this
      ensures Valid() && breaker == Refresh(old(breaker), now) && state == breaker.state
      ensures failureCount == old(failureCount) && tripsTotal == old(tripsTotal)
    {
      Advance(Refresh(breaker, now));
      return breaker.state;
    }
  }

  /** The package's constructor function: a breaker must have a name. */
  method NewCircuitBreaker(config: Config, hasRegistry: bool, now: int) returns (cb: Option<CircuitBreaker>)
    ensures cb.None? <==> config.name == ""
    ensures cb.Some? ==>
      && fresh(cb.value) && cb.value.Valid()
      && cb.value.name == config.name && cb.value.measured == (hasRegistry && !config.testMode)
      && cb.value.breaker == New(config.settings, now)
      && cb.value.failureCount == cb.value.tripsTotal == 0
  {
    if config.name == "" {
      return None;
    }
    var breaker := new CircuitBreaker(config, hasRegistry, now);
    return Some(breaker);
  }

  lemma RefreshTwice(m: Machine, now: int)
    ensures Refresh(Refresh(m, now), now) == Refresh(m, now)
  {
  }
}
