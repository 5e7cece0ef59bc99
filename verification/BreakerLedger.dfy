/**
 What one breaker keeps when any number of requests use it at once: every interleaving of
 calls entering, calls leaving (in any order, however late) and state readings.
*/
module BreakerLedger {
  import opened Options
  import opened Gobreaker

  type CallId = nat

  datatype Event =
    | Enter(id: CallId, now: int)
    | Leave(id: CallId, success: bool, now: int)
    | Look(now: int)

  /** The machine, the generation each call in flight entered under, and the two counters. */
  datatype Ledger = Ledger(
    machine: Machine, inFlight: map<CallId, nat>,
    failures: nat, tripsFromClosed: nat, tripsFromHalfOpen: nat)

  function Fresh(settings: Settings, now: int): Ledger {
    Ledger(New(settings, now), map[], 0, 0, 0)
  }

  predicate Enabled(s: Ledger, e: Event) {
    match e
    case Enter(id, _) => id !in s.inFlight
    case Leave(id, _, _) => id in s.inFlight
    case Look(_) => true
  }

  function Step(s: Ledger, e: Event): Ledger
    requires Enabled(s, e)
  {
    match e
    case Look(now) => s.(machine := Refresh(s.machine, now))
    case Enter(id, now) =>
      var (m, refusal) := Begin(s.machine, now);
      s.(machine := m, inFlight := if refusal.Some? then s.inFlight else s.inFlight[id := m.generation])
    case Leave(id, success, now) =>
      var r := Refresh(s.machine, now);
      var m := Finish(s.machine, s.inFlight[id], success, now);
      var tripped := m.state.Open? && !r.state.Open?;
      Ledger(m, s.inFlight - {id},
             s.failures + (if success then 0 else 1),
             s.tripsFromClosed + (if tripped && r.state.Closed? then 1 else 0),
             s.tripsFromHalfOpen + (if tripped && r.state.HalfOpen? then 1 else 0))
  }

  /** Nothing keeps a call from being tried, a call in flight from ending, or the state from being read. */
  lemma AnythingCanHappen(s: Ledger, id: CallId, success: bool, now: int)
    ensures id !in s.inFlight ==> Enabled(s, Enter(id, now))
    ensures id in s.inFlight ==> Enabled(s, Leave(id, success, now))
    ensures Enabled(s, Look(now))
  {
  }

  ghost predicate Run(states: seq<Ledger>, events: seq<Event>) {
    && |states| == |events| + 1
    && forall i | 0 <= i < |events| :: Enabled(states[i], events[i]) && states[i + 1] == Step(states[i], events[i])
  }

  /** Calls that entered under the machine's present generation and have not left. */
  ghost function Current(s: Ledger): set<CallId> {
    set id | id in s.inFlight && s.inFlight[id] == s.machine.generation
  }

  ghost predicate Valid(s: Ledger) {
    var m := s.machine;
    && (forall id | id in s.inFlight :: s.inFlight[id] <= m.generation)
    && m.counts.requests == |Current(s)| + m.counts.totalSuccesses + m.counts.totalFailures
    && m.counts.consecutiveFailures <= m.counts.totalFailures
    && (m.state.Closed? ==> m.counts.consecutiveFailures < m.settings.TripCount())
    && (m.state.HalfOpen? ==> m.counts.requests <= m.settings.Quota() && m.counts.totalFailures == 0)
    && (m.state.Open? ==> m.expiry.Some? && m.counts == NO_COUNTS)
    && s.failures >= m.settings.TripCount() * s.tripsFromClosed + s.tripsFromHalfOpen + m.counts.consecutiveFailures
  }

  lemma NobodyIsCurrent(s: Ledger, inFlight: map<CallId, nat>, m: Machine)
    requires forall id | id in inFlight :: inFlight[id] < m.generation
    ensures Current(s.(machine := m, inFlight := inFlight)) == {}
  {
  }

  lemma RefreshKeeps(s: Ledger, now: int)
    requires Valid(s)
    ensures Valid(s.(machine := Refresh(s.machine, now)))
  {
    if Refresh(s.machine, now) != s.machine {
      NobodyIsCurrent(s, s.inFlight, Refresh(s.machine, now));
    }
  }

  lemma EnterKeeps(s: Ledger, id: CallId, now: int)
    requires Valid(s) && id !in s.inFlight
    ensures Valid(Step(s, Enter(id, now)))
  {
    RefreshKeeps(s, now);
    var r := s.(machine := Refresh(s.machine, now));
    var t := Step(s, Enter(id, now));
    if Begin(s.machine, now).1.None? {
      assert Current(t) == Current(r) + {id};
    }
  }

  lemma LeaveKeeps(s: Ledger, id: CallId, success: bool, now: int)
    requires Valid(s) && id in s.inFlight
    ensures Valid(Step(s, Leave(id, success, now)))
  {
    RefreshKeeps(s, now);
    var r := s.(machine := Refresh(s.machine, now));
    var t := Step(s, Leave(id, success, now));
    if t.machine.generation != r.machine.generation {
      NobodyIsCurrent(s, t.inFlight, t.machine);
      if t.tripsFromClosed != s.tripsFromClosed {
        var k := r.machine.settings.TripCount();
        assert r.machine.counts.consecutiveFailures == k - 1;
        assert k * (s.tripsFromClosed + 1) == k * s.tripsFromClosed + k;
      }
    } else if s.inFlight[id] == r.machine.generation {
      assert id in Current(r) && Current(t) == Current(r) - {id};
    } else {
      assert Current(t) == Current(r);
    }
  }

  lemma StepKeeps(s: Ledger, e: Event)
    requires Valid(s) && Enabled(s, e)
    ensures Valid(Step(s, e)) && Step(s, e).machine.settings == s.machine.settings
  {
    match e
    case Look(t) => RefreshKeeps(s, t);
    case Enter(id, t) => EnterKeeps(s, id, t);
    case Leave(id, success, t) => LeaveKeeps(s, id, success, t);
  }

  lemma {:induction false} RunIsValid(states: seq<Ledger>, events: seq<Event>, settings: Settings, now: int, n: nat)
    requires Run(states, events) && states[0] == Fresh(settings, now) && n < |states|
    ensures Valid(states[n]) && states[n].machine.settings == settings
  {
    if n == 0 {
      assert Current(states[0]) == {};
    } else {
      RunIsValid(states, events, settings, now, n - 1);
      StepKeeps(states[n - 1], events[n - 1]);
    }
  }

  /**
   Over every run from a fresh breaker, in every state:
   a closed breaker has not yet seen `threshold` failures in a row; while half-open, at most
   the quota of calls admitted in that period are in flight; and every trip has been paid for,
   a trip out of the closed state by `threshold` failed calls and any other by one.
  */
  lemma EveryTripIsPaidFor(states: seq<Ledger>, events: seq<Event>, settings: Settings, now: int, i: nat)
    requires Run(states, events) && states[0] == Fresh(settings, now) && i < |states|
    ensures var s := states[i];
      && s.machine.settings == settings
      && (s.machine.state.Closed? ==> s.machine.counts.consecutiveFailures < settings.TripCount())
      && (s.machine.state.HalfOpen? ==> |Current(s)| <= settings.Quota())
      && s.failures >= settings.TripCount() * s.tripsFromClosed + s.tripsFromHalfOpen
  {
    RunIsValid(states, events, settings, now, i);
  }
}
