/**
 The breaker against its own history. The machine keeps counters, an expiry time and a
 generation number; here the present period is read off the events instead: when it began, whom
 it let in, and how the calls it let in came out. The laws say of every event of every run what
 it does to the state, in terms of that history alone.
*/
module BreakerHistory {
  import opened Options
  import opened Gobreaker
  import opened CircuitBreakers
  import opened BreakerLedger
  import opened ProviderViews

  datatype Period = Period(began: int, admitted: seq<CallId>, outcomes: seq<bool>)

  /** The period after an event; a new one begins whenever the generation changes. */
  function Grown(p: Period, s: Ledger, e: Event, t: Ledger): Period {
    var q := if t.machine.generation != s.machine.generation then Period(e.now, [], []) else p;
    match e
    case Look(_) => q
    case Enter(id, _) => if id in t.inFlight then q.(admitted := q.admitted + [id]) else q
    case Leave(id, success, _) =>
      if t.machine.generation == s.machine.generation && id in p.admitted then q.(outcomes := q.outcomes + [success]) else q
  }

  /** The present period after the first n events. */
  function History(states: seq<Ledger>, events: seq<Event>, start: int, n: nat): Period
    requires n <= |events| < |states|
  {
    if n == 0 then Period(start, [], [])
    else Grown(History(states, events, start, n - 1), states[n - 1], events[n - 1], states[n])
  }

  /** The last k entries of a log, and no more, all have the given value. */
  ghost predicate EndsInRun(log: seq<bool>, value: bool, k: nat) {
    && k <= |log|
    && (forall i | |log| - k <= i < |log| :: log[i] == value)
    && (k < |log| ==> log[|log| - k - 1] != value)
  }

  /** When the present period ends by itself. */
  function Deadline(m: Machine, p: Period): Option<int> {
    match m.state
    case Closed => if m.settings.interval <= 0 then None else Some(p.began + m.settings.interval)
    case Open => Some(p.began + (if m.settings.timeout <= 0 then 60_000_000_000 else m.settings.timeout))
    case HalfOpen => None
  }

  ghost predicate Agrees(s: Ledger, p: Period) {
    var m := s.machine;
    && m.expiry == Deadline(m, p)
    && m.counts.requests == |p.admitted|
    && m.counts.totalFailures + m.counts.totalSuccesses == |p.outcomes|
    && EndsInRun(p.outcomes, false, m.counts.consecutiveFailures)
    && EndsInRun(p.outcomes, true, m.counts.consecutiveSuccesses)
    && (forall id | id in s.inFlight :: id in p.admitted <==> s.inFlight[id] == m.generation)
    && (m.state.HalfOpen? ==> |p.outcomes| == m.counts.consecutiveSuccesses < m.settings.Quota())
  }

  lemma RunGrows(log: seq<bool>, value: bool, k: nat, next: bool)
    requires EndsInRun(log, value, k)
    ensures EndsInRun(log + [next], value, if next == value then k + 1 else 0)
  {
  }

  lemma LookAgrees(s: Ledger, p: Period, now: int)
    requires BreakerLedger.Valid(s) && Agrees(s, p)
    ensures var t := Step(s, Look(now)); Agrees(t, Grown(p, s, Look(now), t))
  {
  }

  lemma EnterAgrees(s: Ledger, p: Period, id: CallId, now: int)
    requires BreakerLedger.Valid(s) && Agrees(s, p) && id !in s.inFlight
    ensures var e := Enter(id, now); var t := Step(s, e); Agrees(t, Grown(p, s, e, t))
  {
    LookAgrees(s, p, now);
  }

  /** A call of an earlier period leaves: only the clock acts. */
  lemma StaleLeaveAgrees(s: Ledger, p: Period, id: CallId, success: bool, now: int)
    requires BreakerLedger.Valid(s) && Agrees(s, p) && id in s.inFlight
    requires s.inFlight[id] != Refresh(s.machine, now).generation
    ensures var e := Leave(id, success, now); var t := Step(s, e); Agrees(t, Grown(p, s, e, t))
  {
    LookAgrees(s, p, now);
  }

  lemma SuccessAgrees(s: Ledger, p: Period, id: CallId, now: int)
    requires BreakerLedger.Valid(s) && Agrees(s, p) && id in s.inFlight
    requires s.inFlight[id] == Refresh(s.machine, now).generation
    ensures var e := Leave(id, true, now); var t := Step(s, e); Agrees(t, Grown(p, s, e, t))
  {
    assert Refresh(s.machine, now) == s.machine;
    RunGrows(p.outcomes, false, s.machine.counts.consecutiveFailures, true);
    RunGrows(p.outcomes, true, s.machine.counts.consecutiveSuccesses, true);
  }

  lemma FailureAgrees(s: Ledger, p: Period, id: CallId, now: int)
    requires BreakerLedger.Valid(s) && Agrees(s, p) && id in s.inFlight
    requires s.inFlight[id] == Refresh(s.machine, now).generation
    ensures var e := Leave(id, false, now); var t := Step(s, e); Agrees(t, Grown(p, s, e, t))
  {
    assert Refresh(s.machine, now) == s.machine;
    RunGrows(p.outcomes, false, s.machine.counts.consecutiveFailures, false);
    RunGrows(p.outcomes, true, s.machine.counts.consecutiveSuccesses, false);
  }

  lemma {:induction false} HistoryAgrees(
    states: seq<Ledger>, events: seq<Event>, settings: Settings, start: int, n: nat)
    requires Run(states, events) && states[0] == Fresh(settings, start) && n <= |events|
    ensures BreakerLedger.Valid(states[n]) && states[n].machine.settings == settings
    ensures Agrees(states[n], History(states, events, start, n))
  {
    RunIsValid(states, events, settings, start, n);
    if n > 0 {
      HistoryAgrees(states, events, settings, start, n - 1);
      var p := History(states, events, start, n - 1);
      match events[n - 1]
      case Look(now) => LookAgrees(states[n - 1], p, now);
      case Enter(id, now) => EnterAgrees(states[n - 1], p, id, now);
      case Leave(id, success, now) =>
        if states[n - 1].inFlight[id] != Refresh(states[n - 1].machine, now).generation {
          StaleLeaveAgrees(states[n - 1], p, id, success, now);
        } else if success {
          SuccessAgrees(states[n - 1], p, id, now);
        } else {
          FailureAgrees(states[n - 1], p, id, now);
        }
    }
  }

  /**
   Each event of every run, in terms of the history before it. A closed breaker opens exactly
   when a call it let in in the present period fails as the `threshold`-th in a row of that
   period; an open one turns half-open exactly at the first event after its timeout. The
   machine's count of failures in a row is just that: the calls of the present period that came
   out last, back to its last success or to its beginning.
  */
  lemma BreakerFollowsHistory(
    states: seq<Ledger>, events: seq<Event>, settings: Settings, start: int, n: nat)
    requires Run(states, events) && states[0] == Fresh(settings, start) && n < |events|
    ensures states[0].machine.state.Closed?
    ensures var s, e, t, p := states[n], events[n], states[n + 1], History(states, events, start, n);
      var threshold := if settings.failureThreshold == 0 then 1 else settings.failureThreshold;
      var due := || (s.machine.state.Closed? && settings.interval > 0 && e.now > p.began + settings.interval)
                 || (s.machine.state.Open? && e.now > p.began + (if settings.timeout <= 0 then 60_000_000_000 else settings.timeout));
      && s.machine.settings == settings
      && (var k := s.machine.counts.consecutiveFailures;
          && k <= |p.outcomes| && (forall i | |p.outcomes| - k <= i < |p.outcomes| :: !p.outcomes[i])
          && (k < |p.outcomes| ==> p.outcomes[|p.outcomes| - k - 1]))
      && (s.machine.state.Closed? ==>
            && !t.machine.state.HalfOpen?
            && (t.machine.state.Open? <==>
                  && !due && e.Leave? && !e.success && e.id in p.admitted
                  && |p.outcomes| >= threshold - 1
                  && forall i | |p.outcomes| - (threshold - 1) <= i < |p.outcomes| :: !p.outcomes[i]))
      && (s.machine.state.Open? ==> if due then t.machine.state.HalfOpen? else t.machine.state.Open?)
  {
    HistoryAgrees(states, events, settings, start, n);
  }

  /** A half-open breaker opens with the first failure and closes with the last of `quota` successes. */
  lemma HalfOpenFollowsHistory(
    states: seq<Ledger>, events: seq<Event>, settings: Settings, start: int, n: nat)
    requires Run(states, events) && states[0] == Fresh(settings, start) && n < |events|
    requires states[n].machine.state.HalfOpen?
    ensures var s, e, t, p := states[n], events[n], states[n + 1], History(states, events, start, n);
      var quota := if settings.maxRequests == 0 then 1 else settings.maxRequests;
      && |p.admitted| <= quota && (forall i | 0 <= i < |p.outcomes| :: p.outcomes[i])
      && (t.machine.state.Open? <==> e.Leave? && !e.success && e.id in p.admitted)
      && (t.machine.state.Closed? <==> e.Leave? && e.success && e.id in p.admitted && |p.outcomes| + 1 == quota)
  {
    HistoryAgrees(states, events, settings, start, n);
  }

  /** Who is let in, and when a new period begins. */
  lemma AdmissionFollowsHistory(
    states: seq<Ledger>, events: seq<Event>, settings: Settings, start: int, n: nat)
    requires Run(states, events) && states[0] == Fresh(settings, start) && n < |events|
    ensures var s, e, t, p := states[n], events[n], states[n + 1], History(states, events, start, n);
      var quota := if settings.maxRequests == 0 then 1 else settings.maxRequests;
      var due := || (s.machine.state.Closed? && settings.interval > 0 && e.now > p.began + settings.interval)
                 || (s.machine.state.Open? && e.now > p.began + (if settings.timeout <= 0 then 60_000_000_000 else settings.timeout));
      && (e.Enter? ==> (e.id in t.inFlight <==>
                          || s.machine.state.Closed?
                          || (s.machine.state.HalfOpen? && |p.admitted| < quota)
                          || (s.machine.state.Open? && due)))
      && (t.machine.generation != s.machine.generation <==> due || t.machine.state != s.machine.state)
      && (t.failures == s.failures + (if e.Leave? && !e.success then 1 else 0))
      && (t.tripsFromClosed == s.tripsFromClosed +
            (if s.machine.state.Closed? && t.machine.state.Open? then 1 else 0))
      && (t.tripsFromHalfOpen == s.tripsFromHalfOpen +
            (if s.machine.state.HalfOpen? && t.machine.state.Open? then 1 else 0))
  {
    HistoryAgrees(states, events, settings, start, n);
  }

  // ----- one call, and one attempt of the failover loop, as events of such a run

  /** A call that nothing overtakes is its entry directly followed, if it is let in, by its exit. */
  lemma CallIsEnterThenLeave(s: Ledger, id: CallId, begin: int, end: int, outcome: Outcome)
    requires id !in s.inFlight
    ensures var (after, refusal) := Call(s.machine, begin, end, outcome);
      var t := Step(s, Enter(id, begin));
      && (refusal.None? <==> id in t.inFlight)
      && after == (if id in t.inFlight then Step(t, Leave(id, outcome == Succeeds, end)).machine else t.machine)
      && (refusal.Some? ==> refusal.value == (if t.machine.state.Open? then OpenState else TooManyRequests))
  {
  }

  /** An attempt of the failover loop is such a call, then a look, and after an error another look. */
  lemma AttemptIsACall(s: Ledger, id: CallId, a: Attempt)
    requires id !in s.inFlight
    ensures var entered := Step(s, Enter(id, a.begin));
      var left := if id in entered.inFlight then Step(entered, Leave(id, a.outcome == Succeeds, a.end)) else entered;
      var logged := Step(left, Look(a.logged));
      var judged := Step(logged, Look(a.judged));
      var trial := Try(s.machine, a);
      && (trial.entered <==> id in entered.inFlight)
      && trial.err == (if !trial.entered then
                         Some(Refused(if entered.machine.state.Open? then OpenState else TooManyRequests))
                       else if a.outcome.Succeeds? then None
                       else if a.outcome.Fails? then Some(OperationFailed(a.outcome.code))
                       else Some(ContextDone(a.outcome.code)))
      && trial.fails == logged.machine.counts.consecutiveFailures
      && trial.judged == judged.machine.state
      && Left(s.machine, a) == (if trial.err.None? then logged.machine else judged.machine)
  {
    CallIsEnterThenLeave(s, id, a.begin, a.end, a.outcome);
  }
}
