/**
 server/provider/health.go under interleaving: sweeps that load a status, call the provider
 and store later; requests that succeed in between; providers being replaced.
*/
module HealthProtocol {
  import opened Options
  import opened Collections
  import opened CircuitBreakers
  import opened FailoverLoop
  import opened ProviderViews

  type CheckId = nat

  datatype Event =
    | CheckBegins(check: CheckId, name: string)
    | CheckEnds(check: CheckId, name: string, passed: bool, now: int)
    | RequestSucceeds(name: string, now: int)
    | ProvidersReset(names: set<string>, now: int)

  datatype Loaded = Loaded(name: string, status: HealthStatus)

  datatype State = State(health: map<string, HealthStatus>, checks: map<CheckId, Loaded>)

  predicate Enabled(s: State, e: Event) {
    match e
    case CheckBegins(check, _) => check !in s.checks
    case CheckEnds(check, name, _, _) => check in s.checks && s.checks[check].name == name
    case RequestSucceeds(_, _) => true
    case ProvidersReset(_, _) => true
  }

  /** Nothing keeps a check from beginning, one under way from ending, or anyone else from writing. */
  lemma AnythingCanHappen(s: State, check: CheckId, name: string, names: set<string>, passed: bool, now: int)
    ensures check !in s.checks ==> Enabled(s, CheckBegins(check, name))
    ensures check in s.checks ==> Enabled(s, CheckEnds(check, s.checks[check].name, passed, now))
    ensures Enabled(s, RequestSucceeds(name, now)) && Enabled(s, ProvidersReset(names, now))
  {
  }

  function Update(health: map<string, HealthStatus>, name: string, status: HealthStatus): map<string, HealthStatus> {
    health[name := Stored(StatusOf(health, name), status)]
  }

  function Step(s: State, e: Event): State
    requires Enabled(s, e)
  {
    match e
    case CheckBegins(check, name) =>
      s.(checks := s.checks[check := Loaded(name, StatusOf(s.health, name))])
    case CheckEnds(check, name, passed, now) =>
      var loaded := s.checks[check].status;
      var marked := loaded.(healthy := passed, lastCheck := now,
                            errorCount := if passed then 0 else loaded.errorCount + 1);
      State(Update(s.health, name, marked), s.checks - {check})
    case RequestSucceeds(name, now) =>
      s.(health := Update(s.health, name, HealthStatus(true, now, 0, 0, 0, 0)))
    case ProvidersReset(names, now) =>
      s.(health := ResetHealth(s.health, names, now))
  }

  /** Consecutive states of the protocol, from any state. */
  ghost predicate Steps(states: seq<State>, events: seq<Event>) {
    && |states| == |events| + 1
    && forall i | 0 <= i < |events| :: Enabled(states[i], events[i]) && states[i + 1] == Step(states[i], events[i])
  }

  ghost predicate Run(states: seq<State>, events: seq<Event>) {
    Steps(states, events) && states[0] == State(map[], map[])
  }

  /** Healthy exactly when no error is on the count; the other counters are never stored. */
  predicate Sound(status: HealthStatus) {
    && (status.healthy <==> status.errorCount == 0)
    && status.errorCount >= 0
    && status.consecutiveFails == status.latency == status.requestCount == 0
  }

  ghost predicate Valid(s: State) {
    && (forall name | name in s.health :: Sound(s.health[name]))
    && (forall check | check in s.checks :: s.checks[check].status.errorCount >= 0)
  }

  lemma StepKeeps(s: State, e: Event)
    requires Valid(s) && Enabled(s, e)
    ensures Valid(Step(s, e))
  {
  }

  /** However checks, requests and resets interleave, every stored status is sound. */
  lemma {:induction false} HealthIsAlwaysSound(states: seq<State>, events: seq<Event>)
    requires Run(states, events)
    ensures forall i, name | 0 <= i < |states| && name in states[i].health :: Sound(states[i].health[name])
  {
    for n := 0 to |events|
      invariant forall i | 0 <= i <= n :: Valid(states[i])
    {
      StepKeeps(states[n], events[n]);
    }
  }

  /** Failed checks of a provider among the first n events since anything last found it healthy. */
  function TrailingFailures(events: seq<Event>, n: nat, name: string): nat
    requires n <= |events|
  {
    if n == 0 then 0
    else
      var earlier := TrailingFailures(events, n - 1, name);
      match events[n - 1]
      case CheckBegins(_, _) => earlier
      case CheckEnds(_, other, passed, _) => if other != name then earlier else if passed then 0 else earlier + 1
      case RequestSucceeds(other, _) => if other != name then earlier else 0
      case ProvidersReset(names, _) => if name !in names || name == "" then earlier else 0
  }

  predicate Concerns(e: Event, check: CheckId) {
    (e.CheckBegins? || e.CheckEnds?) && e.check == check
  }

  /** One check, begun as event b and ended as event e. */
  ghost predicate Spans(events: seq<Event>, b: nat, e: nat) {
    && b < e < |events| && events[e].CheckEnds?
    && events[b] == CheckBegins(events[e].check, events[e].name)
    && forall k | b < k < e :: !Concerns(events[k], events[e].check)
  }

  ghost predicate FailedCheck(events: seq<Event>, b: nat, e: nat, name: string) {
    Spans(events, b, e) && events[e].name == name && !events[e].passed
  }

  /** A check under way works on the status that was stored when it began. */
  lemma {:induction false} LoadedAtBegin(states: seq<State>, events: seq<Event>, b: nat, n: nat, check: CheckId)
    requires Run(states, events) && b < n <= |events| && events[b].CheckBegins? && events[b].check == check
    requires forall k | b < k < n :: !Concerns(events[k], check)
    ensures check in states[n].checks
    ensures states[n].checks[check] == Loaded(events[b].name, StatusOf(states[b].health, events[b].name))
  {
    if n > b + 1 {
      LoadedAtBegin(states, events, b, n - 1, check);
    }
  }

  lemma {:induction false} BeginOf(states: seq<State>, events: seq<Event>, n: nat, check: CheckId) returns (b: nat)
    requires Run(states, events) && n <= |events| && check in states[n].checks
    ensures b < n && events[b] == CheckBegins(check, states[n].checks[check].name)
    ensures forall k | b < k < n :: !Concerns(events[k], check)
  {
    if Concerns(events[n - 1], check) {
      b := n - 1;
    } else {
      b := BeginOf(states, events, n - 1, check);
    }
  }

  /** The error count is the run of failed checks just ended. */
  ghost predicate Exact(states: seq<State>, events: seq<Event>, k: nat, name: string)
    requires k < |states| && k <= |events|
  {
    StatusOf(states[k].health, name).errorCount == TrailingFailures(events, k, name)
  }

  /** A failed check counts on from what was stored when it began: what was counted since is lost. */
  lemma FailedCheckCounts(states: seq<State>, events: seq<Event>, b: nat, e: nat, name: string)
    requires Run(states, events) && FailedCheck(events, b, e, name) && Exact(states, events, b, name)
    ensures StatusOf(states[e + 1].health, name).errorCount ==
            TrailingFailures(events, e + 1, name) - (TrailingFailures(events, e, name) - TrailingFailures(events, b, name))
  {
    LoadedAtBegin(states, events, b, e, events[e].check);
  }

  lemma {:induction false} StaysExact(states: seq<State>, events: seq<Event>, n: nat, name: string)
    requires Run(states, events) && n <= |events|
    requires forall b: nat, e: nat | e < n && FailedCheck(events, b, e, name) ::
      TrailingFailures(events, b, name) == TrailingFailures(events, e, name)
    ensures forall k: nat | k <= n :: Exact(states, events, k, name)
  {
    if n > 0 {
      StaysExact(states, events, n - 1, name);
      assert Exact(states, events, n - 1, name);
      var e := events[n - 1];
      if e.CheckEnds? && e.name == name && !e.passed {
        var b := BeginOf(states, events, n - 1, e.check);
        assert FailedCheck(events, b, n - 1, name);
        FailedCheckCounts(states, events, b, n - 1, name);
      }
    }
  }

  /**
   However checks, requests and resets interleave, the error count of a provider is always the
   run of failed checks just ended, exactly when across every failed check of it that run is
   the same at the check's end as at its beginning.
  */
  lemma ErrorCountIsExact(states: seq<State>, events: seq<Event>, n: nat, name: string)
    requires Run(states, events) && n <= |events|
    ensures (forall k: nat | k <= n :: Exact(states, events, k, name)) <==>
            (forall b: nat, e: nat | e < n && FailedCheck(events, b, e, name) ::
               TrailingFailures(events, b, name) == TrailingFailures(events, e, name))
  {
    if forall k: nat | k <= n :: Exact(states, events, k, name) {
      forall b: nat, e: nat | e < n && FailedCheck(events, b, e, name)
        ensures TrailingFailures(events, b, name) == TrailingFailures(events, e, name)
      {
        assert Exact(states, events, b, name) && Exact(states, events, e + 1, name);
        FailedCheckCounts(states, events, b, e, name);
      }
    } else {
      if forall b: nat, e: nat | e < n && FailedCheck(events, b, e, name) ::
           TrailingFailures(events, b, name) == TrailingFailures(events, e, name) {
        StaysExact(states, events, n, name);
      }
    }
  }

  /** No check of this provider is overtaken: meanwhile nothing else writes its status. */
  ghost predicate Undisturbed(events: seq<Event>, name: string) {
    forall b: nat, e: nat, k: nat | FailedCheck(events, b, e, name) && b < k < e :: !Writes(events[k], name)
  }

  predicate Writes(e: Event, name: string) {
    match e
    case CheckBegins(_, _) => false
    case CheckEnds(_, other, _, _) => other == name
    case RequestSucceeds(other, _) => other == name
    case ProvidersReset(names, _) => name in names && name != ""
  }

  lemma {:induction false} QuietRun(events: seq<Event>, b: nat, e: nat, name: string)
    requires b <= e <= |events| && forall k | b <= k < e :: !Writes(events[k], name)
    ensures TrailingFailures(events, b, name) == TrailingFailures(events, e, name)
  {
    if b < e {
      QuietRun(events, b, e - 1, name);
    }
  }

  /** In particular the count is exact if nothing else writes the status during a failed check. */
  lemma UndisturbedChecksCount(states: seq<State>, events: seq<Event>, n: nat, name: string)
    requires Run(states, events) && Undisturbed(events, name) && n <= |events|
    ensures StatusOf(states[n].health, name).errorCount == TrailingFailures(events, n, name)
  {
    forall b: nat, e: nat | e < n && FailedCheck(events, b, e, name)
      ensures TrailingFailures(events, b, name) == TrailingFailures(events, e, name)
    {
      QuietRun(events, b, e, name);
    }
    ErrorCountIsExact(states, events, n, name);
    assert Exact(states, events, n, name);
  }

  /** No check is overtaken at all: each ends directly after it began. */
  ghost predicate Atomic(events: seq<Event>) {
    forall i | 0 <= i < |events| && events[i].CheckEnds? ::
      i > 0 && events[i - 1] == CheckBegins(events[i].check, events[i].name)
  }

  lemma {:induction false} AtomicChecksCountTrailingFailures(states: seq<State>, events: seq<Event>, n: nat, name: string)
    requires Run(states, events) && Atomic(events) && n <= |events|
    ensures StatusOf(states[n].health, name).errorCount == TrailingFailures(events, n, name)
  {
    forall b: nat, e: nat | FailedCheck(events, b, e, name)
      ensures b == e - 1
    {
      assert Concerns(events[e - 1], events[e].check);
    }
    UndisturbedChecksCount(states, events, n, name);
  }

  /** A check that nothing interrupts stores what `Checked` says. */
  lemma CheckIsBeginThenEnd(s: State, check: CheckId, name: string, passed: bool, now: int)
    requires check !in s.checks
    ensures var begun := Step(s, CheckBegins(check, name));
      && Enabled(begun, CheckEnds(check, name, passed, now))
      && Step(begun, CheckEnds(check, name, passed, now)) ==
         State(s.health[name := Checked(StatusOf(s.health, name), passed, now)], s.checks)
  {
    var begun := Step(s, CheckBegins(check, name));
    assert begun.checks - {check} == s.checks;
  }

  /** The events of an undisturbed sweep. */
  function SweepEvents(order: seq<string>, passes: map<string, bool>, now: int): seq<Event> {
    if order == [] then []
    else
      var last := order[|order| - 1];
      SweepEvents(order[..|order| - 1], passes, now)
      + [CheckBegins(0, last), CheckEnds(0, last, last in passes && passes[last], now)]
  }

  lemma OneMore(states: seq<State>, events: seq<Event>, e: Event)
    requires Steps(states, events) && Enabled(states[|events|], e)
    ensures Steps(states + [Step(states[|events|], e)], events + [e])
  {
  }

  /** An undisturbed sweep is a run of the protocol: every provider's check, one after the other. */
  lemma {:induction false} SweepIsARun(
    health: map<string, HealthStatus>, order: seq<string>, passes: map<string, bool>, now: int) returns (states: seq<State>)
    requires NoDuplicates(order) && Members(order) <= passes.Keys
    ensures Steps(states, SweepEvents(order, passes, now)) && states[0] == State(health, map[])
    ensures states[|states| - 1] == State(SweptHealth(health, Members(order), passes, now), map[])
  {
    if order == [] {
      states := [State(health, map[])];
      NothingSwept(health, passes, now);
    } else {
      var front, last := order[..|order| - 1], order[|order| - 1];
      SweptOneMore(health, order, passes, now);
      var before := SweepIsARun(health, front, passes, now);
      states := SweepOnce(before, SweepEvents(front, passes, now), last, passes[last], now);
      Pair(SweepEvents(front, passes, now), CheckBegins(0, last), CheckEnds(0, last, passes[last], now));
    }
  }

  lemma SweptOneMore(health: map<string, HealthStatus>, order: seq<string>, passes: map<string, bool>, now: int)
    requires order != [] && NoDuplicates(order) && Members(order) <= passes.Keys
    ensures var front, last := order[..|order| - 1], order[|order| - 1];
      && last in passes && Members(front) <= passes.Keys
      && var swept := SweptHealth(health, Members(front), passes, now);
         SweptHealth(health, Members(order), passes, now) ==
         swept[last := Checked(StatusOf(swept, last), passes[last], now)]
  {
    MembersStep(order, |order| - 1);
    assert order[..|order|] == order;
    SweptHealthStep(health, Members(order[..|order| - 1]), order[|order| - 1], passes, now);
  }

  lemma NothingSwept(health: map<string, HealthStatus>, passes: map<string, bool>, now: int)
    ensures SweptHealth(health, Members([]), passes, now) == health
  {
    assert Members<string>([]) == {};
  }

  lemma Pair(events: seq<Event>, a: Event, b: Event)
    ensures events + [a] + [b] == events + [a, b]
  {
  }

  lemma SweepOnce(before: seq<State>, events: seq<Event>, name: string, passed: bool, now: int) returns (states: seq<State>)
    requires Steps(before, events) && before[|events|].checks == map[]
    ensures Steps(states, events + [CheckBegins(0, name)] + [CheckEnds(0, name, passed, now)])
    ensures states[0] == before[0]
    ensures var health := before[|events|].health;
      states[|states| - 1] == State(health[name := Checked(StatusOf(health, name), passed, now)], map[])
  {
    var s := before[|events|];
    CheckIsBeginThenEnd(s, 0, name, passed, now);
    OneMore(before, events, CheckBegins(0, name));
    var begun := before + [Step(s, CheckBegins(0, name))];
    OneMore(begun, events + [CheckBegins(0, name)], CheckEnds(0, name, passed, now));
    states := begun + [Step(begun[|begun| - 1], CheckEnds(0, name, passed, now))];
  }

  /** Of two overlapping failed checks one is lost. */
  lemma OverlappingChecksLoseACount(name: string, now: int)
    ensures exists states: seq<State>, events: seq<Event> ::
      Run(states, events) && |events| == 4 &&
      StatusOf(states[4].health, name).errorCount == 1 && TrailingFailures(events, 4, name) == 2
  {
    var events := [CheckBegins(0, name), CheckBegins(1, name),
                   CheckEnds(0, name, false, now), CheckEnds(1, name, false, now)];
    var s0 := State(map[], map[]);
    var s1 := Step(s0, events[0]);
    var s2 := Step(s1, events[1]);
    var s3 := Step(s2, events[2]);
    var states := [s0, s1, s2, s3, Step(s3, events[3])];
    assert Run(states, events);
    assert TrailingFailures(events, 1, name) == 0;
    assert TrailingFailures(events, 2, name) == 0;
    assert TrailingFailures(events, 3, name) == 1;
    assert FailedCheck(events, 1, 3, name);
    FailedCheckCounts(states, events, 1, 3, name);
  }

  /**
   A whole request against this protocol: a failing one leaves the health map alone, whatever
   it met on its way; a succeeding one is the single event `RequestSucceeds` for a provider it
   tried and that answered. So no request ever marks a provider unhealthy.
  */
  lemma RequestsOnlyReportSuccess(v: View, script: seq<Attempt>, checks: map<CheckId, Loaded>)
    requires |script| == |v.preference| && "" !in v.machines
    ensures var answer := Serve(v, script);
      && (answer.err.Some? ==> answer.view.health == v.health)
      && (answer.err.None? ==> exists i: nat ::
            && i in Attempts(v.preference, Observe(v, script))
            && ReadingAt(v, script, i).err.None?
            && State(answer.view.health, checks) ==
               Step(State(v.health, checks), RequestSucceeds(v.preference[i], script[i].logged)))
      && forall name :: StatusOf(v.health, name).healthy ==> StatusOf(answer.view.health, name).healthy
  {
    var env := Observe(v, script);
    LoopMeaning(v.preference, env, true);
    var verdict := Decide(v.preference, env);
    if verdict.err.None? {
      var i := verdict.decider.value;
      assert i in Attempts(v.preference, env) && Eligible(env[i]);
      assert StatusOf(v.health, v.preference[i]).healthy;
    }
  }
}
