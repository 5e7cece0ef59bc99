/**
 The provider manager's state as a value, and one request as a function on it. The failover
 loop itself is `FailoverLoop`; here its readings come from real breakers, evolving from
 iteration to iteration.
*/
module ProviderViews {
  import opened Options
  import opened Gobreaker
  import opened CircuitBreakers
  import opened FailoverLoop

  /** An LLM client; only its identity matters. */
  type Provider = nat

  datatype HealthStatus = HealthStatus(
    healthy: bool, lastCheck: int, consecutiveFails: int, latency: int,
    errorCount: int, requestCount: int)

  const NO_STATUS := HealthStatus(false, 0, 0, 0, 0, 0)

  datatype View = View(
    providers: map<string, Provider>, machines: map<string, Machine>,
    health: map<string, HealthStatus>, preference: seq<string>)

  function StatusOf(health: map<string, HealthStatus>, name: string): HealthStatus {
    if name in health then health[name] else NO_STATUS
  }

  predicate Usable(v: View, name: string) {
    name in v.providers && name in v.machines && StatusOf(v.health, name).healthy
  }

  /** One attempt's inputs: the clock at each of its four readings, and what the operation does. */
  datatype Attempt = Attempt(begin: int, end: int, logged: int, judged: int, outcome: Outcome)

  /** `entered`: the breaker let the call through; `fails`: the failures in a row then logged. */
  datatype Trial = Trial(machine: Machine, err: Option<Failure>, entered: bool, fails: nat, judged: State)

  function Try(m: Machine, a: Attempt): Trial {
    var (called, refusal) := Call(m, a.begin, a.end, a.outcome);
    var logged := Refresh(called, a.logged);
    var judged := Refresh(logged, a.judged);
    Trial(judged,
          if refusal.Some? then Some(Refused(refusal.value)) else a.outcome.Error(),
          refusal.None?, logged.counts.consecutiveFailures,
          // After a success the loop returns at once and does not read the state again.
          judged.state)
  }

  /** What an attempt leaves behind: the state is read once more only after an error. */
  function Left(m: Machine, a: Attempt): Machine {
    if Try(m, a).err.None? then Refresh(Call(m, a.begin, a.end, a.outcome).0, a.logged)
    else Try(m, a).machine
  }

  /** The breakers after the first i iterations. */
  function Evolve(v: View, script: seq<Attempt>, i: nat): (machines: map<string, Machine>)
    requires |script| == |v.preference| && i <= |v.preference|
    ensures machines.Keys == v.machines.Keys
  {
    if i == 0 then v.machines
    else
      var before := Evolve(v, script, i - 1);
      var name := v.preference[i - 1];
      if Usable(v, name) then before[name := Left(before[name], script[i - 1])] else before
  }

  function ReadingAt(v: View, script: seq<Attempt>, i: nat): Reading
    requires |script| == |v.preference| && i < |v.preference|
  {
    var name := v.preference[i];
    var healthy := StatusOf(v.health, name).healthy;
    if name in v.machines then
      var trial := Try(Evolve(v, script, i)[name], script[i]);
      Reading(name in v.providers, true, healthy, trial.err, trial.judged)
    else
      Reading(name in v.providers, false, healthy, None, Closed)
  }

  function Observe(v: View, script: seq<Attempt>): (env: seq<Reading>)
    requires |script| == |v.preference|
    ensures |env| == |v.preference|
    ensures forall i | 0 <= i < |env| :: env[i] == ReadingAt(v, script, i)
  {
    seq(|v.preference|, i requires 0 <= i < |v.preference| => ReadingAt(v, script, i))
  }

  /** What `UpdateHealthStatus` stores over the present status. */
  function Stored(current: HealthStatus, status: HealthStatus): HealthStatus {
    HealthStatus(status.healthy, status.lastCheck, 0, 0,
                 if status.healthy && !current.healthy then 0 else status.errorCount, 0)
  }

  /** What a sweep's check leaves behind for a provider whose status it loaded as `loaded`. */
  function Checked(loaded: HealthStatus, passed: bool, now: int): HealthStatus {
    HealthStatus(passed, now, 0, 0, if passed then 0 else loaded.errorCount + 1, 0)
  }

  /** The health map once `SetProviders` has initialised the given names. */
  function ResetHealth(health: map<string, HealthStatus>, names: set<string>, now: int): map<string, HealthStatus> {
    health + map name | name in names && name != "" :: HealthStatus(true, now, 0, 0, 0, 0)
  }

  /** Every name but the empty one is healthy then, and nothing else has changed. */
  lemma ResetHealthMeaning(health: map<string, HealthStatus>, names: set<string>, now: int)
    ensures var reset := ResetHealth(health, names, now);
      && reset.Keys == health.Keys + (names - {""})
      && forall name | name in reset ::
           reset[name] == if name in names && name != "" then HealthStatus(true, now, 0, 0, 0, 0) else health[name]
  {
  }

  lemma ResetHealthStep(health: map<string, HealthStatus>, names: set<string>, name: string, now: int)
    ensures ResetHealth(health, names + {name}, now) ==
            if name == "" then ResetHealth(health, names, now)
            else ResetHealth(health, names, now)[name := HealthStatus(true, now, 0, 0, 0, 0)]
  {
  }

  /** The health map once a sweep has checked the given names. */
  function SweptHealth(health: map<string, HealthStatus>, names: set<string>, passes: map<string, bool>, now: int)
    : map<string, HealthStatus>
    requires names <= passes.Keys
  {
    health + map name | name in names :: Checked(StatusOf(health, name), passes[name], now)
  }

  lemma SweptHealthStep(health: map<string, HealthStatus>, names: set<string>, name: string,
                        passes: map<string, bool>, now: int)
    requires names <= passes.Keys && name in passes && name !in names
    ensures var swept := SweptHealth(health, names, passes, now);
      && StatusOf(swept, name) == StatusOf(health, name)
      && SweptHealth(health, names + {name}, passes, now) ==
         swept[name := Checked(StatusOf(health, name), passes[name], now)]
  {
  }

  function SuccessStatus(status: HealthStatus, a: Attempt): HealthStatus {
    HealthStatus(true, a.logged, 0, a.end - a.begin, 0, status.requestCount + 1)
  }

  datatype Answer = Answer(view: View, err: Option<Failure>)

  /** One whole request: the loop, then the health write, which only a success reaches. */
  function Serve(v: View, script: seq<Attempt>): (answer: Answer)
    requires |script| == |v.preference|
    ensures answer.view.preference == v.preference && answer.view.providers == v.providers
  {
    var env := Observe(v, script);
    var verdict := Decide(v.preference, env);
    var after := v.(machines := Evolve(v, script, Visited(v.preference, env, true)));
    if verdict.err.Some? || v.preference[verdict.decider.value] == "" then
      Answer(after, verdict.err)
    else
      var name := v.preference[verdict.decider.value];
      var status := StatusOf(v.health, name);
      Answer(after.(health := v.health[name := Stored(status, SuccessStatus(status, script[verdict.decider.value]))]),
             None)
  }

  /** The loop has come as far as iteration i without returning. */
  ghost predicate ComesTo(v: View, script: seq<Attempt>, i: nat)
    requires |script| == |v.preference| && i <= |v.preference|
  {
    var env := Observe(v, script);
    Visited(v.preference, env, true) == Visited(v.preference, env, true, i)
  }

  /** An iteration on a provider that cannot be used leaves everything as it is. */
  lemma IterationSkips(v: View, script: seq<Attempt>, i: nat)
    requires |script| == |v.preference| && i < |v.preference| && ComesTo(v, script, i)
    requires !Usable(v, v.preference[i])
    ensures ComesTo(v, script, i + 1) && Evolve(v, script, i + 1) == Evolve(v, script, i)
    ensures LastTried(Observe(v, script), i + 1) == LastTried(Observe(v, script), i)
  {
  }

  /** An iteration on a usable provider moves its breaker, and returns or goes on. */
  lemma IterationTries(v: View, script: seq<Attempt>, i: nat)
    requires |script| == |v.preference| && i < |v.preference| && ComesTo(v, script, i)
    requires Usable(v, v.preference[i])
    ensures var name := v.preference[i];
      var env, before := Observe(v, script), Evolve(v, script, i);
      var trial := Try(before[name], script[i]);
      && Evolve(v, script, i + 1) == before[name := Left(before[name], script[i])]
      && LastTried(env, i + 1) == Some(i) && env[i].err == trial.err
      && (trial.err.Some? && trial.judged.Open? && name != v.preference[|v.preference| - 1] ==>
            ComesTo(v, script, i + 1))
      && (trial.err.None? || !trial.judged.Open? || name == v.preference[|v.preference| - 1] ==>
            Visited(v.preference, env, true) == i + 1 && Decide(v.preference, env) == Verdict(trial.err, Some(i)))
  {
  }

  /** The error of a verdict is what the operation of the deciding attempt, or its breaker, said. */
  ghost predicate Explained(err: Option<Failure>, outcome: Outcome) {
    match err
    case None => outcome == Succeeds
    case Some(OperationFailed(code)) => outcome == Fails(code)
    case Some(ContextDone(code)) => outcome == Cancelled(code)
    case Some(Refused(_)) => true
    case Some(_) => false
  }

  /** Registered, behind a breaker, and known to be healthy. */
  ghost predicate CanBeUsed(v: View, name: string) {
    name in v.providers && name in v.machines && name in v.health && v.health[name].healthy
  }

  /**
   What a request is answered, without the loop's own vocabulary: there are no providers
   configured exactly if the list is empty; no healthy one exactly if no entry of the list is
   registered, guarded and healthy; and otherwise an attempt on such an entry decides.
  */
  lemma AnswerMeaning(v: View, script: seq<Attempt>)
    requires |script| == |v.preference|
    ensures var verdict := Decide(v.preference, Observe(v, script));
      && (verdict.err == Some(NoProvidersConfigured) <==> v.preference == [])
      && (verdict.err == Some(NoHealthyProvider) <==>
            v.preference != [] &&
            forall name | name in v.preference :: !CanBeUsed(v, name))
      && (verdict.decider.Some? ==>
            var k := verdict.decider.value;
            && CanBeUsed(v, v.preference[k])
            && k in Attempts(v.preference, Observe(v, script))
            && Explained(verdict.err, script[k].outcome))
      && (verdict.decider.None? ==> verdict.err in {Some(NoProvidersConfigured), Some(NoHealthyProvider)})
  {
    var env := Observe(v, script);
    LoopMeaning(v.preference, env, true);
    var verdict := Decide(v.preference, env);
    if verdict.decider.Some? {
      DecidingAttempt(v, script, verdict.decider.value);
    } else {
      forall name | name in v.preference
        ensures !CanBeUsed(v, name)
      {
        var i: nat :| i < |v.preference| && v.preference[i] == name;
        assert !Eligible(env[i]);
      }
    }
  }

  lemma DecidingAttempt(v: View, script: seq<Attempt>, k: nat)
    requires |script| == |v.preference| && k < |v.preference| && Eligible(ReadingAt(v, script, k))
    ensures CanBeUsed(v, v.preference[k])
    ensures Explained(ReadingAt(v, script, k).err, script[k].outcome)
  {
  }

  /** The same for a whole request, and what it writes: a success reports the provider that answered. */
  lemma ServeMeaning(v: View, script: seq<Attempt>)
    requires |script| == |v.preference|
    ensures var answer := Serve(v, script);
      && (answer.err == Some(NoProvidersConfigured) <==> v.preference == [])
      && (answer.err == Some(NoHealthyProvider) <==>
            v.preference != [] &&
            forall name | name in v.preference ::
              !(name in v.providers && name in v.machines && name in v.health && v.health[name].healthy))
      && (answer.err.Some? ==> answer.view.health == v.health)
      && (answer.err.None? ==> exists k: nat :: k < |v.preference| && Reports(v, answer.view.health, script, k))
  {
    AnswerMeaning(v, script);
    var verdict := Decide(v.preference, Observe(v, script));
    if verdict.err.None? {
      assert Reports(v, Serve(v, script).view.health, script, verdict.decider.value);
    }
  }

  ghost predicate Reports(v: View, health: map<string, HealthStatus>, script: seq<Attempt>, k: nat)
    requires |script| == |v.preference| && k < |v.preference|
  {
    var name := v.preference[k];
    && CanBeUsed(v, name) && script[k].outcome == Succeeds
    && health == if name == "" then v.health else v.health[name := HealthStatus(true, script[k].logged, 0, 0, 0, 0)]
  }
}
