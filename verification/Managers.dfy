/**
 server/provider: the manager as the source has it, an object whose maps and breakers are
 updated in place. Every method is proved against the value model in `ProviderViews`.
*/
module Managers {
  import opened Options
  import opened Collections
  import opened Gobreaker
  import opened CircuitBreakers
  import opened FailoverLoop
  import opened ProviderViews
  import opened Selection
  import opened PreferenceMerge

  /** The structure the loop hands on; `name` is empty when no provider was tried. */
  datatype Result = Result(err: Option<Failure>, status: HealthStatus, name: string)

  class Manager {
    var providers: map<string, Provider>
    var breakers: map<string, CircuitBreaker>
    var healthStates: map<string, HealthStatus>
    var preference: seq<string>
    var deduplicated: nat
    const breakerTimeout: int
    const breakerMaxRequests: nat
    const testMode: bool

    ghost predicate Valid()
      reads this`breakers, breakers.Values
    {
      && (forall a, b | a in breakers && b in breakers && a != b :: breakers[a] != breakers[b])
      && (forall name | name in breakers :: breakers[name].Valid())
    }

    ghost function Machines(): map<string, Machine>
      reads this`breakers, breakers.Values
    {
      map name | name in breakers :: breakers[name].breaker
    }

    ghost function Model(): View
      reads this, breakers.Values
    {
      View(providers, Machines(), healthStates, preference)
    }

    /** A manager as test mode creates it, or before its providers are initialised. */
    constructor (preference: seq<string>, breakerTimeout: int, breakerMaxRequests: nat, testMode: bool)
      ensures Valid() && Model() == View(map[], map[], map[], preference) && deduplicated == 0
      ensures this.breakerTimeout == breakerTimeout && this.breakerMaxRequests == breakerMaxRequests
      ensures this.testMode == testMode
    {
      this.preference := preference;
      this.breakerTimeout, this.breakerMaxRequests, this.testMode := breakerTimeout, breakerMaxRequests, testMode;
      providers, breakers, healthStates := map[], map[], map[];
      deduplicated := 0;
    }

    function GetHealthStatus(name: string): HealthStatus
      reads this
    {
      if name in healthStates then healthStates[name] else NO_STATUS
    }

    method UpdateHealthStatus(name: string, status: HealthStatus)
      modifies this`healthStates
      ensures healthStates == old(healthStates)[name := HealthStatus(
                status.healthy, status.lastCheck, 0, 0,
                if status.healthy && !(name in old(healthStates) && old(healthStates)[name].healthy) then 0
                else status.errorCount, 0)]
    {
      var current := GetHealthStatus(name);
      var newStatus := NO_STATUS.(
        healthy := status.healthy, lastCheck := status.lastCheck, errorCount := status.errorCount);
      if status.healthy && !current.healthy {
        newStatus := newStatus.(errorCount := 0);
      }
      healthStates := healthStates[name := newStatus];
    }

    /** One attempt through a provider's breaker, and the status it would report. */
    method ExecuteOperation(breaker: CircuitBreaker, status: HealthStatus, name: string, a: Attempt)
      returns (result: Result, entered: bool)
      requires breaker.Valid()
      modifies breaker
      ensures breaker.Valid()
      ensures breaker.breaker == Refresh(Call(old(breaker.breaker), a.begin, a.end, a.outcome).0, a.logged)
      ensures var trial := Try(old(breaker.breaker), a);
        && result.name == name && result.err == trial.err && entered == trial.entered
        && (trial.err.None? ==>
              result.status == HealthStatus(true, a.logged, 0, a.end - a.begin, 0, status.requestCount + 1))
        && (trial.err.Some? ==>
              result.status == HealthStatus(false, a.logged, breaker.breaker.counts.consecutiveFailures, a.end - a.begin,
                                            status.errorCount + 1, status.requestCount + 1))
    {
      var err, through := breaker.Execute(a.begin, a.end, a.outcome);
      entered := through;
      var duration := a.end - a.begin;
      var breakerState := breaker.State(a.logged);
      var fails := breaker.breaker.counts.consecutiveFailures;
      if err.Some? {
        result := Result(err, HealthStatus(false, a.logged, fails, duration,
                                           status.errorCount + 1, status.requestCount + 1), name);
      } else {
        result := Result(None, HealthStatus(true, a.logged, 0, duration, 0, status.requestCount + 1), name);
      }
    }

    /** After a step on one name's breaker, no other name's machine has moved. */
    twostate lemma OneMachineMoves(name: string)
      requires old(Valid()) && name in old(breakers) && breakers == old(breakers)
      requires forall b | b in breakers.Values && b != breakers[name] :: unchanged(b)
      ensures Machines() == old(Machines())[name := breakers[name].breaker]
    {
      forall other | other in breakers && other != name
        ensures breakers[other].breaker == old(breakers[other].breaker)
      {
        assert breakers[other] in breakers.Values;
      }
    }

    /** One iteration's work on a usable provider: the attempt and, after an error, the breaker's state. */
    method TryProvider(name: string, a: Attempt) returns (result: Result, state: State)
      requires Valid() && name in breakers
      modifies breakers[name]
      ensures Valid()
      ensures Machines() == old(Machines())[name := Left(old(Machines())[name], a)]
      ensures var trial := Try(old(Machines())[name], a);
        && result.name == name && result.err == trial.err
        && (trial.err.Some? ==> state == trial.judged)
        && (trial.err.None? ==> result.status == SuccessStatus(old(GetHealthStatus(name)), a))
    {
      var breaker := breakers[name];
      var entered;
      result, entered := ExecuteOperation(breaker, GetHealthStatus(name), name, a);
      state := Closed;
      if result.err.Some? {
        state := breaker.State(a.judged);
      }
      OneMachineMoves(name);
    }

    /**
     The failover loop. The request's result is never nil and carries the error returned; both
     are what the loop's meaning decides on the readings these breakers give, and the breakers
     end where the iterations actually made leave them. Health is not written.
    */
    method ExecuteWithRetries(script: seq<Attempt>) returns (result: Result, err: Option<Failure>)
      requires Valid() && |script| == |preference|
      modifies breakers.Values
      ensures Valid()
      ensures var v := old(Model());
        var env := Observe(v, script);
        var verdict := Decide(v.preference, env);
        && Model() == v.(machines := Evolve(v, script, Visited(v.preference, env, true)))
        && err == verdict.err == result.err
        && (verdict.decider.None? ==> result.name == "")
        && (verdict.decider.Some? ==> result.name == v.preference[verdict.decider.value])
        && (err.None? ==> result.status == SuccessStatus(
              StatusOf(v.health, result.name), script[verdict.decider.value]))
      ensures err == Some(NoProvidersConfigured) <==> preference == []
      ensures err == Some(NoHealthyProvider) <==>
              preference != [] && forall name | name in preference :: !CanBeUsed(old(Model()), name)
      ensures var decider := Decide(preference, Observe(old(Model()), script)).decider;
        decider.Some? ==> CanBeUsed(old(Model()), result.name) && Explained(err, script[decider.value].outcome)
    {
      AnswerMeaning(Model(), script);
      if |preference| == 0 {
        return Result(Some(NoProvidersConfigured), NO_STATUS, ""), Some(NoProvidersConfigured);
      }
      var lastResult := TryEach(script);
      if lastResult.None? {
        return Result(Some(NoHealthyProvider), NO_STATUS, ""), Some(NoHealthyProvider);
      }
      return lastResult.value, lastResult.value.err;
    }

    /** The result's error and provider are those of the attempt at position k. */
    ghost predicate From(last: Result, v: View, script: seq<Attempt>, k: nat)
      requires |script| == |v.preference| && k < |v.preference|
    {
      && last.name == v.preference[k] && last.err == ReadingAt(v, script, k).err
      && (last.err.None? ==> last.status == SuccessStatus(StatusOf(v.health, last.name), script[k]))
    }

    /** The result kept after the first n iterations is that of the last attempt among them. */
    ghost predicate Keeps(last: Option<Result>, v: View, script: seq<Attempt>, n: nat)
      requires |script| == |v.preference| && n <= |v.preference|
    {
      var tried := LastTried(Observe(v, script), n);
      && (last.None? <==> tried.None?)
      && (last.Some? ==> From(last.value, v, script, tried.value))
    }

    lemma TrialIsKept(v: View, script: seq<Attempt>, i: nat, result: Result)
      requires |script| == |v.preference| && i < |v.preference| && ComesTo(v, script, i) && Usable(v, v.preference[i])
      requires result.name == v.preference[i]
      requires var trial := Try(Evolve(v, script, i)[result.name], script[i]);
        && result.err == trial.err
        && (trial.err.None? ==> result.status == SuccessStatus(StatusOf(v.health, result.name), script[i]))
      ensures Keeps(Some(result), v, script, i + 1)
    {
      IterationTries(v, script, i);
    }

    /** One iteration: an attempt if the provider can be used, and whether the loop returns with it. */
    method Iterate(ghost v: View, script: seq<Attempt>, i: nat, last: Option<Result>)
      returns (current: Option<Result>, stop: bool)
      requires Valid() && |script| == |v.preference| && i < |v.preference| && ComesTo(v, script, i)
      requires preference == v.preference && providers == v.providers && healthStates == v.health
      requires Machines() == Evolve(v, script, i) && Keeps(last, v, script, i)
      modifies breakers.Values
      ensures Valid() && Machines() == Evolve(v, script, i + 1)
      ensures Keeps(current, v, script, i + 1)
      ensures if stop then Visited(v.preference, Observe(v, script), true) == i + 1
              else ComesTo(v, script, i + 1)
    {
      var name := preference[i];
      if name !in providers || name !in breakers || !GetHealthStatus(name).healthy {
        IterationSkips(v, script, i);
        return last, false;
      }
      var result;
      result, stop := IterateUsable(v, script, i);
      current := Some(result);
    }

    /** The same on a provider that can be used: an attempt, and whether the loop returns with it. */
    method IterateUsable(ghost v: View, script: seq<Attempt>, i: nat) returns (result: Result, stop: bool)
      requires Valid() && |script| == |v.preference| && i < |v.preference| && ComesTo(v, script, i)
      requires preference == v.preference && healthStates == v.health
      requires Machines() == Evolve(v, script, i) && Usable(v, preference[i])
      modifies breakers.Values
      ensures Valid() && Machines() == Evolve(v, script, i + 1)
      ensures Keeps(Some(result), v, script, i + 1)
      ensures if stop then Visited(v.preference, Observe(v, script), true) == i + 1
              else ComesTo(v, script, i + 1)
    {
      var name, lastName := preference[i], preference[|preference| - 1];
      IterationTries(v, script, i);
      var state;
      result, state := TryProvider(name, script[i]);
      TrialIsKept(v, script, i, result);
      stop := if result.err.None? then true else if state.Open? then name == lastName else true;
    }

    /** The loop over the preference list: the result of its last attempt, if it made any. */
    method TryEach(script: seq<Attempt>) returns (lastResult: Option<Result>)
      requires Valid() && |script| == |preference|
      modifies breakers.Values
      ensures Valid()
      ensures var v := old(Model());
        var n := Visited(v.preference, Observe(v, script), true);
        Machines() == Evolve(v, script, n) && Keeps(lastResult, v, script, n)
    {
      ghost var v := Model();
      ghost var n := Visited(v.preference, Observe(v, script), true);
      lastResult := None;
      for i := 0 to |preference|
        invariant Valid() && Machines() == Evolve(v, script, i)
        invariant ComesTo(v, script, i) && Keeps(lastResult, v, script, i)
      {
        var stop;
        lastResult, stop := Iterate(v, script, i, lastResult);
        if stop {
          assert n == i + 1;
          return;
        }
      }
      assert n == |preference|;
    }

    /** The health write after a request: only a result with a provider's name is stored. */
    method ProcessResult(r: Result) returns (err: Option<Failure>)
      modifies this`healthStates
      ensures err == r.err
      ensures healthStates == if r.name == "" then old(healthStates)
                              else old(healthStates)[r.name := HealthStatus(
                                r.status.healthy, r.status.lastCheck, 0, 0,
                                if r.status.healthy && !old(GetHealthStatus(r.name)).healthy then 0
                                else r.status.errorCount, 0)]
    {
      if r.name != "" {
        UpdateHealthStatus(r.name, r.status);
      }
      return r.err;
    }

    /**
     A request that runs the loop itself; `shared` is what the deduplicating group reports. It
     fails without a provider exactly if none is configured, or none can be used. Only a success
     writes: it reports the provider that answered.
    */
    method Execute(script: seq<Attempt>, shared: bool) returns (err: Option<Failure>)
      requires Valid() && |script| == |preference|
      modifies this`healthStates, this`deduplicated, breakers.Values
      ensures Valid()
      ensures var answer := Serve(old(Model()), script);
        Machines() == answer.view.machines && healthStates == answer.view.health && err == answer.err
      ensures deduplicated == old(deduplicated) + (if err.None? && shared then 1 else 0)
      ensures err == Some(NoProvidersConfigured) <==> preference == []
      ensures err == Some(NoHealthyProvider) <==>
              preference != [] && forall name | name in preference :: !CanBeUsed(old(Model()), name)
      ensures err.Some? ==> healthStates == old(healthStates)
      ensures err.None? ==>
                exists k: nat :: k < |preference| && Reports(old(Model()), healthStates, script, k)
    {
      ServeMeaning(Model(), script);
      err := ExecuteAlone(script, shared);
    }

    method ExecuteAlone(script: seq<Attempt>, shared: bool) returns (err: Option<Failure>)
      requires Valid() && |script| == |preference|
      modifies this`healthStates, this`deduplicated, breakers.Values
      ensures Valid()
      ensures var answer := Serve(old(Model()), script);
        Machines() == answer.view.machines && healthStates == answer.view.health && err == answer.err
      ensures deduplicated == old(deduplicated) + (if err.None? && shared then 1 else 0)
    {
      var result, failure := ExecuteWithRetries(script);
      err := Conclude(result, failure, shared);
    }

    /** What follows the shared run: a failure is passed on; a success is counted and reported. */
    method Conclude(result: Result, failure: Option<Failure>, shared: bool) returns (err: Option<Failure>)
      requires failure == result.err
      modifies this`healthStates, this`deduplicated
      ensures err == failure
      ensures deduplicated == old(deduplicated) + (if failure.None? && shared then 1 else 0)
      ensures healthStates == if failure.Some? || result.name == "" then old(healthStates)
                              else old(healthStates)[result.name := Stored(StatusOf(old(healthStates), result.name), result.status)]
    {
      if failure.Some? {
        return failure;
      }
      if shared {
        deduplicated := deduplicated + 1;
      }
      err := ProcessResult(result);
    }

    /** Reads the state of a registered breaker. */
    method PollState(name: string, now: int) returns (state: State)
      requires Valid() && name in breakers
      modifies breakers[name]
      ensures Valid() && Machines() == old(Machines())[name := Refresh(old(Machines())[name], now)]
      ensures state == Machines()[name].state
    {
      state := breakers[name].State(now);
      OneMachineMoves(name);
    }

    /** One look by `GetProvider`: whether the provider at position i is handed out. */
    method Consider(name: string, now: int, ghost v: View, i: nat) returns (chosen: bool)
      requires Valid() && i < |v.preference| && name == v.preference[i]
      requires Model() == v.(machines := Polled(v, now, i))
      modifies breakers.Values
      ensures Valid() && Machines() == Polled(v, now, i + 1)
      ensures chosen <==> Selectable(v, name, now)
    {
      if name !in providers || !GetHealthStatus(name).healthy {
        return false;
      }
      if name !in breakers {
        return true;
      }
      RefreshTwice(v.machines[name], now);
      var state := PollState(name, now);
      return !state.Open?;
    }

    /** Walks the preference list for a provider to hand out; reading a breaker's state moves its clock. */
    method GetProvider(now: int) returns (provider: Option<Provider>)
      requires Valid()
      modifies breakers.Values
      ensures Valid()
      ensures var v := old(Model());
        var chosen := Select(v, now);
        && Machines() == Polled(v, now, if chosen < |v.preference| then chosen + 1 else chosen)
        && provider == if chosen < |v.preference| then Some(v.providers[v.preference[chosen]]) else None
    {
      ghost var v := Model();
      for i := 0 to |preference|
        invariant Valid() && Machines() == Polled(v, now, i)
        invariant Select(v, now) == Select(v, now, i)
      {
        var chosen := Consider(preference[i], now, v, i);
        if chosen {
          return Some(providers[preference[i]]);
        }
      }
      return None;
    }

    /** The breaker `SetProviders` gives: two failures in a row open it, one request probes it. */
    function BreakerSettings(): (settings: Settings)
      ensures settings.failureThreshold == 2 && settings.maxRequests == 1
      ensures settings.interval == 1_000_000_000 && settings.timeout == breakerTimeout
    {
      Settings(1, SECOND, breakerTimeout, 2)
    }

    /**
     The breaker a configured provider gets: three failures in a row open it. Timeout and quota
     can be configured; the configured interval and threshold are not looked at.
    */
    function ConfiguredSettings(): (settings: Settings)
      ensures settings.failureThreshold == 3 && settings.interval == 120_000_000_000
      ensures settings.maxRequests == breakerMaxRequests || (breakerMaxRequests == 0 && settings.maxRequests == 1)
      ensures breakerTimeout > 0 ==> settings.timeout == breakerTimeout
      ensures breakerTimeout <= 0 ==> settings.timeout == 60_000_000_000
    {
      Settings(if breakerMaxRequests > 0 then breakerMaxRequests else 1, 120 * SECOND,
               if breakerTimeout > 0 then breakerTimeout else 60 * SECOND, 3)
    }

    /** What an installing loop has installed once it has handled the given names. */
    ghost predicate Installed(names: set<string>, incoming: map<string, Provider>, settings: Settings, now: int)
      reads this`providers, this`breakers, breakers.Values
    {
      && providers.Keys == names && breakers.Keys == names - {""}
      && (forall name | name in providers :: name in incoming && providers[name] == incoming[name])
      && (forall name | name in breakers :: breakers[name].breaker == New(settings, now))
    }

    /** Registers one new provider with a fresh breaker and, if it can have one, a clean bill of health. */
    method Install(ghost names: set<string>, incoming: map<string, Provider>, name: string, settings: Settings, now: int)
      returns (installed: bool)
      requires Valid() && Installed(names, incoming, settings, now) && name in incoming
      modifies this`providers, this`breakers, this`healthStates
      ensures Valid() && Installed(names + {name}, incoming, settings, now)
      ensures forall other | other in breakers :: fresh(breakers[other]) || (other in old(breakers) && breakers[other] == old(breakers)[other])
      ensures installed <==> name != ""
      ensures healthStates == if name == "" then old(healthStates)
                              else old(healthStates)[name := HealthStatus(true, now, 0, 0, 0, 0)]
    {
      providers := providers[name := incoming[name]];
      var breaker := NewCircuitBreaker(Config(name, settings, testMode), true, now);
      if breaker.None? {
        return false;
      }
      assert forall other | other in breakers :: breakers[other] in breakers.Values;
      breakers := breakers[name := breaker.value];
      healthStates := healthStates[name := HealthStatus(true, now, 0, 0, 0, 0)];
      return true;
    }

    /** One configured provider: it needs a client and a name. */
    method InstallConfigured(ghost names: set<string>, built: map<string, Provider>, name: string, now: int)
      returns (installed: bool)
      requires Valid() && Installed(names, built, ConfiguredSettings(), now)
      modifies this`providers, this`breakers, this`healthStates
      ensures installed <==> name in built && name != ""
      ensures forall other | other in breakers :: fresh(breakers[other]) || (other in old(breakers) && breakers[other] == old(breakers)[other])
      ensures installed ==>
        && Valid() && Installed(names + {name}, built, ConfiguredSettings(), now)
        && healthStates == old(healthStates)[name := HealthStatus(true, now, 0, 0, 0, 0)]
    {
      if name !in built {
        return false;
      }
      installed := Install(names, built, name, ConfiguredSettings(), now);
    }

    /**
     Sets up the configured providers, in the order in which the iteration over the
     configuration runs; `built` holds those whose client can be made. It fails exactly if some
     client cannot be made or some name is empty, and reports such a name.
    */
    method InitializeProviders(configured: set<string>, built: map<string, Provider>, order: seq<string>, now: int)
      returns (failed: Option<string>)
      requires Enumerates(order, configured) && built.Keys <= configured
      modifies this`providers, this`breakers, this`healthStates
      ensures failed.None? <==> configured == built.Keys && "" !in configured
      ensures failed.Some? ==> failed.value in configured && (failed.value !in built || failed.value == "")
      ensures failed.None? ==>
        && Valid() && (forall name | name in breakers :: fresh(breakers[name]))
        && providers == built && Installed(configured, built, ConfiguredSettings(), now)
        && healthStates == ResetHealth(old(healthStates), configured, now)
    {
      providers, breakers := map[], map[];
      ghost var done: set<string> := {};
      for i := 0 to |order|
        invariant done == Members(order[..i]) && Valid() && Installed(done, built, ConfiguredSettings(), now)
        invariant done <= built.Keys && "" !in done
        invariant forall name | name in breakers :: fresh(breakers[name])
        invariant healthStates == ResetHealth(old(healthStates), done, now)
      {
        MembersStep(order, i);
        ResetHealthStep(old(healthStates), done, order[i], now);
        var installed := InstallConfigured(done, built, order[i], now);
        if !installed {
          return Some(order[i]);
        }
        done := done + {order[i]};
      }
      assert order[..|order|] == order;
      return None;
    }

    /**
     Replaces the providers. `first` and `second` are the orders in which the two iterations
     over the new map happen to run. A provider with an empty name gets neither a breaker nor
     a health status, since a breaker's name must not be empty.
    */
    method SetProviders(incoming: map<string, Provider>, first: seq<string>, second: seq<string>, now: int)
      requires Enumerates(first, incoming.Keys) && Enumerates(second, incoming.Keys)
      modifies this
      ensures Valid() && providers == incoming
      ensures forall name | name in breakers :: fresh(breakers[name])
      ensures Installed(incoming.Keys, incoming, BreakerSettings(), now)
      ensures healthStates == ResetHealth(old(healthStates), incoming.Keys, now)
      ensures preference == Merge(old(preference), incoming.Keys, second)
      ensures deduplicated == old(deduplicated)
    {
      InstallAll(incoming, first, now);
      preference := MergePreference(preference, incoming.Keys, second);
    }

    method InstallAll(incoming: map<string, Provider>, first: seq<string>, now: int)
      requires Enumerates(first, incoming.Keys)
      modifies this`providers, this`breakers, this`healthStates
      ensures Valid() && forall name | name in breakers :: fresh(breakers[name])
      ensures Installed(incoming.Keys, incoming, BreakerSettings(), now)
      ensures healthStates == ResetHealth(old(healthStates), incoming.Keys, now)
    {
      providers, breakers := map[], map[];
      ghost var done: set<string> := {};
      for i := 0 to |first|
        invariant done == Members(first[..i]) && Valid() && Installed(done, incoming, BreakerSettings(), now)
        invariant forall name | name in breakers :: fresh(breakers[name])
        invariant healthStates == ResetHealth(old(healthStates), done, now)
      {
        MembersStep(first, i);
        ResetHealthStep(old(healthStates), done, first[i], now);
        var installed := Install(done, incoming, first[i], BreakerSettings(), now);
        done := done + {first[i]};
      }
      assert first[..|first|] == first;
    }

    /** The tail of one check: the status as loaded, marked with the result, stored. */
    method StoreCheck(name: string, passed: bool, now: int)
      modifies this`healthStates
      ensures healthStates == old(healthStates)[name := Checked(StatusOf(old(healthStates), name), passed, now)]
      ensures name in healthStates && healthStates[name].healthy == passed && healthStates[name].lastCheck == now
      ensures passed ==> healthStates[name].errorCount == 0
      ensures !passed ==> healthStates[name].errorCount ==
                          (if name in old(healthStates) then old(healthStates)[name].errorCount else 0) + 1
    {
      var status := GetHealthStatus(name);
      if !passed {
        status := status.(healthy := false, errorCount := status.errorCount + 1);
      } else {
        status := status.(healthy := true, errorCount := 0);
      }
      status := status.(lastCheck := now);
      UpdateHealthStatus(name, status);
    }

    /** One sweep over the providers, each checked and stored without interference. */
    method PerformHealthCheck(order: seq<string>, passes: map<string, bool>, now: int)
      requires Enumerates(order, providers.Keys) && passes.Keys == providers.Keys
      modifies this`healthStates
      ensures healthStates == SweptHealth(old(healthStates), providers.Keys, passes, now)
      ensures healthStates.Keys == old(healthStates).Keys + providers.Keys
      ensures forall name | name in old(healthStates) && name !in providers :: healthStates[name] == old(healthStates)[name]
      ensures forall name | name in providers ::
        && healthStates[name].healthy == passes[name] && healthStates[name].lastCheck == now
        && healthStates[name].errorCount ==
           if passes[name] then 0
           else (if name in old(healthStates) then old(healthStates)[name].errorCount else 0) + 1
    {
      for i := 0 to |order|
        invariant Members(order[..i]) <= passes.Keys
        invariant healthStates == SweptHealth(old(healthStates), Members(order[..i]), passes, now)
      {
        var name := order[i];
        MembersStep(order, i);
        SweptHealthStep(old(healthStates), Members(order[..i]), name, passes, now);
        StoreCheck(name, passes[name], now);
      }
      assert order[..|order|] == order;
    }
  }
}
