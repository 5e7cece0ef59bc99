/**
 server/provider/provider.go: `GetProvider`, the second routine that picks a provider, and
 when it agrees with the one the failover loop really uses.
*/
module Selection {
  import opened Options
  import opened Collections
  import opened Gobreaker
  import opened CircuitBreakers
  import opened FailoverLoop
  import opened ProviderViews
  import opened FailoverCost

  predicate Selectable(v: View, name: string, now: int) {
    && name in v.providers && StatusOf(v.health, name).healthy
    && (name in v.machines ==> !Refresh(v.machines[name], now).state.Open?)
  }

  /** The position `GetProvider` settles on, at or after i; the length of the list for none. */
  function Select(v: View, now: int, i: nat := 0): (chosen: nat)
    requires i <= |v.preference|
    ensures i <= chosen <= |v.preference|
    ensures chosen < |v.preference| ==> Selectable(v, v.preference[chosen], now)
    ensures forall j | i <= j < chosen :: !Selectable(v, v.preference[j], now)
    decreases |v.preference| - i
  {
    if i == |v.preference| || Selectable(v, v.preference[i], now) then i else Select(v, now, i + 1)
  }

  /** The choice, spelled out: the first entry registered, known to be healthy, and not behind an open breaker. */
  lemma SelectMeaning(v: View, now: int, k: nat)
    requires k < |v.preference|
    ensures Select(v, now) == k <==>
      && (var name := v.preference[k];
          && name in v.providers && name in v.health && v.health[name].healthy
          && !(name in v.machines && Refresh(v.machines[name], now).state == Open))
      && forall name | name in v.preference[..k] ::
           !(&& name in v.providers && name in v.health && v.health[name].healthy
             && !(name in v.machines && Refresh(v.machines[name], now).state == Open))
  {
    forall name | name in v.preference[..k]
      ensures exists j: nat :: j < k && v.preference[j] == name
    {
      var j: nat :| j < k && v.preference[..k][j] == name;
      assert v.preference[j] == name;
    }
    forall j: nat | j < k
      ensures v.preference[j] in v.preference[..k]
    {
      assert v.preference[..k][j] == v.preference[j];
    }
  }

  /** The breakers once `GetProvider` has looked at the first n entries: reading a state moves its clock. */
  function Polled(v: View, now: int, n: nat): (machines: map<string, Machine>)
    requires n <= |v.preference|
    ensures machines.Keys == v.machines.Keys
    ensures forall name | name in machines ::
      machines[name] == v.machines[name] || machines[name] == Refresh(v.machines[name], now)
  {
    if n == 0 then v.machines
    else
      var before := Polled(v, now, n - 1);
      var name := v.preference[n - 1];
      if Usable(v, name) then before[name := Refresh(before[name], now)] else before
  }

  /** Which breakers have had their clock moved: those of the registered, healthy entries looked at. */
  lemma {:induction false} PolledMeaning(v: View, now: int, n: nat, name: string)
    requires n <= |v.preference| && name in v.machines
    ensures Polled(v, now, n)[name] ==
            if name in v.preference[..n] && name in v.providers && name in v.health && v.health[name].healthy
            then Refresh(v.machines[name], now) else v.machines[name]
  {
    if n > 0 {
      PolledMeaning(v, now, n - 1, name);
      assert v.preference[..n] == v.preference[..n - 1] + [v.preference[n - 1]];
      RefreshTwice(v.machines[name], now);
    }
  }

  /** The clock stands still and the caller's context is live. */
  ghost predicate Frozen(script: seq<Attempt>, now: int) {
    forall i | 0 <= i < |script| ::
      && script[i].begin == script[i].end == script[i].logged == script[i].judged == now
      && !script[i].outcome.Cancelled?
  }

  /** Every provider that is up has a breaker, and no half-open breaker has used its quota up. */
  ghost predicate Ready(v: View, now: int) {
    && (forall name | name in v.providers && StatusOf(v.health, name).healthy :: name in v.machines)
    && (forall name | name in v.machines ::
          var m := Refresh(v.machines[name], now); m.state.HalfOpen? ==> m.counts.requests < m.settings.Quota())
  }

  /** The loop's first real invocation is at the chosen position; there is none if nothing was chosen. */
  ghost predicate Agrees(v: View, script: seq<Attempt>, chosen: nat)
    requires |script| == |v.preference|
  {
    && (chosen < |v.preference| ==> Invokes(v, script, chosen))
    && (forall i: nat | i < chosen :: !Invokes(v, script, i))
  }

  /** Before the chosen position every attempt is refused: breakers at most have their clock moved. */
  lemma {:induction false} OnlyRefusedBefore(v: View, script: seq<Attempt>, now: int, n: nat)
    requires |script| == |v.preference| && Frozen(script, now) && n <= Select(v, now)
    ensures var machines := Evolve(v, script, n);
      forall name | name in v.machines ::
        machines[name] == v.machines[name] || machines[name] == Refresh(v.machines[name], now)
  {
    if n > 0 {
      OnlyRefusedBefore(v, script, now, n - 1);
    }
  }

  lemma RefusedTry(m: Machine, a: Attempt, now: int)
    requires a.begin == a.end == a.logged == a.judged == now && Refresh(m, now).state.Open?
    ensures forall k | k == m || k == Refresh(m, now) ::
      !Try(k, a).entered && Try(k, a).err.Some? && Try(k, a).judged.Open?
  {
  }

  lemma RefusedAt(v: View, script: seq<Attempt>, now: int, i: nat)
    requires |script| == |v.preference| && Frozen(script, now) && i < Select(v, now)
    ensures !Invokes(v, script, i)
    ensures Stops(v.preference, Observe(v, script), true, i) <==>
            Usable(v, v.preference[i]) && v.preference[i] == v.preference[|v.preference| - 1]
  {
    OnlyRefusedBefore(v, script, now, i);
    if Usable(v, v.preference[i]) {
      RefusedTry(v.machines[v.preference[i]], script[i], now);
    }
  }

  /**
   With state and clock frozen, the provider the failover loop first invokes is the one
   `GetProvider` returns, and none is invoked if it fails, EXCEPT when a usable entry with the
   last name of the list stands before the chosen one: the loop gives up there.
  */
  lemma SelectionAgreement(v: View, script: seq<Attempt>, now: int)
    requires |script| == |v.preference| && Frozen(script, now) && Ready(v, now)
    ensures var chosen := Select(v, now);
      Agrees(v, script, chosen) <==>
        !(chosen < |v.preference| &&
          exists i :: 0 <= i < chosen && Usable(v, v.preference[i]) &&
                      v.preference[i] == v.preference[|v.preference| - 1])
  {
    var chosen := Select(v, now);
    forall i: nat | i < chosen
      ensures !Invokes(v, script, i)
    {
      RefusedAt(v, script, now, i);
    }
    if chosen < |v.preference| {
      ChosenIsReached(v, script, now);
    }
  }

  lemma ChosenIsReached(v: View, script: seq<Attempt>, now: int)
    requires |script| == |v.preference| && Frozen(script, now) && Ready(v, now)
    requires Select(v, now) < |v.preference|
    ensures var chosen := Select(v, now);
      Invokes(v, script, chosen) <==>
        !exists i :: 0 <= i < chosen && Usable(v, v.preference[i]) &&
                     v.preference[i] == v.preference[|v.preference| - 1]
  {
    var chosen, env := Select(v, now), Observe(v, script);
    forall i: nat | i < chosen
      ensures Stops(v.preference, env, true, i) <==>
              Usable(v, v.preference[i]) && v.preference[i] == v.preference[|v.preference| - 1]
    {
      RefusedAt(v, script, now, i);
    }
    OnlyRefusedBefore(v, script, now, chosen);
    assert Eligible(env[chosen]);
    LoopMeaning(v.preference, env, true);
    assert chosen in Attempts(v.preference, env) <==> Reached(v.preference, env, true, chosen);
  }

  /** On a duplicate-free list they always agree. */
  lemma SelectionAgreesWithoutDuplicates(v: View, script: seq<Attempt>, now: int)
    requires |script| == |v.preference| && Frozen(script, now) && Ready(v, now)
    requires NoDuplicates(v.preference)
    ensures Agrees(v, script, Select(v, now))
  {
    SelectionAgreement(v, script, now);
  }
}
