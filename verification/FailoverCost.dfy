/**
 What failover costs over a run of requests: how many of them fail before the traffic has
 moved past the providers that are down, and that it then never goes back to them.
*/
module FailoverCost {
  import opened Options
  import opened Collections
  import opened Gobreaker
  import opened CircuitBreakers
  import opened FailoverLoop
  import opened ProviderViews

  ghost predicate Within(a: Attempt, from: int, until: int) {
    from <= a.begin <= until && from <= a.end <= until && from <= a.logged <= until && from <= a.judged <= until
  }

  /**
   A breaker in front of a failing provider, none of whose clocks runs out in the window: open,
   closed and short of its threshold, or half-open with room for another request.
  */
  ghost predicate Steady(m: Machine, from: int, until: int) {
    && until <= from + m.settings.OpenPeriod()
    && (m.expiry.Some? ==> until <= m.expiry.value)
    && (m.state.Closed? ==> m.counts.consecutiveFailures < m.settings.TripCount())
    && (m.state.HalfOpen? ==> m.counts.requests < m.settings.Quota())
  }

  /** Failures this breaker will still report to callers before it opens. */
  function Remaining(m: Machine): nat {
    if m.state.Closed? && m.counts.consecutiveFailures < m.settings.TripCount()
    then m.settings.TripCount() - 1 - m.counts.consecutiveFailures
    else 0
  }

  lemma FailingTry(m: Machine, a: Attempt, from: int, until: int)
    requires Steady(m, from, until) && Within(a, from, until) && !a.outcome.Succeeds?
    ensures var t := Try(m, a);
      && t.err.Some? && t.machine == Left(m, a) && Steady(t.machine, from, until)
      && (t.judged.Open? <==> Remaining(m) == 0)
      && (t.entered <==> !m.state.Open?)
      && (Remaining(m) == 0 ==> t.machine.state.Open?)
      && Remaining(t.machine) == (if Remaining(m) == 0 then 0 else Remaining(m) - 1)
  {
  }

  /** A breaker that lets requests through as long as they succeed: closed, or half-open on trial. */
  ghost predicate Answering(m: Machine) {
    || m.state.Closed?
    || (m.state.HalfOpen? && m.counts.requests <= m.counts.consecutiveSuccesses && m.counts.requests < m.settings.Quota())
  }

  lemma SucceedingTry(m: Machine, a: Attempt)
    requires Answering(m) && a.outcome.Succeeds?
    ensures Try(m, a).err.None? && Try(m, a).entered && Answering(Left(m, a))
  {
  }

  /** A duplicate-free list touches each breaker at most once per request. */
  lemma {:induction false} EvolvesApart(v: View, script: seq<Attempt>, n: nat, i: nat)
    requires |script| == |v.preference| && NoDuplicates(v.preference)
    requires n <= |v.preference| && i < |v.preference| && v.preference[i] in v.machines
    ensures var m := v.machines[v.preference[i]];
      Evolve(v, script, n)[v.preference[i]] ==
      if i < n && Usable(v, v.preference[i]) then Left(m, script[i]) else m
  {
    if n > 0 {
      EvolvesApart(v, script, n - 1, i);
      assert v.preference[n - 1] == v.preference[i] ==> n - 1 == i;
    }
  }

  /** Providers before position j are down or unusable; the one at j is up and answering. */
  ghost predicate Outage(v: View, j: nat, from: int, until: int) {
    && NoDuplicates(v.preference) && j < |v.preference|
    && Usable(v, v.preference[j]) && Answering(v.machines[v.preference[j]])
    && forall i | 0 <= i < j && Usable(v, v.preference[i]) :: Steady(v.machines[v.preference[i]], from, until)
  }

  ghost predicate OutageScript(script: seq<Attempt>, j: nat, from: int, until: int) {
    && j < |script| && script[j].outcome.Succeeds?
    && forall i | 0 <= i < j :: Within(script[i], from, until) && !script[i].outcome.Succeeds?
  }

  function Weight(v: View, i: nat): nat
    requires i < |v.preference|
  {
    if Usable(v, v.preference[i]) then Remaining(v.machines[v.preference[i]]) else 0
  }

  /** The failures still to be reported by the first n providers together. */
  function Deficit(v: View, n: nat): nat
    requires n <= |v.preference|
  {
    if n == 0 then 0 else Deficit(v, n - 1) + Weight(v, n - 1)
  }

  /** The first provider before j that still has failures to report, or j. */
  function Blocker(v: View, j: nat, i: nat := 0): (b: nat)
    requires i <= j <= |v.preference|
    ensures i <= b <= j && (b < j ==> Weight(v, b) > 0)
    ensures forall k | i <= k < b :: Weight(v, k) == 0
    decreases j - i
  {
    if i == j || Weight(v, i) > 0 then i else Blocker(v, j, i + 1)
  }

  lemma {:induction false} DeficitZero(v: View, n: nat)
    requires n <= |v.preference|
    ensures Deficit(v, n) == 0 <==> forall i | 0 <= i < n :: Weight(v, i) == 0
  {
    if n > 0 {
      DeficitZero(v, n - 1);
    }
  }

  lemma {:induction false} DeficitDrops(v: View, w: View, b: nat, n: nat)
    requires n <= |v.preference| == |w.preference|
    requires forall i | 0 <= i < n :: Weight(v, i) == Weight(w, i) + (if i == b then 1 else 0)
    ensures Deficit(v, n) == Deficit(w, n) + (if b < n then 1 else 0)
  {
    if n > 0 {
      DeficitDrops(v, w, b, n - 1);
    }
  }

  /** The request's iterations end at the blocker, with its error or with the success at j. */
  lemma RequestEndsAtBlocker(v: View, script: seq<Attempt>, j: nat, from: int, until: int)
    requires |script| == |v.preference| && Outage(v, j, from, until) && OutageScript(script, j, from, until)
    ensures var env := Observe(v, script);
      var b := Blocker(v, j);
      && Visited(v.preference, env, true) == b + 1
      && LastTried(env, b + 1) == Some(b)
      && (env[b].err.None? <==> b == j)
  {
    var env, b := Observe(v, script), Blocker(v, j);
    forall i | 0 <= i <= b && Usable(v, v.preference[i])
      ensures Stops(v.preference, env, true, i) <==> i == b
      ensures env[i].err.None? <==> i == j
    {
      EvolvesApart(v, script, i, i);
      assert Weight(v, i) == Remaining(v.machines[v.preference[i]]);
      if i == j {
        SucceedingTry(v.machines[v.preference[i]], script[i]);
      } else {
        FailingTry(v.machines[v.preference[i]], script[i], from, until);
      }
    }
    VisitedIsFirstStop(v.preference, env, true, 0);
    var n := Visited(v.preference, env, true);
    assert Stops(v.preference, env, true, b);
    assert n < |v.preference| ==> Stops(v.preference, env, true, n - 1);
  }

  /** Every usable provider before j has its breaker open. */
  ghost predicate AllOpen(v: View, j: nat)
    requires j <= |v.preference|
  {
    forall i | 0 <= i < j && Usable(v, v.preference[i]) :: v.machines[v.preference[i]].state.Open?
  }

  lemma RequestEffect(v: View, script: seq<Attempt>, j: nat, from: int, until: int)
    requires |script| == |v.preference| && Outage(v, j, from, until) && OutageScript(script, j, from, until)
    ensures var answer := Serve(v, script);
      && answer.view.machines == Evolve(v, script, Blocker(v, j) + 1)
      && (answer.err.Some? <==> Blocker(v, j) < j)
      && forall name :: Usable(answer.view, name) <==> Usable(v, name)
  {
    RequestEndsAtBlocker(v, script, j, from, until);
  }

  /** What one request does at position i, up to and including the answering provider's. */
  lemma PositionAfter(v: View, script: seq<Attempt>, j: nat, from: int, until: int, i: nat)
    requires |script| == |v.preference| && Outage(v, j, from, until) && OutageScript(script, j, from, until)
    requires i <= j && Usable(v, v.preference[i])
    ensures var m, b := Evolve(v, script, Blocker(v, j) + 1)[v.preference[i]], Blocker(v, j);
      && (i == j ==> Answering(m))
      && (i < b ==> m.state.Open?)
      && (i < j ==> Steady(m, from, until))
      && (i < j ==> Weight(v, i) == Remaining(m) + (if i == b then 1 else 0))
  {
    var b, m := Blocker(v, j), v.machines[v.preference[i]];
    EvolvesApart(v, script, b + 1, i);
    if i == j {
      SucceedingTry(m, script[i]);
    } else {
      FailingTry(m, script[i], from, until);
    }
  }

  /** One request during the outage: it fails and pays one failure off, or nothing is owed and it succeeds. */
  lemma OneRequest(v: View, script: seq<Attempt>, j: nat, from: int, until: int)
    requires |script| == |v.preference| && Outage(v, j, from, until) && OutageScript(script, j, from, until)
    ensures var answer := Serve(v, script);
      && Outage(answer.view, j, from, until)
      && (answer.err.Some? <==> Deficit(v, j) > 0)
      && Deficit(v, j) == Deficit(answer.view, j) + (if answer.err.Some? then 1 else 0)
      && (answer.err.None? ==> AllOpen(answer.view, j))
  {
    var b, w := Blocker(v, j), Serve(v, script).view;
    RequestEffect(v, script, j, from, until);
    DeficitZero(v, j);
    PositionAfter(v, script, j, from, until, j);
    forall i: nat | i < j
      ensures Usable(w, w.preference[i]) ==> Steady(w.machines[w.preference[i]], from, until)
      ensures Usable(w, w.preference[i]) && i < b ==> w.machines[w.preference[i]].state.Open?
      ensures Weight(v, i) == Weight(w, i) + (if i == b then 1 else 0)
    {
      if Usable(v, v.preference[i]) {
        PositionAfter(v, script, j, from, until, i);
      }
    }
    DeficitDrops(v, w, b, j);
  }

  /** Request reaches provider i and really runs the operation on it. */
  ghost predicate Invokes(v: View, script: seq<Attempt>, i: nat)
    requires |script| == |v.preference|
  {
    && i in Attempts(v.preference, Observe(v, script))
    && Try(Evolve(v, script, i)[v.preference[i]], script[i]).entered
    && !script[i].outcome.Cancelled?
  }

  lemma SettledRequest(v: View, script: seq<Attempt>, j: nat, from: int, until: int)
    requires |script| == |v.preference| && Outage(v, j, from, until) && OutageScript(script, j, from, until)
    requires AllOpen(v, j)
    ensures forall i: nat :: Invokes(v, script, i) <==> i == j
    ensures AllOpen(Serve(v, script).view, j)
  {
    var env := Observe(v, script);
    RequestEndsAtBlocker(v, script, j, from, until);
    OneRequest(v, script, j, from, until);
    forall i | 0 <= i < j
      ensures Weight(v, i) == 0
    {
    }
    DeficitZero(v, j);
    TriedMembers(env, j + 1);
    forall i: nat | i <= j && Usable(v, v.preference[i])
      ensures Try(Evolve(v, script, i)[v.preference[i]], script[i]).entered <==> i == j
    {
      EvolvesApart(v, script, i, i);
      if i == j {
        SucceedingTry(v.machines[v.preference[i]], script[i]);
      } else {
        FailingTry(v.machines[v.preference[i]], script[i], from, until);
      }
    }
  }

  /** The manager just before request r of a sequential run. */
  function Before(v: View, scripts: seq<seq<Attempt>>, r: nat): (w: View)
    requires r <= |scripts| && forall k | 0 <= k < r :: |scripts[k]| == |v.preference|
    ensures w.preference == v.preference
  {
    if r == 0 then v else Serve(Before(v, scripts, r - 1), scripts[r - 1]).view
  }

  ghost predicate OutageRun(v: View, scripts: seq<seq<Attempt>>, j: nat, from: int, until: int) {
    && Outage(v, j, from, until)
    && forall r | 0 <= r < |scripts| ::
         |scripts[r]| == |v.preference| && OutageScript(scripts[r], j, from, until)
  }

  /** Each failed request pays one owed failure off; after the first success all breakers stay open. */
  lemma {:induction false} OwedBefore(v: View, scripts: seq<seq<Attempt>>, j: nat, from: int, until: int, r: nat)
    requires OutageRun(v, scripts, j, from, until) && r <= |scripts|
    ensures var w, d := Before(v, scripts, r), Deficit(v, j);
      && Outage(w, j, from, until)
      && Deficit(w, j) == (if r < d then d - r else 0)
      && (r > d ==> AllOpen(w, j))
  {
    if r > 0 {
      OwedBefore(v, scripts, j, from, until, r - 1);
      OwedAfter(Before(v, scripts, r - 1), scripts[r - 1], j, from, until, Deficit(v, j), r - 1);
    }
  }

  lemma OwedAfter(w: View, script: seq<Attempt>, j: nat, from: int, until: int, d: nat, r: nat)
    requires |script| == |w.preference| && Outage(w, j, from, until) && OutageScript(script, j, from, until)
    requires Deficit(w, j) == if r < d then d - r else 0
    ensures var t := Serve(w, script).view;
      && Outage(t, j, from, until)
      && Deficit(t, j) == (if r + 1 < d then d - (r + 1) else 0)
      && (r + 1 > d ==> AllOpen(t, j))
  {
    OneRequest(w, script, j, from, until);
  }

  /**
   Failover cost, in closed form. While the providers before position j fail (or cannot be
   used) and the one at j answers, exactly the first `Deficit` requests of a sequential run
   return errors, all later ones succeed, and from the second success on no provider but the
   one at j is invoked.
  */
  lemma FailoverCost(v: View, scripts: seq<seq<Attempt>>, j: nat, from: int, until: int, r: nat)
    requires OutageRun(v, scripts, j, from, until) && r < |scripts|
    ensures Serve(Before(v, scripts, r), scripts[r]).err.Some? <==> r < Deficit(v, j)
    ensures r > Deficit(v, j) ==> forall i: nat :: Invokes(Before(v, scripts, r), scripts[r], i) <==> i == j
  {
    OwedBefore(v, scripts, j, from, until, r);
    OneRequest(Before(v, scripts, r), scripts[r], j, from, until);
    if r > Deficit(v, j) {
      SettledRequest(Before(v, scripts, r), scripts[r], j, from, until);
    }
  }

  /** A half-open breaker whose quota is used up, by requests that do not come back. */
  ghost predicate Saturated(v: View, k: nat) {
    && k < |v.preference| && Usable(v, v.preference[k])
    && var m := v.machines[v.preference[k]]; m.state.HalfOpen? && m.counts.requests >= m.settings.Quota()
  }

  /** It answers every request that comes so far, stays as it is, and stops the failover. */
  lemma SaturatedRequest(v: View, script: seq<Attempt>, k: nat)
    requires |script| == |v.preference| && NoDuplicates(v.preference) && Saturated(v, k)
    requires forall i | 0 <= i < k :: !script[i].outcome.Succeeds?
    ensures Serve(v, script).err.Some? && Saturated(Serve(v, script).view, k)
  {
    var env := Observe(v, script);
    EvolvesApart(v, script, k, k);
    assert Stops(v.preference, env, true, k);
    SuccessMeaning(v.preference, env, true);
    EvolvesApart(v, script, Visited(v.preference, env, true), k);
  }

  lemma {:induction false} SaturatedBefore(v: View, scripts: seq<seq<Attempt>>, k: nat, r: nat)
    requires NoDuplicates(v.preference) && Saturated(v, k) && r <= |scripts|
    requires forall q | 0 <= q < |scripts| :: |scripts[q]| == |v.preference|
    requires forall q, i | 0 <= q < |scripts| && 0 <= i < k :: !scripts[q][i].outcome.Succeeds?
    ensures Saturated(Before(v, scripts, r), k)
  {
    if r > 0 {
      SaturatedBefore(v, scripts, k, r - 1);
      SaturatedRequest(Before(v, scripts, r - 1), scripts[r - 1], k);
    }
  }

  /**
   The remaining case: behind a saturated breaker, and others that fail, nothing is reached: no
   request of a run succeeds, whatever comes after them in the list.
  */
  lemma SaturatedBreakerStopsFailover(v: View, scripts: seq<seq<Attempt>>, k: nat, r: nat)
    requires NoDuplicates(v.preference) && Saturated(v, k) && r < |scripts|
    requires forall q | 0 <= q < |scripts| :: |scripts[q]| == |v.preference|
    requires forall q, i | 0 <= q < |scripts| && 0 <= i < k :: !scripts[q][i].outcome.Succeeds?
    ensures Serve(Before(v, scripts, r), scripts[r]).err.Some?
  {
    SaturatedBefore(v, scripts, k, r);
    SaturatedRequest(Before(v, scripts, r), scripts[r], k);
  }

  /** A breaker as `New` makes it, with trip count k. */
  ghost predicate Fresh(m: Machine, k: nat) {
    m.settings.TripCount() == k && exists now :: m == New(m.settings, now)
  }

  /** Fresh breakers with trip count k owe k - 1 failures each. */
  lemma {:induction false} FreshDeficit(v: View, n: nat, k: nat)
    requires n <= |v.preference| && k >= 1
    requires forall i | 0 <= i < n ::
      Usable(v, v.preference[i]) && Fresh(v.machines[v.preference[i]], k)
    ensures Deficit(v, n) == n * (k - 1)
  {
    if n > 0 {
      FreshDeficit(v, n - 1, k);
      assert n * (k - 1) == (n - 1) * (k - 1) + (k - 1);
    }
  }

  /**
   From fresh breakers with threshold k, j failing providers in front of an answering one
   cost exactly the first j * (k - 1) requests, and after one more none of them is invoked.
  */
  lemma FreshFailoverCost(
    v: View, scripts: seq<seq<Attempt>>, j: nat, k: nat, from: int, until: int, r: nat)
    requires OutageRun(v, scripts, j, from, until) && k >= 1 && r < |scripts|
    requires forall i | 0 <= i < j ::
      Usable(v, v.preference[i]) && Fresh(v.machines[v.preference[i]], k)
    ensures Serve(Before(v, scripts, r), scripts[r]).err.Some? <==> r < j * (k - 1)
    ensures r > j * (k - 1) ==> forall i: nat :: Invokes(Before(v, scripts, r), scripts[r], i) <==> i == j
  {
    FreshDeficit(v, j, k);
    FailoverCost(v, scripts, j, from, until, r);
  }
}
