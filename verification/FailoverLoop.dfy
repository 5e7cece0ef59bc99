/**
 server/provider/execution.go: the failover loop of one request, against ANY readings. What
 the loop sees of a provider at one iteration (whether it is registered, has a breaker and is
 healthy, how the guarded attempt ends, what state the breaker then shows) is an arbitrary
 value of its own for every iteration, so every breaker, every health map and every
 interference by other requests is covered.
*/
module FailoverLoop {
  import opened Options
  import opened Collections
  import opened Gobreaker
  import opened CircuitBreakers

  datatype Reading = Reading(
    present: bool, guarded: bool, healthy: bool, err: Option<Failure>, judged: State)

  predicate Eligible(r: Reading) {
    r.present && r.guarded && r.healthy
  }

  /** Whether the loop returns at iteration i; `shortcut` is its test for the last provider's name. */
  predicate Stops(preference: seq<string>, env: seq<Reading>, shortcut: bool, i: nat)
    requires |env| == |preference| && i < |preference|
  {
    && Eligible(env[i])
    && (|| env[i].err.None?
        || !env[i].judged.Open?
        || (shortcut && preference[i] == preference[|preference| - 1]))
  }

  /** How many iterations the loop makes, counting from iteration i. */
  function Visited(preference: seq<string>, env: seq<Reading>, shortcut: bool, i: nat := 0): (n: nat)
    requires |env| == |preference| && i <= |preference|
    ensures i <= n <= |preference|
    decreases |preference| - i
  {
    if i == |preference| then i
    else if Stops(preference, env, shortcut, i) then i + 1
    else Visited(preference, env, shortcut, i + 1)
  }

  /** The iterations among the first n that try their provider. */
  function Tried(env: seq<Reading>, n: nat): (tried: seq<nat>)
    requires n <= |env|
    ensures forall a | 0 <= a < |tried| :: tried[a] < n && Eligible(env[tried[a]])
  {
    if n == 0 then []
    else Tried(env, n - 1) + (if Eligible(env[n - 1]) then [n - 1] else [])
  }

  function LastTried(env: seq<Reading>, n: nat): (last: Option<nat>)
    requires n <= |env|
    ensures last.Some? ==> last.value < n && Eligible(env[last.value])
  {
    if n == 0 then None
    else if Eligible(env[n - 1]) then Some(n - 1)
    else LastTried(env, n - 1)
  }

  function Attempts(preference: seq<string>, env: seq<Reading>, shortcut: bool := true): (attempts: seq<nat>)
    requires |env| == |preference|
    ensures forall a | 0 <= a < |attempts| :: attempts[a] < |preference|
  {
    Tried(env, Visited(preference, env, shortcut))
  }

  /** The error the request ends with, and the iteration whose provider produced it, if any. */
  datatype Verdict = Verdict(err: Option<Failure>, decider: Option<nat>)

  function Decide(preference: seq<string>, env: seq<Reading>, shortcut: bool := true): (verdict: Verdict)
    requires |env| == |preference|
    ensures verdict.decider.Some? ==> verdict.decider.value < |preference|
    ensures verdict.decider.None? ==> verdict.err.Some?
  {
    var decider := LastTried(env, Visited(preference, env, shortcut));
    if preference == [] then Verdict(Some(NoProvidersConfigured), None)
    else if decider.None? then Verdict(Some(NoHealthyProvider), None)
    else Verdict(env[decider.value].err, decider)
  }

  lemma {:induction false} TriedMembers(env: seq<Reading>, n: nat)
    requires n <= |env|
    ensures Ascending(Tried(env, n))
    ensures forall i: nat :: i in Tried(env, n) <==> i < n && Eligible(env[i])
    ensures LastTried(env, n) == if Tried(env, n) == [] then None else Some(Tried(env, n)[|Tried(env, n)| - 1])
  {
    if n > 0 {
      TriedMembers(env, n - 1);
    }
  }

  lemma {:induction false} VisitedIsFirstStop(preference: seq<string>, env: seq<Reading>, shortcut: bool, i: nat)
    requires |env| == |preference| && i <= |preference|
    ensures var n := Visited(preference, env, shortcut, i);
      && (forall j: nat | i <= j && j + 1 < n :: !Stops(preference, env, shortcut, j))
      && (n < |preference| ==> n > i && Stops(preference, env, shortcut, n - 1))
    decreases |preference| - i
  {
    if i < |preference| && !Stops(preference, env, shortcut, i) {
      VisitedIsFirstStop(preference, env, shortcut, i + 1);
    }
  }

  /** Iteration i tries its provider: it is eligible and no earlier iteration returned. */
  ghost predicate Reached(preference: seq<string>, env: seq<Reading>, shortcut: bool, i: nat)
    requires |env| == |preference| && i < |preference|
  {
    Eligible(env[i]) && forall j: nat | j < i :: !Stops(preference, env, shortcut, j)
  }

  /**
   The loop's meaning. The attempts, in order, are exactly the eligible providers that no
   earlier stop cuts off, and the request ends with the last attempt's error.
  */
  lemma LoopMeaning(preference: seq<string>, env: seq<Reading>, shortcut: bool)
    requires |env| == |preference|
    ensures var attempts := Attempts(preference, env, shortcut);
      && Ascending(attempts)
      && (forall i: nat :: i in attempts <==> i < |preference| && Reached(preference, env, shortcut, i))
      && (attempts != [] ==>
            var k := attempts[|attempts| - 1];
            Decide(preference, env, shortcut) == Verdict(env[k].err, Some(k)))
      // None at all means that no provider could be used.
      && (attempts == [] <==> forall i: nat | i < |preference| :: !(env[i].present && env[i].guarded && env[i].healthy))
      && (attempts == [] ==>
            Decide(preference, env, shortcut) ==
            Verdict(Some(if preference == [] then NoProvidersConfigured else NoHealthyProvider), None))
  {
    var n := Visited(preference, env, shortcut);
    VisitedIsFirstStop(preference, env, shortcut, 0);
    TriedMembers(env, n);
    var attempts := Attempts(preference, env, shortcut);
    assert n < |preference| ==> Stops(preference, env, shortcut, n - 1);
    forall i: nat
      ensures i in attempts <==> i < |preference| && Reached(preference, env, shortcut, i)
    {
    }
    if attempts == [] {
      forall i: nat | i < |preference|
        ensures !Eligible(env[i])
      {
        assert n == |preference| && i !in attempts;
      }
    }
  }

  /** What it takes to be reached, without the loop's own vocabulary. */
  lemma ReachedMeaning(preference: seq<string>, env: seq<Reading>, shortcut: bool, i: nat)
    requires |env| == |preference| && i < |preference|
    ensures Reached(preference, env, shortcut, i) <==>
      && env[i].present && env[i].guarded && env[i].healthy
      && forall j: nat | j < i && env[j].present && env[j].guarded && env[j].healthy ::
           && env[j].err.Some? && env[j].judged == Open
           && !(shortcut && preference[j] == preference[|preference| - 1])
  {
    forall j: nat | j < i
      ensures Stops(preference, env, shortcut, j) <==>
              && env[j].present && env[j].guarded && env[j].healthy
              && !(env[j].err.Some? && env[j].judged == Open
                   && !(shortcut && preference[j] == preference[|preference| - 1]))
    {
    }
  }

  /** Every attempt but the last failed and left its breaker open, or the loop would have returned. */
  lemma OnlyOpenFailuresGoOn(preference: seq<string>, env: seq<Reading>, shortcut: bool)
    requires |env| == |preference|
    ensures var attempts := Attempts(preference, env, shortcut);
      forall a | 0 <= a < |attempts| - 1 :: env[attempts[a]].err.Some? && env[attempts[a]].judged.Open?
  {
    LoopMeaning(preference, env, shortcut);
    var attempts := Attempts(preference, env, shortcut);
    forall a | 0 <= a < |attempts| - 1
      ensures env[attempts[a]].err.Some? && env[attempts[a]].judged.Open?
    {
      var i, k := attempts[a], attempts[|attempts| - 1];
      assert i < k && attempts[a] in attempts && k in attempts;
      assert Reached(preference, env, shortcut, i) && Reached(preference, env, shortcut, k);
      assert !Stops(preference, env, shortcut, i);
    }
  }

  /** The request succeeds exactly when some provider it reaches answers without an error. */
  lemma SuccessMeaning(preference: seq<string>, env: seq<Reading>, shortcut: bool)
    requires |env| == |preference|
    ensures Decide(preference, env, shortcut).err.None? <==>
            exists i: nat :: i < |preference| && Reached(preference, env, shortcut, i) && env[i].err.None?
  {
    LoopMeaning(preference, env, shortcut);
    var attempts := Attempts(preference, env, shortcut);
    if attempts != [] {
      var k := attempts[|attempts| - 1];
      assert k in attempts && Reached(preference, env, shortcut, k);
      forall i: nat | i < |preference| && Reached(preference, env, shortcut, i) && env[i].err.None?
        ensures i == k
      {
        assert i in attempts && Stops(preference, env, shortcut, i);
        var a :| 0 <= a < |attempts| && attempts[a] == i;
        assert a < |attempts| - 1 ==> i < k;
      }
    }
  }

  /** The witness against an early repetition of the last name: only j and the last entry are tried. */
  function RepeatedNameReadings(n: nat, j: nat): (env: seq<Reading>)
    ensures |env| == n
  {
    seq(n, i => if i == j then Reading(true, true, true, Some(OperationFailed(0)), Open)
                else if i == n - 1 then Reading(true, true, true, None, Closed)
                else Reading(false, false, false, None, Closed))
  }

  /**
   The test for the last provider's name is meant to recognise the last position. It makes no
   difference, whatever the readings, exactly when the last name does not occur earlier in
   the list; otherwise some readings make the loop give up a provider that would have answered.
  */
  lemma ShortcutIsHarmless(preference: seq<string>)
    ensures (forall env: seq<Reading> | |env| == |preference| ::
               && Attempts(preference, env, true) == Attempts(preference, env, false)
               && Decide(preference, env, true) == Decide(preference, env, false))
        <==> (preference == [] || preference[|preference| - 1] !in preference[..|preference| - 1])
  {
    if preference == [] || preference[|preference| - 1] !in preference[..|preference| - 1] {
      forall env: seq<Reading> | |env| == |preference|
        ensures Attempts(preference, env, true) == Attempts(preference, env, false)
        ensures Decide(preference, env, true) == Decide(preference, env, false)
      {
        SameVisits(preference, env, 0);
      }
    } else {
      var n := |preference|;
      var j: nat :| j < n - 1 && preference[j] == preference[n - 1];
      var env := RepeatedNameReadings(n, j);
      LoopMeaning(preference, env, true);
      LoopMeaning(preference, env, false);
      assert Stops(preference, env, true, j);
      assert n - 1 !in Attempts(preference, env, true);
      assert Reached(preference, env, false, n - 1);
      assert n - 1 in Attempts(preference, env, false);
    }
  }

  lemma {:induction false} SameVisits(preference: seq<string>, env: seq<Reading>, i: nat)
    requires |env| == |preference| && i <= |preference|
    requires preference == [] || preference[|preference| - 1] !in preference[..|preference| - 1]
    ensures Visited(preference, env, true, i) == Visited(preference, env, false, i)
    decreases |preference| - i
  {
    if i < |preference| - 1 {
      assert preference[i] in preference[..|preference| - 1];
      SameVisits(preference, env, i + 1);
    }
  }
}
