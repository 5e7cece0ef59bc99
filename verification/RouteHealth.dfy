/** server/routing/router.go: the health loop of one route, tick by tick. */
module RouteHealth {
  datatype Kind = Http | Tcp | Unknown

  /** A configured check and, for an HTTP one, how its request comes out at this tick. */
  datatype Check = Check(kind: Kind, answersOk: bool)

  /** A TCP check always passes; a check of an unknown kind is only logged. */
  predicate Fails(c: Check) {
    c.kind.Http? && !c.answersOk
  }

  /** The run of failed ticks just ended. */
  function TrailingFailures(failed: seq<bool>): nat {
    if failed == [] || !failed[|failed| - 1] then 0 else 1 + TrailingFailures(failed[..|failed| - 1])
  }

  class RouteMonitor {
    const threshold: int
    var failures: int
    var healthy: bool
    ghost var ticks: seq<bool>  // which ticks failed

    function Needed(): nat {
      if threshold < 1 then 1 else threshold
    }

    ghost predicate Valid()
      reads this
    {
      failures == TrailingFailures(ticks) && (healthy <==> failures < Needed())
    }

    constructor (threshold: int)
      ensures Valid() && ticks == [] && this.threshold == threshold
    {
      this.threshold := threshold;
      failures, healthy, ticks := 0, true, [];
    }

    /**
     One tick; the checks come in whatever order the map is walked. It fails exactly when some
     check fails, and the route is then unhealthy exactly when enough ticks in a row have.
    */
    method Tick(checks: seq<Check>)
      requires Valid()
      modifies this
      ensures Valid()
      ensures ticks == old(ticks) + [exists c :: c in checks && c.kind == Http && !c.answersOk]
      ensures healthy <==> TrailingFailures(ticks) < (if threshold < 1 then 1 else threshold)
    {
      var ok := true;
      var i := 0;
      ghost var before := failures;
      while i < |checks|
        invariant 0 <= i <= |checks|
        invariant ok && forall j | 0 <= j < i :: !Fails(checks[j])
        invariant failures == before && healthy == old(healthy) && ticks == old(ticks)
      {
        match checks[i].kind {
          case Http => ok := checks[i].answersOk;
          case Tcp => ok := true;
          case Unknown =>
        }
        if !ok {
          failures := failures + 1;
          if failures >= threshold {
            healthy := false;
          }
          break;
        }
        i := i + 1;
      }
      if ok {
        failures := 0;
        healthy := true;
      }
      ticks := ticks + [!ok];
      assert ticks[..|ticks| - 1] == old(ticks);
      assert forall j | 0 <= j < |checks| :: checks[j] in checks;
    }
  }

  /** The number of trailing failures says exactly which of the last ticks all failed. */
  lemma {:induction false} TrailingMeansAllFailed(failed: seq<bool>, n: nat)
    ensures TrailingFailures(failed) >= n <==>
            n <= |failed| && forall i | |failed| - n <= i < |failed| :: failed[i]
  {
    if n > 0 && failed != [] {
      TrailingMeansAllFailed(failed[..|failed| - 1], n - 1);
      assert failed[|failed| - 1] || TrailingFailures(failed) == 0;
    }
  }
}
