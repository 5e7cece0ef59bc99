/** server/middleware/queue.go: what the size limit bounds, while it is being changed. */
module QueueCapacity {
  import opened Options
  import opened Collections
  import opened QueueProtocol

  lemma StatesAreCurrent(states: seq<State>, events: seq<Event>)
    requires Steps(states, events) && Valid(states[0])
    ensures forall i | 0 <= i < |states| :: Current(states[i])
  {
    StepsKeep(states, events);
  }

  lemma RunIsCurrent(states: seq<State>, events: seq<Event>, limit: int, i: nat)
    requires Run(states, events, limit) && i < |states|
    ensures Current(states[i])
  {
    InitialIsValid(limit);
    StatesAreCurrent(states, events);
  }

  /** The largest of zero and the limits in effect in the first n + 1 states. */
  function Peak(states: seq<State>, n: nat): int
    requires n < |states|
  {
    Max(states[n].limit, if n == 0 then 0 else Peak(states, n - 1))
  }

  lemma {:induction false} PeakMeaning(states: seq<State>, n: nat)
    requires n < |states|
    ensures Peak(states, n) >= 0 && forall i | 0 <= i <= n :: states[i].limit <= Peak(states, n)
    ensures Peak(states, n) == 0 || exists i :: 0 <= i <= n && states[i].limit == Peak(states, n)
  {
    if n > 0 {
      PeakMeaning(states, n - 1);
    }
  }

  lemma {:induction false} PeakBounds(states: seq<State>, events: seq<Event>, limit: int, n: nat)
    requires Run(states, events, limit) && n < |states|
    ensures |states[n].queue| <= Peak(states, n)
    ensures forall h | h in states[n].handlers && states[n].handlers[h].Deciding? ::
      states[n].handlers[h].limit <= Peak(states, n)
  {
    if n > 0 {
      RunIsCurrent(states, events, limit, n - 1);
      PeakBounds(states, events, limit, n - 1);
    }
  }

  /** A limit that is never lowered bounds the queue at every moment. */
  lemma {:induction false} UnloweredLimitBounds(states: seq<State>, events: seq<Event>, limit: int, n: nat)
    requires Run(states, events, limit) && n < |states|
    requires forall i | 0 <= i < n :: states[i].limit <= states[i + 1].limit
    ensures |states[n].queue| <= Max(0, states[n].limit)
    ensures forall h | h in states[n].handlers && states[n].handlers[h].Deciding? ::
      states[n].handlers[h].limit <= states[n].limit
  {
    if n > 0 {
      RunIsCurrent(states, events, limit, n - 1);
      UnloweredLimitBounds(states, events, limit, n - 1);
    }
  }

  /** The handler holding the lock read a limit that no longer holds, and will be let in by it. */
  ghost predicate LateAdmission(s: State) {
    && s.lock.Some? && s.lock.value in s.handlers && s.handlers[s.lock.value].Deciding?
    && s.limit <= |s.queue| < s.handlers[s.lock.value].limit
  }

  /** Some continuation without a further limit change lets the queue grow although it is full. */
  ghost predicate CanOvergrow(s: State) {
    exists states: seq<State>, events: seq<Event>, i: nat :: Overgrows(s, states, events, i)
  }

  ghost predicate Overgrows(s: State, states: seq<State>, events: seq<Event>, i: nat) {
    && Steps(states, events) && states[0] == s && i < |events|
    && (forall k | 0 <= k < |events| :: !events[k].SetMaxSize?)
    && |states[i].queue| >= states[i].limit
    && |states[i + 1].queue| > |states[i].queue|
  }

  lemma {:induction false} NoLateAdmissionLater(states: seq<State>, events: seq<Event>, n: nat)
    requires Steps(states, events) && n < |states|
    requires forall i | 0 <= i < |states| :: Current(states[i])
    requires forall k | 0 <= k < |events| :: !events[k].SetMaxSize?
    requires !LateAdmission(states[0])
    ensures states[n].limit == states[0].limit && !LateAdmission(states[n])
  {
    if n > 0 {
      NoLateAdmissionLater(states, events, n - 1);
    }
  }

  /**
   Lowering the limit does NOT always stop growth at once: a full queue can still grow exactly
   when a handler is inside the lock having read the old limit. (Afterwards, once the lock is
   released, no admission happens until the queue has drained below the new limit.)
  */
  lemma OvergrowthIsLateAdmission(s: State)
    requires Reachable(s)
    ensures CanOvergrow(s) <==> LateAdmission(s)
  {
    ReachableIsValid(s);
    if LateAdmission(s) {
      LateAdmissionOvergrows(s);
    } else if CanOvergrow(s) {
      var states, events, i :| Overgrows(s, states, events, i);
      StatesAreCurrent(states, events);
      OnlyLateAdmissionOvergrows(s, states, events, i);
    }
  }

  lemma LateAdmissionOvergrows(s: State)
    requires LateAdmission(s) && s.handlers[s.lock.value].size == |s.queue|
    ensures CanOvergrow(s)
  {
    var states, events := [s, Step(s, Decide(s.lock.value))], [Decide(s.lock.value)];
    assert Overgrows(s, states, events, 0);
  }

  lemma OnlyLateAdmissionOvergrows(s: State, states: seq<State>, events: seq<Event>, i: nat)
    requires Overgrows(s, states, events, i) && forall k | 0 <= k < |states| :: Current(states[k])
    ensures LateAdmission(s)
  {
    if !LateAdmission(s) {
      NoLateAdmissionLater(states, events, i);
    }
  }

  /** Such a state is reachable: a first request is admitted after the limit was lowered to zero. */
  lemma LateAdmissionHappens()
    ensures exists states: seq<State>, events: seq<Event> ::
      Run(states, events, 1) && |events| == 3 && events[1] == SetMaxSize(0) &&
      LateAdmission(states[2]) && |states[3].queue| == 1
  {
    var events := [Enter(0), SetMaxSize(0), Decide(0)];
    var s0 := Initial(1);
    var s1 := Step(s0, events[0]);
    var s2 := Step(s1, events[1]);
    var states := [s0, s1, s2, Step(s2, events[2])];
    assert Run(states, events, 1);
  }

  /**
   What a lowered limit does bound, from any moment of a run until it is next changed: the
   queue never exceeds the limit or its length at that moment, plus one for a late admission
   if there is one.
  */
  lemma LoweredLimitBounds(states: seq<State>, events: seq<Event>, n: nat)
    requires Steps(states, events) && Reachable(states[0]) && n < |states|
    requires forall k | 0 <= k < |events| :: !events[k].SetMaxSize?
    ensures |states[n].queue| <=
            Max(states[0].limit, |states[0].queue| + if LateAdmission(states[0]) then 1 else 0)
  {
    ReachableIsValid(states[0]);
    StatesAreCurrent(states, events);
    LoweredLimitKeeps(states, events, n);
  }

  lemma {:induction false} LoweredLimitKeeps(states: seq<State>, events: seq<Event>, n: nat)
    requires Steps(states, events) && n < |states|
    requires forall i | 0 <= i < |states| :: Current(states[i])
    requires forall k | 0 <= k < |events| :: !events[k].SetMaxSize?
    ensures states[n].limit == states[0].limit
    ensures LateAdmission(states[n]) ==> LateAdmission(states[0]) && |states[n].queue| == |states[0].queue|
    ensures |states[n].queue| <=
            Max(states[0].limit, |states[0].queue| + if LateAdmission(states[0]) then 1 else 0)
  {
    if n > 0 {
      LoweredLimitKeeps(states, events, n - 1);
    }
  }
}
