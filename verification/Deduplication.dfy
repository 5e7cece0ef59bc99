/**
 server/provider/execution.go: `Execute` behind golang.org/x/sync/singleflight. That library
 is not part of the modelled repository; its protocol is written down here as an ASSUMPTION:
 under the group's lock a caller either joins the running call for its key or starts one; when
 the call ends it is unpublished and its outcome handed to the starter and to all joiners.
*/
module Deduplication {
  import opened Options
  import opened Collections
  import opened CircuitBreakers

  /** The deduplication key: first message's content and role, with a dash between. */
  function RequestKey(content: string, role: string): string {
    content + "-" + role
  }

  ghost predicate EndsWith(s: string, suffix: string) {
    |suffix| <= |s| && s[|s| - |suffix|..] == suffix
  }

  lemma ShorterRoleIsSuffix(c1: string, r1: string, c2: string, r2: string)
    requires RequestKey(c1, r1) == RequestKey(c2, r2) && |r1| < |r2|
    ensures EndsWith(r2, "-" + r1)
  {
    var key := RequestKey(c1, r1);
    var tail := "-" + r1;
    assert key[|key| - |tail|..] == tail;
    assert RequestKey(c2, r2)[|key| - |r2|..] == r2;
    assert r2[|r2| - |tail|..] == key[|key| - |tail|..];
  }

  /**
   Requests of two roles can get one key in two ways only: the roles and then the contents are
   equal, or one role ends with a dash followed by the other.
  */
  lemma KeyCollisions(r1: string, r2: string)
    ensures (exists c1, c2 :: RequestKey(c1, r1) == RequestKey(c2, r2)) <==>
            r1 == r2 || EndsWith(r2, "-" + r1) || EndsWith(r1, "-" + r2)
    ensures forall c1, c2 :: RequestKey(c1, r1) == RequestKey(c2, r1) <==> c1 == c2
  {
    forall c1, c2 | RequestKey(c1, r1) == RequestKey(c2, r2)
      ensures r1 == r2 || EndsWith(r2, "-" + r1) || EndsWith(r1, "-" + r2)
    {
      if |r1| < |r2| {
        ShorterRoleIsSuffix(c1, r1, c2, r2);
      } else if |r2| < |r1| {
        ShorterRoleIsSuffix(c2, r2, c1, r1);
      } else {
        assert RequestKey(c1, r1)[|c1| + 1..] == r1;
        assert RequestKey(c2, r2)[|c2| + 1..] == r2;
      }
    }
    forall c1, c2 | RequestKey(c1, r1) == RequestKey(c2, r1)
      ensures c1 == c2
    {
      assert RequestKey(c1, r1)[..|c1|] == c1 && RequestKey(c2, r1)[..|c2|] == c2;
    }
    if EndsWith(r2, "-" + r1) {
      DashSuffixCollides(r2, r1);
    } else if EndsWith(r1, "-" + r2) {
      DashSuffixCollides(r1, r2);
    } else if r1 == r2 {
      assert RequestKey("", r1) == RequestKey("", r2);
    }
  }

  lemma DashSuffixCollides(long: string, short: string)
    requires EndsWith(long, "-" + short)
    ensures exists content :: RequestKey(content, short) == RequestKey("", long)
  {
    var content := "-" + long[..|long| - |short| - 1];
    assert long == long[..|long| - |short| - 1] + ("-" + short);
    assert RequestKey(content, short) == RequestKey("", long);
  }

  /** Given roles without a dash, keys are equal exactly when contents and roles are. */
  lemma DashFreeRolesSeparate(c1: string, r1: string, c2: string, r2: string)
    requires '-' !in r1 && '-' !in r2
    ensures RequestKey(c1, r1) == RequestKey(c2, r2) <==> c1 == c2 && r1 == r2
  {
    KeyCollisions(r1, r2);
    if EndsWith(r2, "-" + r1) {
      HasDash(r2, r1);
    } else if EndsWith(r1, "-" + r2) {
      HasDash(r1, r2);
    }
  }

  lemma HasDash(long: string, short: string)
    requires EndsWith(long, "-" + short)
    ensures '-' in long
  {
    assert long[|long| - |short| - 1..][0] == '-';
  }

  type CallerId = nat

  /** A shared run of the failover loop; its outcome is missing while it runs. */
  datatype Flight = Flight(
    key: string, leader: CallerId, members: set<CallerId>, outcome: Option<Option<Failure>>)

  datatype Phase = Inside(flight: nat) | Returned(flight: nat, err: Option<Failure>)

  datatype State = State(
    callers: map<CallerId, Phase>, active: map<string, nat>, flights: seq<Flight>, deduplicated: nat)

  datatype Event =
    | Arrives(caller: CallerId, key: string)
    | Finishes(flight: nat, err: Option<Failure>)
    | Returns(caller: CallerId)

  predicate Enabled(s: State, e: Event) {
    match e
    case Arrives(c, key) => c !in s.callers && (key in s.active ==> s.active[key] < |s.flights|)
    case Finishes(f, _) => f < |s.flights| && s.flights[f].outcome.None?
    case Returns(c) =>
      && c in s.callers && s.callers[c].Inside?
      && s.callers[c].flight < |s.flights| && s.flights[s.callers[c].flight].outcome.Some?
  }

  /** What the group tells a caller: the starter whether anyone joined, a joiner always yes. */
  function Shared(f: Flight, c: CallerId): bool {
    c != f.leader || |f.members| > 1
  }

  function Join(s: State, c: CallerId, f: nat): State
    requires f < |s.flights|
  {
    s.(callers := s.callers[c := Inside(f)],
       flights := s.flights[f := s.flights[f].(members := s.flights[f].members + {c})])
  }

  function Lead(s: State, c: CallerId, key: string): State {
    s.(callers := s.callers[c := Inside(|s.flights|)], active := s.active[key := |s.flights|],
       flights := s.flights + [Flight(key, c, {c}, None)])
  }

  function Step(s: State, e: Event): State
    requires Enabled(s, e)
  {
    match e
    case Arrives(c, key) =>
      if key in s.active then Join(s, c, s.active[key]) else Lead(s, c, key)
    case Finishes(f, err) =>
      s.(active := s.active - {s.flights[f].key},
         flights := s.flights[f := s.flights[f].(outcome := Some(err))])
    case Returns(c) =>
      var f := s.callers[c].flight;
      var err := s.flights[f].outcome.value;
      s.(callers := s.callers[c := Returned(f, err)],
         deduplicated := s.deduplicated + if err.None? && Shared(s.flights[f], c) then 1 else 0)
  }

  ghost predicate Run(states: seq<State>, events: seq<Event>) {
    && |states| == |events| + 1 && states[0] == State(map[], map[], [], 0)
    && forall i | 0 <= i < |events| :: Enabled(states[i], events[i]) && states[i + 1] == Step(states[i], events[i])
  }

  ghost function Back(s: State, f: nat): set<CallerId>
    requires f < |s.flights|
  {
    set c | c in s.flights[f].members && c in s.callers && s.callers[c].Returned?
  }

  /** What one flight has contributed to the counter so far. */
  ghost function Credit(s: State, f: nat): nat
    requires f < |s.flights|
  {
    if s.flights[f].outcome == Some(None) && |s.flights[f].members| > 1 then |Back(s, f)| else 0
  }

  ghost function Credits(s: State, n: nat): nat
    requires n <= |s.flights|
  {
    if n == 0 then 0 else Credits(s, n - 1) + Credit(s, n - 1)
  }

  /** Published flights are the running ones, each under its own key. */
  ghost predicate ActiveLinked(s: State) {
    && (forall key | key in s.active ::
          s.active[key] < |s.flights| && s.flights[s.active[key]].key == key && s.flights[s.active[key]].outcome.None?)
    && (forall f | 0 <= f < |s.flights| && s.flights[f].outcome.None? ::
          s.flights[f].key in s.active && s.active[s.flights[f].key] == f)
  }

  /** A flight's members are the callers that are in it or back from it, its starter among them. */
  ghost predicate MembersLinked(s: State) {
    && (forall f | 0 <= f < |s.flights| :: s.flights[f].leader in s.flights[f].members)
    && (forall f, c | 0 <= f < |s.flights| && c in s.flights[f].members :: c in s.callers && s.callers[c].flight == f)
    && (forall c | c in s.callers ::
          s.callers[c].flight < |s.flights| && c in s.flights[s.callers[c].flight].members)
  }

  /** A caller comes back with its flight's outcome. */
  ghost predicate OutcomesLinked(s: State) {
    forall c | c in s.callers && s.callers[c].Returned? ::
      && s.callers[c].flight < |s.flights|
      && s.flights[s.callers[c].flight].outcome == Some(s.callers[c].err)
  }

  ghost predicate Linked(s: State) {
    ActiveLinked(s) && MembersLinked(s) && OutcomesLinked(s)
  }

  ghost predicate Valid(s: State) {
    Linked(s) && s.deduplicated == Credits(s, |s.flights|)
  }

  /** Two sums that differ at one flight only. */
  lemma {:induction false} CreditsDiffer(s: State, t: State, g: nat, d: nat, n: nat)
    requires n <= |s.flights| && n <= |t.flights|
    requires forall f | 0 <= f < n :: Credit(t, f) == Credit(s, f) + (if f == g then d else 0)
    ensures Credits(t, n) == Credits(s, n) + (if g < n then d else 0)
  {
    if n > 0 {
      CreditsDiffer(s, t, g, d, n - 1);
    }
  }

  lemma JoinKeepsLinked(s: State, c: CallerId, f: nat)
    requires Linked(s) && c !in s.callers && f < |s.flights| && s.flights[f].outcome.None?
    ensures Linked(Join(s, c, f))
  {
    JoinKeepsActive(s, c, f);
    JoinKeepsMembers(s, c, f);
  }

  lemma JoinKeepsActive(s: State, c: CallerId, f: nat)
    requires ActiveLinked(s) && OutcomesLinked(s) && c !in s.callers && f < |s.flights| && s.flights[f].outcome.None?
    ensures ActiveLinked(Join(s, c, f)) && OutcomesLinked(Join(s, c, f))
  {
    var t := Join(s, c, f);
    assert forall g | 0 <= g < |s.flights| ::
      t.flights[g].key == s.flights[g].key && t.flights[g].outcome == s.flights[g].outcome;
  }

  lemma JoinKeepsMembers(s: State, c: CallerId, f: nat)
    requires MembersLinked(s) && c !in s.callers && f < |s.flights|
    ensures MembersLinked(Join(s, c, f))
  {
  }

  lemma LeadKeepsLinked(s: State, c: CallerId, key: string)
    requires Linked(s) && c !in s.callers && key !in s.active
    ensures Linked(Lead(s, c, key))
  {
    LeadKeepsActive(s, c, key);
    LeadKeepsMembers(s, c, key);
  }

  lemma LeadKeepsActive(s: State, c: CallerId, key: string)
    requires ActiveLinked(s) && OutcomesLinked(s) && c !in s.callers && key !in s.active
    ensures ActiveLinked(Lead(s, c, key)) && OutcomesLinked(Lead(s, c, key))
  {
    assert forall g | 0 <= g < |s.flights| :: Lead(s, c, key).flights[g] == s.flights[g];
  }

  lemma LeadKeepsMembers(s: State, c: CallerId, key: string)
    requires MembersLinked(s) && c !in s.callers
    ensures MembersLinked(Lead(s, c, key))
  {
    assert forall g | 0 <= g < |s.flights| :: Lead(s, c, key).flights[g] == s.flights[g];
  }

  lemma FinishKeepsLinked(s: State, f: nat, err: Option<Failure>)
    requires Linked(s) && Enabled(s, Finishes(f, err))
    ensures Linked(Step(s, Finishes(f, err)))
  {
  }

  lemma ReturnKeepsLinked(s: State, c: CallerId)
    requires Linked(s) && Enabled(s, Returns(c))
    ensures Linked(Step(s, Returns(c)))
  {
  }

  lemma JoinCredits(s: State, c: CallerId, g: nat)
    requires Linked(s) && c !in s.callers && g < |s.flights| && s.flights[g].outcome.None?
    ensures var t := Join(s, c, g); Credits(t, |t.flights|) == Credits(s, |s.flights|)
  {
    var t := Join(s, c, g);
    forall f | 0 <= f < |s.flights|
      ensures Credit(t, f) == Credit(s, f)
    {
      if f != g {
        assert Back(t, f) == Back(s, f);
      }
    }
    CreditsDiffer(s, t, 0, 0, |s.flights|);
  }

  lemma LeadCredits(s: State, c: CallerId, key: string)
    requires Linked(s) && c !in s.callers
    ensures var t := Lead(s, c, key); Credits(t, |t.flights|) == Credits(s, |s.flights|)
  {
    var t := Lead(s, c, key);
    forall f | 0 <= f < |s.flights|
      ensures Credit(t, f) == Credit(s, f)
    {
      assert Back(t, f) == Back(s, f);
    }
    CreditsDiffer(s, t, 0, 0, |s.flights|);
  }

  lemma FinishCredits(s: State, f: nat, err: Option<Failure>)
    requires Linked(s) && Enabled(s, Finishes(f, err))
    ensures var t := Step(s, Finishes(f, err)); Credits(t, |t.flights|) == Credits(s, |s.flights|)
  {
    var t := Step(s, Finishes(f, err));
    forall g | 0 <= g < |s.flights|
      ensures Credit(t, g) == Credit(s, g)
    {
      assert Back(t, g) == Back(s, g);
      assert g == f ==> Back(s, g) == {};
    }
    CreditsDiffer(s, t, 0, 0, |s.flights|);
  }

  lemma SharedMeansTwo(s: State, c: CallerId)
    requires Linked(s) && c in s.callers
    ensures Shared(s.flights[s.callers[c].flight], c) <==> |s.flights[s.callers[c].flight].members| > 1
  {
    var f := s.flights[s.callers[c].flight];
    if c != f.leader {
      Subset({c, f.leader}, f.members);
    }
  }

  lemma ReturnCredits(s: State, c: CallerId)
    requires Linked(s) && Enabled(s, Returns(c))
    ensures var t := Step(s, Returns(c));
      Credits(t, |t.flights|) == Credits(s, |s.flights|) + (t.deduplicated - s.deduplicated)
  {
    var t, f := Step(s, Returns(c)), s.callers[c].flight;
    var d := t.deduplicated - s.deduplicated;
    SharedMeansTwo(s, c);
    forall g | 0 <= g < |s.flights|
      ensures Credit(t, g) == Credit(s, g) + (if g == f then d else 0)
    {
      if g == f {
        assert Back(t, g) == Back(s, g) + {c};
      } else {
        assert Back(t, g) == Back(s, g);
      }
    }
    CreditsDiffer(s, t, f, d, |s.flights|);
  }

  lemma {:induction false} RunsAreValid(states: seq<State>, events: seq<Event>)
    requires Run(states, events)
    ensures forall i | 0 <= i < |states| :: Valid(states[i])
  {
    for n := 0 to |events|
      invariant forall i | 0 <= i <= n :: Valid(states[i])
    {
      match events[n]
      case Arrives(c, key) =>
        if key in states[n].active {
          JoinKeepsLinked(states[n], c, states[n].active[key]);
          JoinCredits(states[n], c, states[n].active[key]);
        } else {
          LeadKeepsLinked(states[n], c, key);
          LeadCredits(states[n], c, key);
        }
      case Finishes(f, err) =>
        FinishKeepsLinked(states[n], f, err);
        FinishCredits(states[n], f, err);
      case Returns(c) =>
        ReturnKeepsLinked(states[n], c);
        ReturnCredits(states[n], c);
    }
  }

  // ----- the same from the events

  /** Where a caller's story stands after the first n events: its arrival, its flight's end, its return. */
  ghost predicate Story(states: seq<State>, events: seq<Event>, n: nat, c: CallerId, f: nat,
                        arrived: nat, finished: nat, returned: nat, err: Option<Failure>)
  {
    && arrived < finished < returned < n <= |events| < |states|
    && events[arrived].Arrives? && events[arrived].caller == c
    && events[finished] == Finishes(f, err)
    && events[returned] == Returns(c)
    && f < |states[n].flights| && events[arrived].key == states[n].flights[f].key
  }

  /** A flight that is over was ended by one event, which carried its outcome. */
  lemma {:induction false} OutcomeIsFromItsFinish(states: seq<State>, events: seq<Event>, n: nat, f: nat) returns (e: nat)
    requires Run(states, events) && n <= |events| && f < |states[n].flights| && states[n].flights[f].outcome.Some?
    ensures e < n && events[e] == Finishes(f, states[n].flights[f].outcome.value)
    ensures forall d: nat | d < n && events[d].Finishes? && events[d].flight == f :: d == e
    ensures forall d: nat | e < d <= n :: f < |states[d].flights| && states[d].flights[f].outcome.Some?
  {
    if events[n - 1].Finishes? && events[n - 1].flight == f {
      e := n - 1;
      NotFinishedBefore(states, events, n - 1, f);
    } else {
      e := OutcomeIsFromItsFinish(states, events, n - 1, f);
    }
  }

  lemma {:induction false} NotFinishedBefore(states: seq<State>, events: seq<Event>, n: nat, f: nat)
    requires Run(states, events) && n <= |events| && (f < |states[n].flights| ==> states[n].flights[f].outcome.None?)
    ensures forall d: nat | d < n && events[d].Finishes? :: events[d].flight != f
    ensures forall d: nat | d <= n :: f >= |states[d].flights| || states[d].flights[f].outcome.None?
  {
    if n > 0 {
      NotFinishedBefore(states, events, n - 1, f);
    }
  }

  lemma LinkedAt(states: seq<State>, events: seq<Event>, n: nat)
    requires Run(states, events) && n < |states|
    ensures Linked(states[n])
  {
    RunsAreValid(states, events);
  }

  lemma CallerStays(s: State, e: Event, c: CallerId)
    requires Linked(s) && Enabled(s, e) && c in s.callers
    ensures var t, f := Step(s, e), s.callers[c].flight;
      && c in t.callers && t.callers[c].flight == f < |s.flights| <= |t.flights| && t.flights[f].key == s.flights[f].key
      && (s.callers[c].Returned? ==> t.callers[c] == s.callers[c])
      && (s.callers[c].Inside? && t.callers[c].Returned? ==>
            e == Returns(c) && s.flights[f].outcome == Some(t.callers[c].err))
  {
  }

  lemma CallerArrives(s: State, e: Event, c: CallerId)
    requires Linked(s) && Enabled(s, e) && c !in s.callers && c in Step(s, e).callers
    ensures var t := Step(s, e);
      && e.Arrives? && e.caller == c && t.callers[c].Inside? && t.callers[c].flight < |t.flights|
      && t.flights[t.callers[c].flight].outcome.None? && t.flights[t.callers[c].flight].key == e.key
  {
  }

  lemma NobodyReturnsAtOnce(s: State, e: Event, c: CallerId)
    requires Linked(s) && Enabled(s, e) && c in Step(s, e).callers && Step(s, e).callers[c].Returned?
    ensures c in s.callers
  {
  }

  /** When a caller arrived, and that its flight was still open then. */
  lemma {:induction false} ArrivalOf(states: seq<State>, events: seq<Event>, n: nat, c: CallerId) returns (a: nat)
    requires Run(states, events) && n <= |events| && c in states[n].callers
    ensures a < n && events[a].Arrives? && events[a].caller == c
    ensures var f := states[n].callers[c].flight;
      && f < |states[a + 1].flights| <= |states[n].flights| && states[a + 1].flights[f].outcome.None?
      && states[n].flights[f].key == events[a].key
  {
    LinkedAt(states, events, n - 1);
    if c !in states[n - 1].callers {
      CallerArrives(states[n - 1], events[n - 1], c);
      a := n - 1;
    } else {
      CallerStays(states[n - 1], events[n - 1], c);
      a := ArrivalOf(states, events, n - 1, c);
    }
  }

  lemma {:induction false} ReturnOf(states: seq<State>, events: seq<Event>, n: nat, c: CallerId) returns (r: nat)
    requires Run(states, events) && n <= |events| && c in states[n].callers && states[n].callers[c].Returned?
    ensures r < n && events[r] == Returns(c)
    ensures var f := states[n].callers[c].flight;
      f < |states[r].flights| && states[r].flights[f].outcome == Some(states[n].callers[c].err)
  {
    LinkedAt(states, events, n - 1);
    NobodyReturnsAtOnce(states[n - 1], events[n - 1], c);
    CallerStays(states[n - 1], events[n - 1], c);
    if states[n - 1].callers[c].Inside? {
      r := n - 1;
    } else {
      r := ReturnOf(states, events, n - 1, c);
    }
  }

  lemma ReturnedWithOutcome(states: seq<State>, events: seq<Event>, n: nat, c: CallerId)
    requires Run(states, events) && n < |states| && c in states[n].callers && states[n].callers[c].Returned?
    ensures var f := states[n].callers[c].flight;
      f < |states[n].flights| && states[n].flights[f].outcome == Some(states[n].callers[c].err)
  {
    LinkedAt(states, events, n);
  }

  /**
   Every caller gets the error of the one run of its group: after its arrival with the group's
   key, and before its return, the run ended with just that error, and it ended only once.
  */
  lemma EveryoneGetsTheRunsError(states: seq<State>, events: seq<Event>, n: nat, c: CallerId)
    requires Run(states, events) && n <= |events| && c in states[n].callers && states[n].callers[c].Returned?
    ensures var f, err := states[n].callers[c].flight, states[n].callers[c].err;
      && (exists a: nat, e: nat, r: nat :: Story(states, events, n, c, f, a, e, r, err))
      && (forall d: nat, other | d < n && events[d] == Finishes(f, other) :: other == err)
  {
    var f, err := states[n].callers[c].flight, states[n].callers[c].err;
    ReturnedWithOutcome(states, events, n, c);
    var a := ArrivalOf(states, events, n, c);
    var r := ReturnOf(states, events, n, c);
    var e := OutcomeIsFromItsFinish(states, events, n, f);
    var early := OutcomeIsFromItsFinish(states, events, r, f);
    assert e == early;
    assert a < e;
    assert Story(states, events, n, c, f, a, e, r, err);
  }

  /** The callers of a flight. */
  ghost function Group(s: State, f: nat): set<CallerId> {
    set c | c in s.callers && s.callers[c].flight == f
  }

  ghost predicate EndedWell(events: seq<Event>, n: nat, f: nat) {
    exists e: nat :: e < n <= |events| && events[e] == Finishes(f, None)
  }

  /** The sizes of the groups of two or more whose run ended well, for the first m flights. */
  ghost function SharedSuccesses(s: State, events: seq<Event>, n: nat, m: nat): nat {
    if m == 0 then 0
    else
      SharedSuccesses(s, events, n, m - 1)
      + if EndedWell(events, n, m - 1) && |Group(s, m - 1)| >= 2 then |Group(s, m - 1)| else 0
  }

  lemma CreditIsFromEvents(states: seq<State>, events: seq<Event>, n: nat, f: nat)
    requires Run(states, events) && n <= |events| && f < |states[n].flights|
    requires Linked(states[n]) && forall c | c in states[n].callers :: states[n].callers[c].Returned?
    ensures Credit(states[n], f) ==
            if EndedWell(events, n, f) && |Group(states[n], f)| >= 2 then |Group(states[n], f)| else 0
  {
    var s := states[n];
    assert Group(s, f) == s.flights[f].members == Back(s, f);
    if s.flights[f].outcome.Some? {
      var e := OutcomeIsFromItsFinish(states, events, n, f);
    } else {
      NotFinishedBefore(states, events, n, f);
    }
  }

  lemma {:induction false} CreditsAreFromEvents(states: seq<State>, events: seq<Event>, n: nat, m: nat)
    requires Run(states, events) && n <= |events| && m <= |states[n].flights|
    requires Linked(states[n]) && forall c | c in states[n].callers :: states[n].callers[c].Returned?
    ensures Credits(states[n], m) == SharedSuccesses(states[n], events, n, m)
  {
    if m > 0 {
      CreditsAreFromEvents(states, events, n, m - 1);
      CreditIsFromEvents(states, events, n, m - 1);
    }
  }

  /**
   In every interleaving: at most one failover run is active per key; the callers of one group
   all return the error of its one run; and once every caller is back the counter is the sum,
   over the groups of two or more whose run ended without an error, of their sizes.
  */
  lemma DeduplicationIsSound(states: seq<State>, events: seq<Event>, i: nat)
    requires Run(states, events) && i < |states|
    ensures var s := states[i];
      && (forall f, g | 0 <= f < g < |s.flights| && s.flights[f].outcome.None? && s.flights[g].outcome.None? ::
            s.flights[f].key != s.flights[g].key)
      && (forall c, d | c in s.callers && d in s.callers && s.callers[c].Returned? && s.callers[d].Returned? &&
                        s.callers[c].flight == s.callers[d].flight ::
            s.callers[c].err == s.callers[d].err)
      && ((forall c | c in s.callers :: s.callers[c].Returned?) ==>
            s.deduplicated == SharedSuccesses(s, events, i, |s.flights|))
  {
    RunsAreValid(states, events);
    var s := states[i];
    if forall c | c in s.callers :: s.callers[c].Returned? {
      CreditsAreFromEvents(states, events, i, |s.flights|);
    }
  }

  /** Nobody is held up by anything but the run it waits for. */
  lemma EveryoneCanProceed(s: State, c: CallerId, key: string, f: nat, err: Option<Failure>)
    requires Linked(s)
    ensures c !in s.callers ==> Enabled(s, Arrives(c, key))
    ensures f < |s.flights| && s.flights[f].outcome.None? ==> Enabled(s, Finishes(f, err))
    ensures c in s.callers && s.callers[c].Inside? && s.flights[s.callers[c].flight].outcome.Some? ==>
              Enabled(s, Returns(c))
  {
  }
}
