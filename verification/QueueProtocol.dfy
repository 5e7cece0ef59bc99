/**
 server/middleware/queue.go under every interleaving of any number of requests. Each handler
 owns one completion channel, named by the handler's number. A step is one action that the
 source makes indivisible: what happens under the lock (the admission is two steps, since the
 limit can be changed without the lock between its reading and its use), an atomic counter
 update, or the closing of a channel. An inner handler that panics is one that returns: the
 deferred cleanup runs either way.
*/
module QueueProtocol {
  import opened Options
  import opened Collections

  type HandlerId = nat

  datatype Phase =
    | Deciding(size: nat, limit: int)  // holds the lock, has read the length and the limit
    | Rejected
    | Queued                           // its channel is in the queue, the lock released
    | Running                          // counted as processing
    | Leaving                          // no longer counted
    | Closed                           // its channel is closed
    | Gone                             // has removed the queue's head

  datatype State = State(
    queue: seq<HandlerId>, limit: int, processing: int, gauge: int,
    lock: Option<HandlerId>, handlers: map<HandlerId, Phase>,
    history: seq<HandlerId>,           // every admission so far, in order
    closes: multiset<HandlerId>,       // every closing of a channel so far
    panicked: bool)                    // whether a head was ever removed from an empty queue

  datatype Event =
    | Enter(h: HandlerId)
    | Decide(h: HandlerId)
    | Start(h: HandlerId)
    | Return(h: HandlerId)
    | Close(h: HandlerId)
    | Remove(h: HandlerId)
    | SetMaxSize(size: int)

  function Initial(limit: int): State {
    State([], limit, 0, 0, None, map[], [], multiset{}, false)
  }

  predicate In(s: State, h: HandlerId, phase: Phase) {
    h in s.handlers && s.handlers[h] == phase
  }

  predicate Enabled(s: State, e: Event) {
    match e
    case Enter(h) => h !in s.handlers && s.lock.None?
    case Decide(h) => h in s.handlers && s.handlers[h].Deciding?
    case Start(h) => In(s, h, Queued)
    case Return(h) => In(s, h, Running)
    case Close(h) => In(s, h, Leaving)
    case Remove(h) => In(s, h, Closed) && s.lock.None?
    case SetMaxSize(_) => true
  }

  function Step(s: State, e: Event): State
    requires Enabled(s, e)
  {
    match e
    case Enter(h) =>
      s.(lock := Some(h), handlers := s.handlers[h := Deciding(|s.queue|, s.limit)], gauge := |s.queue|)
    case Decide(h) =>
      if !Admits(s, h) then
        s.(lock := None, handlers := s.handlers[h := Rejected])
      else
        s.(lock := None, handlers := s.handlers[h := Queued],
           queue := s.queue + [h], history := s.history + [h])
    case Start(h) => s.(handlers := s.handlers[h := Running], processing := s.processing + 1)
    case Return(h) => s.(handlers := s.handlers[h := Leaving], processing := s.processing - 1)
    case Close(h) => s.(handlers := s.handlers[h := Closed], closes := s.closes + multiset{h})
    case Remove(h) =>
      if s.queue == [] then s.(panicked := true)
      else s.(handlers := s.handlers[h := Gone], queue := s.queue[1..], gauge := |s.queue| - 1)
    case SetMaxSize(size) => s.(limit := size)
  }

  /** Consecutive states of the protocol, from any state. */
  ghost predicate Steps(states: seq<State>, events: seq<Event>) {
    && |states| == |events| + 1
    && forall i | 0 <= i < |events| :: Enabled(states[i], events[i]) && states[i + 1] == Step(states[i], events[i])
  }

  ghost predicate Run(states: seq<State>, events: seq<Event>, limit: int) {
    Steps(states, events) && states[0] == Initial(limit)
  }

  /** A state of some run. */
  ghost predicate Reachable(s: State) {
    exists states: seq<State>, events: seq<Event>, limit: int ::
      Run(states, events, limit) && states[|events|] == s
  }

  lemma InitialIsReachable(limit: int)
    ensures Reachable(Initial(limit))
  {
    assert Run([Initial(limit)], [], limit);
  }

  lemma StepReaches(s: State, e: Event)
    requires Reachable(s) && Enabled(s, e)
    ensures Reachable(Step(s, e))
  {
    var states: seq<State>, events: seq<Event>, limit: int :|
      Run(states, events, limit) && states[|events|] == s;
    assert Run(states + [Step(s, e)], events + [e], limit);
    assert (states + [Step(s, e)])[|events + [e]|] == Step(s, e);
  }

  // ----- who is where

  /** Between its Add and its Remove. */
  ghost function InFlight(s: State): set<HandlerId> {
    set h | h in s.handlers && Holding(s.handlers[h])
  }

  predicate Holding(p: Phase) {
    p.Queued? || p.Running? || p.Leaving? || p.Closed?
  }

  ghost function Processing(s: State): set<HandlerId> {
    set h | h in s.handlers && s.handlers[h] == Running
  }

  ghost function Departed(s: State): set<HandlerId> {
    set h | h in s.handlers && s.handlers[h] == Gone
  }

  // ----- the invariant

  ghost predicate Accounted(s: State) {
    && !s.panicked
    && |s.queue| == |InFlight(s)|
    && s.processing == |Processing(s)|
  }

  ghost predicate Suffixed(s: State) {
    |s.queue| <= |s.history| && s.queue == s.history[|s.history| - |s.queue|..]
  }

  ghost predicate Recorded(s: State) {
    NoDuplicates(s.history) && Members(s.history) == InFlight(s) + Departed(s)
  }

  ghost predicate ClosedOnce(s: State) {
    forall h :: s.closes[h] == (if In(s, h, Closed) || In(s, h, Gone) then 1 else 0)
  }

  /** Whoever is deciding holds the lock and has read the length the queue still has. */
  ghost predicate Current(s: State) {
    forall h | h in s.handlers && s.handlers[h].Deciding? :: s.lock == Some(h) && s.handlers[h].size == |s.queue|
  }

  ghost predicate Locked(s: State) {
    && Current(s)
    && (s.lock.Some? ==> s.lock.value in s.handlers && s.handlers[s.lock.value].Deciding? && s.gauge == |s.queue|)
  }

  /** The gauge of queued requests is the length, or one behind it, and zero for an empty queue. */
  ghost predicate Gauged(s: State) {
    (s.gauge == |s.queue| || s.gauge == |s.queue| - 1) && s.gauge >= 0
  }

  ghost predicate Valid(s: State) {
    Accounted(s) && Suffixed(s) && Recorded(s) && ClosedOnce(s) && Locked(s) && Gauged(s)
  }

  /** How a step moves handlers between the groups. */
  lemma Moves(s: State, e: Event)
    requires Enabled(s, e) && (e.Remove? ==> s.queue != [])
    ensures InFlight(Step(s, e)) == (match e
                                     case Decide(h) => if Admits(s, h) then InFlight(s) + {h} else InFlight(s)
                                     case Remove(h) => InFlight(s) - {h}
                                     case _ => InFlight(s))
    ensures Departed(Step(s, e)) == (if e.Remove? then Departed(s) + {e.h} else Departed(s))
  {
  }

  predicate Admits(s: State, h: HandlerId)
    requires h in s.handlers && s.handlers[h].Deciding?
  {
    s.handlers[h].size < s.handlers[h].limit
  }

  lemma MovesProcessing(s: State, e: Event)
    requires Enabled(s, e)
    ensures Processing(Step(s, e)) == (match e
                                       case Start(h) => Processing(s) + {h}
                                       case Return(h) => Processing(s) - {h}
                                       case _ => Processing(s))
  {
  }

  lemma RemoveFindsSomething(s: State, h: HandlerId)
    requires Accounted(s) && In(s, h, Closed)
    ensures s.queue != []
  {
    assert h in InFlight(s);
  }

  lemma KeepsAccounted(s: State, e: Event)
    requires Accounted(s) && Enabled(s, e)
    ensures Accounted(Step(s, e))
  {
    if e.Remove? {
      RemoveFindsSomething(s, e.h);
    }
    Moves(s, e);
    MovesProcessing(s, e);
    match e
    case Decide(h) => assert h !in InFlight(s);
    case Start(h) => assert h !in Processing(s);
    case Return(h) => assert h in Processing(s);
    case Remove(h) => assert h in InFlight(s);
    case _ =>
  }

  lemma KeepsSuffixed(s: State, e: Event)
    requires Suffixed(s) && Enabled(s, e)
    ensures Suffixed(Step(s, e))
  {
  }

  lemma OneMore(q: seq<HandlerId>, h: HandlerId)
    ensures Members(q + [h]) == Members(q) + {h}
    ensures NoDuplicates(q) && h !in Members(q) ==> NoDuplicates(q + [h])
  {
    assert forall i | 0 <= i < |q| :: q[i] in Members(q);
  }

  lemma KeepsRecorded(s: State, e: Event)
    requires Recorded(s) && Enabled(s, e) && (e.Remove? ==> s.queue != [])
    ensures Recorded(Step(s, e))
  {
    var t := Step(s, e);
    if e.Remove? {
      assert e.h in InFlight(s);
    }
    Moves(s, e);
    if e.Decide? && Admits(s, e.h) {
      assert e.h !in InFlight(s) + Departed(s);
      OneMore(s.history, e.h);
      assert InFlight(t) + Departed(t) == InFlight(s) + Departed(s) + {e.h};
    } else {
      assert t.history == s.history;
      assert InFlight(t) + Departed(t) == InFlight(s) + Departed(s);
    }
  }

  lemma KeepsClosedOnce(s: State, e: Event)
    requires Accounted(s) && ClosedOnce(s) && Enabled(s, e)
    ensures ClosedOnce(Step(s, e))
  {
    if e.Remove? {
      RemoveFindsSomething(s, e.h);
    }
  }

  lemma KeepsLocked(s: State, e: Event)
    requires Locked(s) && Gauged(s) && Enabled(s, e)
    ensures Locked(Step(s, e)) && Gauged(Step(s, e))
  {
  }

  lemma StepKeeps(s: State, e: Event)
    requires Valid(s) && Enabled(s, e)
    ensures Valid(Step(s, e))
  {
    KeepsAccounted(s, e);
    KeepsSuffixed(s, e);
    if e.Remove? {
      RemoveFindsSomething(s, e.h);
    }
    KeepsRecorded(s, e);
    KeepsClosedOnce(s, e);
    KeepsLocked(s, e);
  }

  lemma {:induction false} StepsKeep(states: seq<State>, events: seq<Event>)
    requires Steps(states, events) && Valid(states[0])
    ensures forall i | 0 <= i < |states| :: Valid(states[i])
  {
    for n := 0 to |events|
      invariant forall i | 0 <= i <= n :: Valid(states[i])
    {
      StepKeeps(states[n], events[n]);
    }
  }

  lemma InitialIsValid(limit: int)
    ensures Valid(Initial(limit))
  {
    var s := Initial(limit);
    assert InFlight(s) == {} && Processing(s) == {} && Departed(s) == {} && Members(s.history) == {};
  }

  lemma RunReaches(states: seq<State>, events: seq<Event>, limit: int, i: nat)
    requires Run(states, events, limit) && i < |states|
    ensures Reachable(states[i])
  {
    assert Run(states[..i + 1], events[..i], limit);
    assert states[..i + 1][|events[..i]|] == states[i];
  }

  lemma ReachableIsValid(s: State)
    requires Reachable(s)
    ensures Valid(s)
  {
    var states: seq<State>, events: seq<Event>, limit: int :|
      Run(states, events, limit) && states[|events|] == s;
    InitialIsValid(limit);
    StepsKeep(states, events);
  }

  // ----- main results

  /**
   Accounting, in every state of every run. The queue's length is the number of handlers
   between Add and Remove, `processing` the number between its increment and decrement, and
   the one never exceeds the other, so Remove never meets an empty queue. The queue is the end
   of the admission history. A channel has been closed exactly once if its owner has got that
   far, and never otherwise. With the lock free the gauge is the length or one behind.
  */
  lemma QueueAccounting(states: seq<State>, events: seq<Event>, limit: int, i: nat)
    requires Run(states, events, limit) && i < |states|
    ensures var s := states[i];
      && |s.queue| == |InFlight(s)|
      && 0 <= s.processing == |Processing(s)| <= |s.queue|
      && !s.panicked
      && |s.queue| <= |s.history| && s.queue == s.history[|s.history| - |s.queue|..]
      && (forall h :: s.closes[h] == (if In(s, h, Closed) || In(s, h, Gone) then 1 else 0))
      && (s.gauge == |s.queue| || s.gauge == |s.queue| - 1) && (s.queue == [] ==> s.gauge == 0)
  {
    InitialIsValid(limit);
    StepsKeep(states, events);
    Subset(Processing(states[i]), InFlight(states[i]));
  }

  /**
   Content. Remove takes the head, not the remover's own channel, so the queue holds exactly
   the channels in flight precisely when the handlers that are gone are the first ones
   admitted, as many as have left.
  */
  lemma QueueContent(s: State)
    requires Reachable(s)
    ensures var left := |s.history| - |s.queue|;
      && left == |Departed(s)|
      && (Members(s.queue) == InFlight(s) <==> Departed(s) == Members(s.history[..left]))
  {
    ReachableIsValid(s);
    DepartedCount(s);
    QueueAndDeparted(s);
  }

  lemma DepartedCount(s: State)
    requires Accounted(s) && Suffixed(s) && Recorded(s)
    ensures |s.history| - |s.queue| == |Departed(s)|
  {
    DistinctSize(s.history);
    Apart(s);
  }

  lemma QueueAndDeparted(s: State)
    requires Suffixed(s) && Recorded(s)
    ensures Members(s.queue) == InFlight(s) <==>
            Departed(s) == Members(s.history[..|s.history| - |s.queue|])
  {
    Apart(s);
    SuffixAndRest(s.history, |s.history| - |s.queue|, InFlight(s), Departed(s));
  }

  lemma SuffixAndRest(history: seq<HandlerId>, left: nat, inFlight: set<HandlerId>, departed: set<HandlerId>)
    requires NoDuplicates(history) && left <= |history|
    requires Members(history) == inFlight + departed && inFlight !! departed
    ensures Members(history[left..]) == inFlight <==> departed == Members(history[..left])
  {
    Split(history, left);
    Halves(Members(history[left..]), Members(history[..left]), inFlight, departed);
  }

  lemma Apart(s: State)
    ensures InFlight(s) !! Departed(s)
    ensures |InFlight(s) + Departed(s)| == |InFlight(s)| + |Departed(s)|
  {
    assert InFlight(s) !! Departed(s);
  }

  lemma Split(q: seq<HandlerId>, n: nat)
    requires NoDuplicates(q) && n <= |q|
    ensures Members(q) == Members(q[..n]) + Members(q[n..]) && Members(q[..n]) !! Members(q[n..])
    ensures NoDuplicates(q[..n]) && NoDuplicates(q[n..])
  {
    assert q == q[..n] + q[n..];
    forall h | h in q[..n]
      ensures h !in q[n..]
    {
      var i :| 0 <= i < n && q[i] == h;
    }
  }

  lemma {:induction false} DistinctSize(q: seq<HandlerId>)
    requires NoDuplicates(q)
    ensures |Members(q)| == |q|
  {
    if q != [] {
      var front, last := q[..|q| - 1], q[|q| - 1];
      DistinctSize(front);
      assert q == front + [last];
      assert Members(q) == Members(front) + {last};
    }
  }

  /** If every handler that leaves finds its own channel at the head, the queue is exact throughout. */
  lemma {:induction false} FifoQueueIsExact(states: seq<State>, events: seq<Event>, limit: int, n: nat)
    requires Run(states, events, limit) && n < |states|
    requires forall i | 0 <= i < n && events[i].Remove? :: |states[i].queue| > 0 && states[i].queue[0] == events[i].h
    ensures Members(states[n].queue) == InFlight(states[n])
  {
    InitialIsValid(limit);
    StepsKeep(states, events);
    if n == 0 {
      assert Members(states[0].queue) == {} == InFlight(states[0]);
    } else {
      FifoQueueIsExact(states, events, limit, n - 1);
      FifoStep(states[n - 1], events[n - 1]);
    }
  }

  lemma FifoStep(s: State, e: Event)
    requires Suffixed(s) && Recorded(s) && Enabled(s, e) && Members(s.queue) == InFlight(s)
    requires e.Remove? ==> |s.queue| > 0 && s.queue[0] == e.h
    ensures Members(Step(s, e).queue) == InFlight(Step(s, e))
  {
    Moves(s, e);
    if e.Remove? {
      Split(s.history, |s.history| - |s.queue|);
      Split(s.queue, 1);
      assert Members(s.queue[..1]) == {e.h};
    } else if e.Decide? {
      OneMore(s.queue, e.h);
    }
  }

  /** The drained exit of `Shutdown`: with the lock free, an empty queue already means nothing runs. */
  lemma EmptyMeansIdle(s: State)
    requires Reachable(s) && s.lock.None? && s.queue == []
    ensures s.processing == 0 && InFlight(s) == {}
    ensures forall h | h in s.history :: In(s, h, Gone) && s.closes[h] == 1
  {
    ReachableIsValid(s);
    Subset(Processing(s), InFlight(s));
    forall h | h in s.history
      ensures In(s, h, Gone) && s.closes[h] == 1
    {
      assert h in Members(s.history);
    }
  }

  /** Nobody waits for anything but the lock, and the admission is the lock's holder's next step. */
  lemma EveryoneCanProceed(s: State, h: HandlerId)
    ensures h !in s.handlers && s.lock.None? ==> Enabled(s, Enter(h))
    ensures h in s.handlers && s.handlers[h].Deciding? ==> Enabled(s, Decide(h))
    ensures In(s, h, Queued) ==> Enabled(s, Start(h)) && In(Step(s, Start(h)), h, Running)
    ensures In(s, h, Running) ==> Enabled(s, Return(h)) && In(Step(s, Return(h)), h, Leaving)
    ensures In(s, h, Leaving) ==> Enabled(s, Close(h)) && In(Step(s, Close(h)), h, Closed)
    ensures In(s, h, Closed) && s.lock.None? ==> Enabled(s, Remove(h))
  {
  }

  /**
   That Remove takes the head matters: two requests run, the second is done first, and the queue
   is left with the closed channel of the one that has gone.
  */
  lemma LateChannelStays(limit: int)
    requires limit >= 2
    ensures exists s :: Reachable(s) && s.queue == [1] && In(s, 1, Gone) && In(s, 0, Running) && InFlight(s) == {0}
  {
    var s0 := Initial(limit);
    InitialIsReachable(limit);
    var s1 := Arrives(s0, 0);
    var s2 := Arrives(s1, 1);
    var s3 := Departs(s2, 1);
    assert InFlight(s3) == {0};
  }

  /** A handler that comes in and starts. */
  lemma Arrives(s: State, h: HandlerId) returns (t: State)
    requires Reachable(s) && h !in s.handlers && s.lock.None? && |s.queue| < s.limit
    ensures Reachable(t) && t.queue == s.queue + [h] && t.handlers == s.handlers[h := Running]
    ensures t.lock.None? && t.limit == s.limit
  {
    var entered := Step(s, Enter(h));
    var queued := Step(entered, Decide(h));
    StepReaches(s, Enter(h));
    StepReaches(entered, Decide(h));
    StepReaches(queued, Start(h));
    t := Step(queued, Start(h));
    assert t.handlers == s.handlers[h := Running];
  }

  /** A running handler that returns and cleans up. */
  lemma Departs(s: State, h: HandlerId) returns (t: State)
    requires Reachable(s) && In(s, h, Running) && s.lock.None? && s.queue != []
    ensures Reachable(t) && t.queue == s.queue[1..] && t.handlers == s.handlers[h := Gone]
  {
    var returned := Step(s, Return(h));
    var closed := Step(returned, Close(h));
    StepReaches(s, Return(h));
    StepReaches(returned, Close(h));
    StepReaches(closed, Remove(h));
    t := Step(closed, Remove(h));
    assert t.handlers == s.handlers[h := Gone];
  }
}
