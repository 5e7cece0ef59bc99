/**
 server/middleware/queue.go: the middleware object. Its methods are the protocol's steps on
 the real fields; any number of requests may be under way between calls.
*/
module Queues {
  import opened Options
  import opened QueueProtocol
  import P = QueuePersistence

  /** One look at the queue by a waiting `Shutdown`: the time, both counters, and the caller's context. */
  datatype Poll = Poll(now: int, length: nat, processing: int, cancelled: bool)

  datatype Exit = Drained | ContextCancelled | DeadlinePassed

  const MILLISECOND := 1_000_000
  const POLL_INTERVAL := 100 * MILLISECOND
  const SHUTDOWN_TIMEOUT := 5_000 * MILLISECOND

  /** The admission as two steps of the protocol without another in between. */
  function Admission(s: State, h: HandlerId): State
    requires h !in s.handlers && s.lock.None?
  {
    Step(Step(s, Enter(h)), Decide(h))
  }

  lemma AdmissionKeeps(s: State, h: HandlerId)
    requires Reachable(s) && h !in s.handlers && s.lock.None?
    ensures Reachable(Admission(s, h)) && |InFlight(s)| == |s.queue|
    ensures var t := Admission(s, h);
      && t.queue == (if |s.queue| < s.limit then s.queue + [h] else s.queue)
      && t.processing == s.processing && t.gauge == |s.queue| && t.limit == s.limit && t.lock.None?
  {
    StepReaches(s, Enter(h));
    StepReaches(Step(s, Enter(h)), Decide(h));
    ReachableIsValid(s);
  }

  /** The deferred cleanup as three steps of the protocol without another in between. */
  function Cleanup(s: State, h: HandlerId): State
    requires In(s, h, Running) && s.lock.None?
  {
    Step(Step(Step(s, Return(h)), Close(h)), Remove(h))
  }

  lemma CleanupKeeps(s: State, h: HandlerId)
    requires Reachable(s) && In(s, h, Running) && s.lock.None?
    ensures Reachable(Cleanup(s, h)) && s.queue != []
    ensures var t := Cleanup(s, h);
      && t.queue == s.queue[1..] && t.processing == s.processing - 1 && t.gauge == |s.queue| - 1
      && t.limit == s.limit && t.lock.None?
  {
    var returned := Step(s, Return(h));
    var closed := Step(returned, Close(h));
    StepReaches(s, Return(h));
    StepReaches(returned, Close(h));
    StepReaches(closed, Remove(h));
    ReachableIsValid(closed);
    RemoveFindsSomething(closed, h);
  }

  /** The file operations of a save: a temporary file is written whole and takes the state file's place. */
  method WriteSnapshot(snapshot: P.Snapshot, disk: P.Disk, opens: bool, writes: bool, renames: bool)
    returns (after: P.Disk, saved: bool)
    requires P.Sane(disk)
    ensures P.Sane(after) && (saved <==> opens && writes && renames)
    ensures P.StateFile(after) == if saved then Some(P.Whole(snapshot)) else P.StateFile(disk)
  {
    if !opens {
      return disk, false;
    }
    var file := disk.next;
    if disk.tmpPath.Some? {
      file := disk.tmpPath.value;
    }
    after := P.Disk(disk.statePath, Some(file), disk.files[file := P.Torn],
                    if disk.tmpPath.Some? then disk.next else disk.next + 1);
    if !writes {
      return after, false;
    }
    after := after.(files := after.files[file := P.Whole(snapshot)]);
    if !renames {
      return after, false;
    }
    return after.(statePath := Some(file), tmpPath := None), true;
  }

  class QueueMiddleware {
    var queue: seq<HandlerId>
    var maxSize: int
    var processing: int
    var queuedGauge: int
    var dropped: nat
    ghost var model: State

    /** The fields are those of a state that some run of the protocol reaches, with the lock free. */
    ghost predicate Valid()
      reads this
    {
      && Reachable(model) && model.lock.None?
      && queue == model.queue && maxSize == model.limit
      && processing == model.processing && queuedGauge == model.gauge
    }

    /** Starts with the saved limit if persistence is on and a whole state file is found. */
    constructor (initialSize: int, disk: Option<P.Disk>)
      ensures Valid() && dropped == 0
      ensures maxSize == if disk.Some? then P.RestartLimit(disk.value, initialSize) else initialSize
      ensures disk.None? ==> maxSize == initialSize
      ensures disk.Some? ==>
                var d := disk.value;
                maxSize == if d.statePath.Some? && d.statePath.value in d.files && d.files[d.statePath.value].Whole?
                           then d.files[d.statePath.value].snapshot.maxSize else initialSize
      ensures model == Initial(maxSize)
    {
      var limit := initialSize;
      if disk.Some? {
        var file := P.StateFile(disk.value);
        if file.Some? && file.value.Whole? {
          limit := file.value.snapshot.maxSize;
        }
      }
      queue, maxSize, processing, queuedGauge, dropped := [], limit, 0, 0, 0;
      model := Initial(limit);
      InitialIsReachable(limit);
    }

    /**
     One save nobody interferes with. Whatever the disk held, a middleware restarted on what
     it leaves has this one's limit; if a file operation fails, the state file is as before.
    */
    method SaveState(disk: P.Disk, opens: bool, writes: bool, renames: bool)
      returns (after: P.Disk, saved: bool)
      requires Valid() && P.Sane(disk)
      ensures P.Sane(after) && (saved <==> opens && writes && renames)
      ensures P.StateFile(after) == if saved then Some(P.Whole(P.Snapshot(maxSize, |queue|))) else P.StateFile(disk)
      ensures saved ==> forall initialSize :: P.RestartLimit(after, initialSize) == maxSize
    {
      after, saved := WriteSnapshot(P.Snapshot(maxSize, |queue|), disk, opens, writes, renames);
    }

    /** The part of the handler under the lock: admission, or a 503. */
    method Admit(h: HandlerId) returns (admitted: bool, position: nat)
      requires Valid() && h !in model.handlers
      modifies this
      ensures Valid()
      ensures model == Admission(old(model), h)
      ensures admitted <==> |old(queue)| < maxSize
      ensures position == |InFlight(old(model))|
      ensures queue == if admitted then old(queue) + [h] else old(queue)
      ensures dropped == old(dropped) + (if admitted then 0 else 1)
      ensures queuedGauge == |old(queue)| && maxSize == old(maxSize) && processing == old(processing)
    {
      AdmissionKeeps(model, h);
      model := Admission(model, h);
      position := |queue|;
      queuedGauge := position;
      admitted := position < maxSize;
      if admitted {
        queue := queue + [h];
      } else {
        dropped := dropped + 1;
      }
    }

    /** The handler goes on to the inner handler. */
    method Begin(h: HandlerId)
      requires Valid() && In(model, h, Queued)
      modifies this`processing, this`model
      ensures Valid() && model == Step(old(model), Start(h))
      ensures processing == old(processing) + 1
    {
      StepReaches(model, Start(h));
      model := Step(model, Start(h));
      processing := processing + 1;
    }

    /** The deferred cleanup, whether the inner handler returned or panicked. */
    method Finish(h: HandlerId)
      requires Valid() && In(model, h, Running)
      modifies this`processing, this`queue, this`queuedGauge, this`model
      ensures Valid()
      ensures model == Cleanup(old(model), h)
      // The head goes, whoever finishes.
      ensures |old(queue)| > 0 && queue == old(queue)[1..]
      ensures processing == old(processing) - 1 && queuedGauge == |queue|
    {
      CleanupKeeps(model, h);
      model := Cleanup(model, h);
      processing := processing - 1;
      queue := queue[1..];
      queuedGauge := |queue|;
    }

    method SetMaxSize(size: int)
      requires Valid()
      modifies this`maxSize, this`model
      ensures Valid() && maxSize == size && model == Step(old(model), Event.SetMaxSize(size))
    {
      StepReaches(model, Event.SetMaxSize(size));
      model := Step(model, Event.SetMaxSize(size));
      maxSize := size;
    }
  }

  predicate Empty(p: Poll) {
    p.length == 0 && p.processing == 0
  }

  /**
   A poll in a run of the protocol. It holds the read lock from state a to state c, so nothing
   enters or leaves the queue in between; the length is read in the one, the count in the other.
  */
  ghost predicate Looks(p: Poll, states: seq<State>, a: nat, c: nat) {
    && a <= c < |states|
    && (forall k | a <= k <= c :: states[k].lock.None? && states[k].queue == states[a].queue)
    && p.length == |states[a].queue| && p.processing == states[c].processing
  }

  /** The polls look at the run one after the other. */
  ghost predicate Watches(world: nat -> Poll, states: seq<State>, at: nat -> nat, until: nat -> nat) {
    forall i: nat :: Looks(world(i), states, at(i), until(i)) && until(i) <= at(i + 1)
  }

  /** Nothing is between Add and Remove, and every channel ever queued is closed, once. */
  ghost predicate Idle(s: State) {
    s.queue == [] && s.processing == 0 && InFlight(s) == {} &&
    forall h | h in s.history :: In(s, h, Gone) && s.closes[h] == 1
  }

  lemma DrainedMeansIdle(p: Poll, states: seq<State>, events: seq<Event>, limit: int, a: nat, c: nat)
    requires Run(states, events, limit) && Looks(p, states, a, c)
    ensures Empty(p) <==> p.length == 0
    ensures Empty(p) ==> Idle(states[a]) && Idle(states[c])
  {
    RunReaches(states, events, limit, a);
    RunReaches(states, events, limit, c);
    if p.length == 0 {
      EmptyMeansIdle(states[a]);
      EmptyMeansIdle(states[c]);
    }
  }

  /**
   The waiting loop of `Shutdown`, whatever it sees: polls are at least 100 ms apart. It ends
   within 50 polls; it finds the queue drained exactly when some poll in time, before any
   cancelled one, found it empty.
  */
  method AwaitDrain(start: int, world: nat -> Poll) returns (exit: Exit, polls: nat)
    requires start <= world(0).now
    requires forall i: nat :: world(i).now + 100_000_000 <= world(i + 1).now
    ensures polls <= 50
    ensures forall i: nat | i < polls :: world(i).now < start + 5_000_000_000
    ensures forall i: nat | i + 1 < polls :: !Empty(world(i)) && !world(i).cancelled
    ensures exit == Drained <==> polls > 0 && world(polls - 1).length == 0 && world(polls - 1).processing == 0
    ensures exit == ContextCancelled <==> polls > 0 && !Empty(world(polls - 1)) && world(polls - 1).cancelled
    ensures exit == DeadlinePassed ==> world(polls).now >= start + 5_000_000_000
  {
    var deadline := start + SHUTDOWN_TIMEOUT;
    polls := 0;
    while world(polls).now < deadline
      invariant start + polls * POLL_INTERVAL <= world(polls).now
      invariant polls <= 50
      invariant forall i: nat | i < polls :: world(i).now < deadline && !Empty(world(i)) && !world(i).cancelled
      decreases 50 - polls
    {
      var poll := world(polls);
      assert poll.now + POLL_INTERVAL <= world(polls + 1).now;
      polls := polls + 1;
      if Empty(poll) {
        return Drained, polls;
      }
      if poll.cancelled {
        return ContextCancelled, polls;
      }
    }
    return DeadlinePassed, polls;
  }

  /**
   `Shutdown` beside any run of the protocol. A drained exit finds nothing in flight; the test of
   the processing count adds nothing to that of the length. It then saves what `last` captures,
   if there is persistence, and does not report a failure of that. When the deadline passes it
   returns no error either, whatever the comment above it in the source says: `failed` is only
   set by a cancelled context.
  */
  method Shutdown(start: int, world: nat -> Poll, last: P.Snapshot,
                  disk: Option<P.Disk>, opens: bool, writes: bool, renames: bool,
                  ghost states: seq<State>, ghost events: seq<Event>, ghost limit: int,
                  ghost at: nat -> nat, ghost until: nat -> nat)
    returns (exit: Exit, polls: nat, failed: bool, after: Option<P.Disk>)
    requires start <= world(0).now
    requires forall i: nat :: world(i).now + 100_000_000 <= world(i + 1).now
    requires Run(states, events, limit) && Watches(world, states, at, until)
    requires disk.Some? ==> P.Sane(disk.value)
    ensures polls <= 50
    ensures forall i: nat | i + 1 < polls :: !Empty(world(i)) && !world(i).cancelled
    ensures exit == Drained <==> polls > 0 && world(polls - 1).length == 0
    ensures exit == Drained ==> Idle(states[at(polls - 1)]) && Idle(states[until(polls - 1)])
    ensures failed <==> exit == ContextCancelled
    ensures exit == ContextCancelled <==> polls > 0 && !Empty(world(polls - 1)) && world(polls - 1).cancelled
    ensures exit == DeadlinePassed ==> world(polls).now >= start + 5_000_000_000
    ensures after.Some? <==> disk.Some?
    ensures disk.Some? ==>
              P.StateFile(after.value) == if exit == Drained && opens && writes && renames then Some(P.Whole(last))
                                          else P.StateFile(disk.value)
  {
    exit, polls := AwaitDrain(start, world);
    failed, after := exit == ContextCancelled, disk;
    if polls > 0 {
      assert Looks(world(polls - 1), states, at(polls - 1), until(polls - 1));
      DrainedMeansIdle(world(polls - 1), states, events, limit, at(polls - 1), until(polls - 1));
    }
    if exit == Drained && disk.Some? {
      var d, saved := WriteSnapshot(last, disk.value, opens, writes, renames);
      after := Some(d);
    }
  }

  /** The idleness of a drained exit does not last: nothing stops the next request from being admitted. */
  lemma IdlenessCanEnd(s: State, h: HandlerId)
    requires Reachable(s) && s.lock.None? && h !in s.handlers && s.queue == [] && s.limit > 0
    ensures Idle(s) && Reachable(Admission(s, h)) && Admission(s, h).queue == [h]
  {
    EmptyMeansIdle(s);
    AdmissionKeeps(s, h);
  }
}
