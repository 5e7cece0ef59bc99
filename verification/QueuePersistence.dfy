/**
 server/middleware/queue.go: saving the queue's state by writing a temporary file and renaming
 it. Several goroutines can be saving at once (the ticker, every `SetMaxSize`, the final saves
 of a shutdown), all through one temporary path. A crash may fall between any two steps, so
 what holds in every state is what a restart can find. Files are inodes under two names: a
 truncated or half written one is `Torn`, a finished one holds a snapshot, encoded as JSON.
*/
module QueuePersistence {
  import opened Options
  import opened Collections

  type SaverId = nat
  type Inode = nat

  datatype Snapshot = Snapshot(maxSize: int, queueLength: nat)

  datatype Content = Whole(snapshot: Snapshot) | Torn

  datatype Disk = Disk(statePath: Option<Inode>, tmpPath: Option<Inode>, files: map<Inode, Content>, next: Inode)

  datatype Phase =
    | Captured(snapshot: Snapshot)
    | Opened(snapshot: Snapshot, file: Inode)  // the temporary file is created or truncated
    | Written(snapshot: Snapshot)

  datatype State = State(
    disk: Disk, savers: map<SaverId, Phase>, limit: int, length: nat,
    renamed: seq<Snapshot>)                    // what each successful save meant to store

  datatype Event =
    | Capture(id: SaverId)
    | Open(id: SaverId)
    | Write(id: SaverId)
    | Rename(id: SaverId)
    | Fail(id: SaverId)                        // any step of a save may return an error instead
    | SetMaxSize(size: int)
    | LengthChanges(length: nat)

  predicate Enabled(s: State, e: Event) {
    match e
    case Capture(id) => id !in s.savers
    case Open(id) => id in s.savers && s.savers[id].Captured?
    case Write(id) => id in s.savers && s.savers[id].Opened? && s.savers[id].file in s.disk.files
    case Rename(id) => id in s.savers && s.savers[id].Written?
    case Fail(id) => id in s.savers
    case SetMaxSize(_) => true
    case LengthChanges(_) => true
  }

  function Step(s: State, e: Event): State
    requires Enabled(s, e)
  {
    match e
    case Capture(id) => s.(savers := s.savers[id := Captured(Snapshot(s.limit, s.length))])
    case Open(id) =>
      var file := if s.disk.tmpPath.Some? then s.disk.tmpPath.value else s.disk.next;
      s.(disk := s.disk.(tmpPath := Some(file), files := s.disk.files[file := Torn],
                         next := if s.disk.tmpPath.Some? then s.disk.next else s.disk.next + 1),
         savers := s.savers[id := Opened(s.savers[id].snapshot, file)])
    case Write(id) =>
      var (file, snapshot) := (s.savers[id].file, s.savers[id].snapshot);
      // Writing over another saver's bytes may leave a mixture of the two.
      var content := if s.disk.files[file] in {Torn, Whole(snapshot)} then Whole(snapshot) else Torn;
      s.(disk := s.disk.(files := s.disk.files[file := content]), savers := s.savers[id := Written(snapshot)])
    case Rename(id) =>
      var done := s.(savers := s.savers - {id});
      if s.disk.tmpPath.None? then done
      else done.(disk := s.disk.(statePath := s.disk.tmpPath, tmpPath := None),
                 renamed := s.renamed + [s.savers[id].snapshot])
    case Fail(id) => s.(savers := s.savers - {id})
    case SetMaxSize(size) => s.(limit := size)
    case LengthChanges(length) => s.(length := length)
  }

  /** Nothing keeps a save from starting, going on or failing, whoever else is saving. */
  lemma AnythingCanHappen(s: State, id: SaverId)
    ensures id !in s.savers ==> Enabled(s, Capture(id))
    ensures id in s.savers ==> Enabled(s, Fail(id))
    ensures id in s.savers && s.savers[id].Captured? ==> Enabled(s, Open(id))
    ensures id in s.savers && s.savers[id].Opened? && s.savers[id].file in s.disk.files ==> Enabled(s, Write(id))
    ensures id in s.savers && s.savers[id].Written? ==> Enabled(s, Rename(id))
  {
  }

  /** What can be read under the state path. */
  function StateFile(d: Disk): Option<Content> {
    if d.statePath.Some? && d.statePath.value in d.files then Some(d.files[d.statePath.value]) else None
  }

  /** A new middleware's limit: the one on disk, or its initial size if nothing whole is there. */
  function RestartLimit(d: Disk, initialSize: int): int {
    match StateFile(d)
    case Some(Whole(snapshot)) => snapshot.maxSize
    case _ => initialSize
  }

  /** A disk as an earlier process may leave it: a whole state file or none, any temporary file. */
  ghost predicate Sane(d: Disk) {
    && (d.statePath.Some? ==> d.statePath.value in d.files && d.files[d.statePath.value].Whole?)
    && (d.tmpPath.Some? ==> d.tmpPath.value in d.files && d.tmpPath != d.statePath)
    && (forall file | file in d.files :: file < d.next)
  }

  /** Consecutive states of the protocol, from any state. */
  ghost predicate Steps(states: seq<State>, events: seq<Event>) {
    && |states| == |events| + 1
    && forall i | 0 <= i < |events| :: Enabled(states[i], events[i]) && states[i + 1] == Step(states[i], events[i])
  }

  ghost predicate Run(states: seq<State>, events: seq<Event>, disk: Disk, limit: int) {
    Steps(states, events) && states[0] == State(disk, map[], limit, 0, [])
  }

  /** At no moment are more than n saves under way. */
  ghost predicate AtMost(states: seq<State>, n: nat) {
    forall i | 0 <= i < |states| :: |states[i].savers.Keys| <= n
  }

  predicate NeverTorn(s: State) {
    StateFile(s.disk) != Some(Torn)
  }

  /** The content the state path holds once the given saves have been renamed. */
  function Expected(start: Disk, renamed: seq<Snapshot>): Option<Content> {
    if renamed == [] then StateFile(start) else Some(Whole(renamed[|renamed| - 1]))
  }

  ghost predicate Valid(s: State, start: Disk) {
    && Sane(s.disk)
    && StateFile(s.disk) == Expected(start, s.renamed)
    && forall id | id in s.savers ::
         match s.savers[id]
         case Captured(_) => true
         case Opened(_, file) => s.disk.tmpPath == Some(file) && s.disk.files[file] == Torn
         case Written(snapshot) => s.disk.tmpPath.Some? && s.disk.files[s.disk.tmpPath.value] == Whole(snapshot)
  }

  ghost predicate Alone(s: State) {
    forall a, b | a in s.savers && b in s.savers :: a == b
  }

  lemma StepKeeps(s: State, e: Event, start: Disk)
    requires Valid(s, start) && Enabled(s, e) && Alone(s)
    ensures Valid(Step(s, e), start)
  {
  }

  lemma AtMostOneIsAlone(s: State)
    requires |s.savers.Keys| <= 1
    ensures Alone(s)
  {
    forall a, b | a in s.savers && b in s.savers
      ensures a == b
    {
      Subset({a, b}, s.savers.Keys);
    }
  }

  lemma {:induction false} SavesInTurnKeep(
    states: seq<State>, events: seq<Event>, disk: Disk, limit: int, n: nat)
    requires Run(states, events, disk, limit) && Sane(disk) && AtMost(states, 1) && n < |states|
    ensures Valid(states[n], disk)
  {
    if n > 0 {
      SavesInTurnKeep(states, events, disk, limit, n - 1);
      AtMostOneIsAlone(states[n - 1]);
      StepKeeps(states[n - 1], events[n - 1], disk);
    }
  }

  /** A save's capture, and what was in force then. */
  ghost predicate CapturedAt(states: seq<State>, events: seq<Event>, c: nat, id: SaverId, snapshot: Snapshot) {
    && c < |events| < |states| && events[c] == Capture(id)
    && snapshot.maxSize == states[c].limit && snapshot.queueLength == states[c].length
  }

  /** Every save under way carries the limit and length in force when it was captured. */
  lemma {:induction false} SaverCaptured(
    states: seq<State>, events: seq<Event>, disk: Disk, limit: int, n: nat, id: SaverId) returns (c: nat)
    requires Run(states, events, disk, limit) && n <= |events| && id in states[n].savers
    ensures c < n && CapturedAt(states, events, c, id, states[n].savers[id].snapshot)
    ensures forall k: nat | c < k < n :: events[k] != Capture(id) && events[k] != Rename(id) && events[k] != Fail(id)
  {
    if events[n - 1] == Capture(id) {
      c := n - 1;
    } else {
      c := SaverCaptured(states, events, disk, limit, n - 1, id);
    }
  }

  lemma RenameStores(states: seq<State>, events: seq<Event>, disk: Disk, limit: int, n: nat)
    requires Run(states, events, disk, limit) && Sane(disk) && AtMost(states, 1) && n < |events| && events[n].Rename?
    ensures events[n].id in states[n].savers
    ensures states[n + 1].renamed == states[n].renamed + [states[n].savers[events[n].id].snapshot]
  {
    SavesInTurnKeep(states, events, disk, limit, n);
  }

  lemma OnlyRenameStores(s: State, e: Event)
    requires Enabled(s, e) && !e.Rename?
    ensures Step(s, e).renamed == s.renamed
  {
  }

  /** With one save at a time, the last save renamed is the last event of its kind, and stored what it captured. */
  lemma {:induction false} LastRenamed(
    states: seq<State>, events: seq<Event>, disk: Disk, limit: int, n: nat) returns (r: nat, c: nat)
    requires Run(states, events, disk, limit) && Sane(disk) && AtMost(states, 1)
    requires n <= |events| && states[n].renamed != []
    ensures c < r < n && events[r].Rename? && forall k: nat | r < k < n :: !events[k].Rename?
    ensures CapturedAt(states, events, c, events[r].id, states[n].renamed[|states[n].renamed| - 1])
    ensures forall k: nat | c < k < r ::
      events[k] != Capture(events[r].id) && events[k] != Rename(events[r].id) && events[k] != Fail(events[r].id)
  {
    if events[n - 1].Rename? {
      RenameStores(states, events, disk, limit, n - 1);
      r := n - 1;
      c := SaverCaptured(states, events, disk, limit, n - 1, events[r].id);
    } else {
      OnlyRenameStores(states[n - 1], events[n - 1]);
      r, c := LastRenamed(states, events, disk, limit, n - 1);
    }
  }

  /** A save that nothing interferes with can always be made, and stores the limit in force. */
  lemma SaveCompletes(s: State, id: SaverId) returns (states: seq<State>)
    requires s.savers == map[] && Sane(s.disk)
    ensures Steps(states, [Capture(id), Open(id), Write(id), Rename(id)]) && states[0] == s
    ensures StateFile(states[4].disk) == Some(Whole(Snapshot(s.limit, s.length)))
  {
    var s1 := Step(s, Capture(id));
    var s2 := Step(s1, Open(id));
    var s3 := Step(s2, Write(id));
    states := [s, s1, s2, s3, Step(s3, Rename(id))];
  }

  /** What a restart takes, spelled out. */
  lemma RestartMeaning(d: Disk, initialSize: int)
    ensures var whole := d.statePath.Some? && d.statePath.value in d.files && d.files[d.statePath.value].Whole?;
      && (whole ==> RestartLimit(d, initialSize) == d.files[d.statePath.value].snapshot.maxSize)
      && (!whole ==> RestartLimit(d, initialSize) == initialSize)
  {
  }

  /**
   With one save at a time, by whatever goroutines: after every step the state path holds what
   was there before or the whole snapshot of the last renamed save, and a process restarted at
   that point takes that snapshot's limit, the earlier file's, or the initial size.
  */
  lemma SavesAreAtomic(states: seq<State>, events: seq<Event>, disk: Disk, limit: int, i: nat, initialSize: int)
    requires Run(states, events, disk, limit) && Sane(disk) && AtMost(states, 1)
    requires i < |states|
    ensures var s := states[i];
      && NeverTorn(s) && StateFile(s.disk) == Expected(disk, s.renamed)
      && RestartLimit(s.disk, initialSize) ==
         if s.renamed != [] then s.renamed[|s.renamed| - 1].maxSize
         else if disk.statePath.Some? then disk.files[disk.statePath.value].snapshot.maxSize
         else initialSize
  {
    SavesInTurnKeep(states, events, disk, limit, i);
  }

  /** The interleaving that tears the file: b truncates what a has written, and a renames it. */
  function TearingEvents(a: SaverId, b: SaverId): seq<Event> {
    [Capture(a), Open(a), Write(a), Capture(b), Open(b), Rename(a)]
  }

  lemma {:induction false} OnlyTheseSave(
    states: seq<State>, events: seq<Event>, disk: Disk, limit: int, ids: set<SaverId>, n: nat)
    requires Run(states, events, disk, limit) && n < |states|
    requires forall i | 0 <= i < |events| && events[i].Capture? :: events[i].id in ids
    ensures states[n].savers.Keys <= ids
  {
    if n > 0 {
      OnlyTheseSave(states, events, disk, limit, ids, n - 1);
    }
  }

  lemma TearingRun(disk: Disk, limit: int, a: SaverId, b: SaverId) returns (states: seq<State>)
    requires Sane(disk) && a != b
    ensures Run(states, TearingEvents(a, b), disk, limit) && !NeverTorn(states[6])
  {
    var e := TearingEvents(a, b);
    var s0 := State(disk, map[], limit, 0, []);
    var s1 := Step(s0, e[0]);
    var s2 := Step(s1, e[1]);
    var s3 := Step(s2, e[2]);
    var s4 := Step(s3, e[3]);
    var s5 := Step(s4, e[4]);
    states := [s0, s1, s2, s3, s4, s5, Step(s5, e[5])];
    assert Run(states, e, disk, limit);
  }

  lemma TwoSaversTear(disk: Disk, limit: int, a: SaverId, b: SaverId)
    requires Sane(disk) && a != b
    ensures exists states: seq<State> ::
      Run(states, TearingEvents(a, b), disk, limit) && AtMost(states, 2) && !NeverTorn(states[6])
  {
    var states := TearingRun(disk, limit, a, b);
    forall i | 0 <= i < |states|
      ensures |states[i].savers.Keys| <= 2
    {
      OnlyTheseSave(states, TearingEvents(a, b), disk, limit, {a, b}, i);
      Subset(states[i].savers.Keys, {a, b});
    }
  }

  /**
   The promise that the state file is never corrupted holds exactly when saves do not overlap:
   one at a time, in every run; up to two at a time, not.
  */
  lemma AtomicExactlyWithoutOverlap(disk: Disk, limit: int, n: nat)
    requires Sane(disk)
    ensures (forall states: seq<State>, events: seq<Event>, i: nat |
               Run(states, events, disk, limit) && AtMost(states, n) && i < |states| :: NeverTorn(states[i]))
        <==> n <= 1
  {
    if n <= 1 {
      forall states: seq<State>, events: seq<Event>, i: nat |
        Run(states, events, disk, limit) && AtMost(states, n) && i < |states|
        ensures NeverTorn(states[i])
      {
        SavesAreAtomic(states, events, disk, limit, i, 0);
      }
    } else {
      TwoSaversTear(disk, limit, 0, 1);
      var states: seq<State> :|
        Run(states, TearingEvents(0, 1), disk, limit) && AtMost(states, 2) && !NeverTorn(states[6]);
      assert AtMost(states, n) && !NeverTorn(states[6]);
    }
  }
}
