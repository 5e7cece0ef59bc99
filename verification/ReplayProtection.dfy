/**
 server/server.go: `replayProtectionHandler`, one request at a time. A request's hash is an
 uninterpreted key. Times are nanoseconds on a clock that does not run backwards.
*/
module ReplayProtection {
  import opened Options

  type Hash = string

  const WINDOW := 300_000_000_000

  /** An accepted request: its hash, when it was stored, and when the cleanup after it ran. */
  datatype Acceptance = Acceptance(hash: Hash, stored: int, cleaned: int)

  datatype Request = Request(isPost: bool, hash: Option<Hash>)  // no hash: the body could not be read

  datatype Reply = Forwarded | TooEarly | InternalError

  /** Acceptances in the order they happened, under a clock that never goes back. */
  ghost predicate Chronological(log: seq<Acceptance>) {
    && (forall i | 0 <= i < |log| :: log[i].stored <= log[i].cleaned)
    && (forall i, j | 0 <= i < j < |log| :: log[i].cleaned <= log[j].stored)
  }

  /** The hash's last acceptance among the first n is recent enough to survive the cleanup of the n-th. */
  ghost predicate Remembered(log: seq<Acceptance>, hash: Hash) {
    exists i :: Remembers(log, hash, i)
  }

  ghost predicate Remembers(log: seq<Acceptance>, hash: Hash, i: int) {
    0 <= i < |log| && log[i].hash == hash && log[|log| - 1].cleaned - log[i].stored <= WINDOW
  }

  ghost predicate Agree(seen: map<Hash, int>, log: seq<Acceptance>) {
    && Chronological(log)
    && (forall hash :: hash in seen <==> Remembered(log, hash))
    && (forall hash, i | hash in seen && Remembers(log, hash, i) :: seen[hash] == log[i].stored)
  }

  /** No acceptance was of a hash then remembered. */
  ghost predicate Honest(log: seq<Acceptance>) {
    forall i | 0 <= i < |log| :: !Remembered(log[..i], log[i].hash)
  }

  class ReplayProtectionHandler {
    const enabled: bool
    const allowed: bool
    var seen: map<Hash, int>
    ghost var log: seq<Acceptance>

    /**
     The stored hashes are exactly those accepted no more than five minutes before the last
     cleanup, each with the time of its acceptance.
    */
    ghost predicate Valid()
      reads this
    {
      Agree(seen, log) && Honest(log)
    }

    constructor (enabled: bool, allowed: bool)
      ensures Valid() && seen == map[] && log == []
      ensures this.enabled == enabled && this.allowed == allowed
    {
      this.enabled, this.allowed := enabled, allowed;
      seen, log := map[], [];
    }

    /** Drops every entry older than the window, in whatever order the map is walked. */
    method CleanupOldEntries(now: int)
      modifies this`seen
      ensures seen == map hash | hash in old(seen) && now - old(seen)[hash] <= WINDOW :: old(seen)[hash]
    {
      var keys := seen.Keys;
      while keys != {}
        invariant keys <= old(seen).Keys
        invariant seen == map hash | hash in old(seen) && (hash in keys || now - old(seen)[hash] <= WINDOW) :: old(seen)[hash]
        decreases keys
      {
        var key :| key in keys;
        if now - seen[key] > WINDOW {
          seen := seen - {key};
        }
        keys := keys - {key};
      }
    }

    /**
     One request, seen at time `now` and, if accepted, cleaned up after at time `later`. A POST
     is turned away exactly when its hash is remembered; otherwise it is the log's next entry.
     Everything else passes through and changes nothing.
    */
    method ServeHTTP(r: Request, now: int, later: int) returns (reply: Reply)
      requires Valid() && now <= later
      requires log != [] ==> log[|log| - 1].cleaned <= now
      modifies this
      ensures Valid()
      ensures var guarded := r.isPost && enabled && !allowed;
        && (guarded && r.hash.None? ==> reply == InternalError)
        && (guarded && r.hash.Some? ==>
              reply == if Remembered(old(log), r.hash.value) then TooEarly else Forwarded)
        && (!guarded ==> reply == Forwarded)
        && log == (if guarded && reply == Forwarded then old(log) + [Acceptance(r.hash.value, now, later)] else old(log))
        && (log == old(log) ==> seen == old(seen))
    {
      if r.isPost && enabled && !allowed {
        if r.hash.None? {
          return InternalError;
        }
        var hash := r.hash.value;
        if hash in seen {
          return TooEarly;
        }
        seen := seen[hash := now];
        CleanupOldEntries(later);
        ghost var a := Acceptance(hash, now, later);
        AcceptKeeps(old(seen), old(log), a);
        HonestGrows(old(log), a);
        log := log + [a];
      }
      return Forwarded;
    }
  }

  lemma AcceptKeeps(seen: map<Hash, int>, log: seq<Acceptance>, a: Acceptance)
    requires Agree(seen, log) && a.hash !in seen && a.stored <= a.cleaned
    requires log != [] ==> log[|log| - 1].cleaned <= a.stored
    ensures var stored := seen[a.hash := a.stored];
      Agree(map hash | hash in stored && a.cleaned - stored[hash] <= WINDOW :: stored[hash], log + [a])
  {
    var stored := seen[a.hash := a.stored];
    var next := map hash | hash in stored && a.cleaned - stored[hash] <= WINDOW :: stored[hash];
    var longer := log + [a];
    var n := |log|;
    assert longer[n] == a;
    // An entry still remembered afterwards was remembered before, or is the new one.
    forall hash, i | Remembers(longer, hash, i) && i < n
      ensures Remembers(log, hash, i)
    {
      assert longer[i] == log[i] && log[n - 1].cleaned <= a.stored;
    }
    forall hash
      ensures hash in next <==> Remembered(longer, hash)
    {
      if hash in next {
        if hash == a.hash {
          assert Remembers(longer, hash, n);
        } else {
          var i :| Remembers(log, hash, i);
          assert longer[i] == log[i];
          assert Remembers(longer, hash, i);
        }
      }
    }
  }

  lemma HonestGrows(log: seq<Acceptance>, a: Acceptance)
    requires Honest(log) && !Remembered(log, a.hash)
    ensures Honest(log + [a])
  {
    var longer := log + [a];
    assert longer[..|log|] == log;
    assert forall i | 0 <= i < |log| :: longer[..i] == log[..i];
  }

  /** In every sequential run, two acceptances of one hash are more than five minutes apart. */
  lemma ReplaysAreApart(seen: map<Hash, int>, log: seq<Acceptance>, i: nat, j: nat)
    requires Agree(seen, log) && Honest(log)
    requires i < j < |log| && log[i].hash == log[j].hash
    ensures log[j].stored - log[i].stored > 300_000_000_000
  {
    var before := log[..j];
    assert before[i] == log[i] && before[j - 1] == log[j - 1];
    assert !Remembers(before, log[j].hash, i);
  }

  /**
   The five minutes are counted to the last cleanup, not to the present: a hash is forgotten
   exactly when the last accepted request, of whatever hash, was cleaned up after more than
   five minutes after its own last acceptance.
  */
  lemma ForgottenByLaterTraffic(seen: map<Hash, int>, log: seq<Acceptance>, i: nat)
    requires Agree(seen, log) && i < |log|
    requires forall k | i < k < |log| :: log[k].hash != log[i].hash
    ensures log[i].hash !in seen <==> log[|log| - 1].cleaned - log[i].stored > 300_000_000_000
  {
    if log[|log| - 1].cleaned - log[i].stored <= WINDOW {
      assert Remembers(log, log[i].hash, i);
    }
  }

  /** So without other traffic a replay is refused however late it comes. */
  lemma QuietHandlerNeverForgets(hash: Hash, stored: int, now: int)
    requires now >= stored
    ensures var log := [Acceptance(hash, stored, stored)];
      Agree(map[hash := stored], log) && Honest(log) && log[0].cleaned <= now && Remembered(log, hash)
  {
    var log := [Acceptance(hash, stored, stored)];
    assert Remembers(log, hash, 0);
    assert !Remembered(log[..0], hash);
  }
}
