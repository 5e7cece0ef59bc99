/**
 server/middleware/ratelimit.go: one token bucket per visitor address. The bucket is
 golang.org/x/time/rate's, which is not part of the modelled repository (ASSUMPTION): ten
 tokens, one more each minute. Tokens are counted in nanoseconds of refilling, so a token is a
 minute's worth; the library's floating-point rounding is not modelled.
*/
module RateLimits {
  import opened Options
  import opened Collections

  const MINUTE := 60_000_000_000
  const BURST := 10

  datatype Bucket = Bucket(level: int, last: int)

  /** What a bucket holds at the given time. */
  function LevelAt(b: Bucket, now: int): int {
    Min(BURST * MINUTE, b.level + Max(0, now - b.last))
  }

  /** Takes a token if there is one; a refused request leaves the bucket alone. */
  function Take(b: Bucket, now: int): (Bucket, bool) {
    if LevelAt(b, now) >= MINUTE then (Bucket(LevelAt(b, now) - MINUTE, now), true) else (b, false)
  }

  /** The position of the last colon, or None. */
  function LastColon(s: string): (k: Option<nat>)
    ensures k.Some? ==> k.value < |s| && s[k.value] == ':' && forall j | k.value < j < |s| :: s[j] != ':'
    ensures k.None? ==> forall j | 0 <= j < |s| :: s[j] != ':'
  {
    if s == "" then None
    else if s[|s| - 1] == ':' then Some(|s| - 1)
    else LastColon(s[..|s| - 1])
  }

  /** The address without its port. */
  function VisitorKey(remoteAddr: string): string {
    var k := LastColon(remoteAddr);
    if k.Some? then remoteAddr[..k.value] else remoteAddr
  }

  /** `host:port` addresses share a bucket exactly when their hosts are equal. */
  lemma SameHostSameBucket(host1: string, port1: string, host2: string, port2: string)
    requires ':' !in port1 && ':' !in port2
    ensures VisitorKey(host1 + ":" + port1) == VisitorKey(host2 + ":" + port2) <==> host1 == host2
  {
    KeyIsHost(host1, port1);
    KeyIsHost(host2, port2);
  }

  /** An address without a port is its own key. */
  lemma BareAddressIsKey(address: string)
    requires ':' !in address
    ensures VisitorKey(address) == address
  {
  }

  lemma KeyIsHost(host: string, port: string)
    requires ':' !in port
    ensures VisitorKey(host + ":" + port) == host
  {
    var s := host + ":" + port;
    assert s[|host|] == ':' && forall j | |host| < j < |s| :: s[j] == port[j - |host| - 1];
    assert s[..|host|] == host;
  }

  class RateLimiters {
    var visitors: map<string, Bucket>

    constructor ()
      ensures visitors == map[]
    {
      visitors := map[];
    }

    /** One request: finds or creates the visitor's bucket and asks it. */
    method Allow(remoteAddr: string, now: int) returns (allowed: bool)
      modifies this
      ensures (visitors, allowed) == Admit(old(visitors), Arrival(remoteAddr, now))
      // A visitor keeps the one bucket it has; no other visitor's is touched.
      ensures visitors.Keys == old(visitors).Keys + {VisitorKey(remoteAddr)}
      ensures forall ip | ip in old(visitors) && ip != VisitorKey(remoteAddr) :: visitors[ip] == old(visitors)[ip]
    {
      var ip := VisitorKey(remoteAddr);
      if ip !in visitors {
        visitors := visitors[ip := Bucket(BURST * MINUTE, now)];
      }
      var (bucket, ok) := Take(visitors[ip], now);
      visitors := visitors[ip := bucket];
      assert visitors == old(visitors)[ip := bucket];
      return ok;
    }
  }

  // ----- runs of requests

  datatype Arrival = Arrival(remoteAddr: string, now: int)

  function Admit(visitors: map<string, Bucket>, a: Arrival): (map<string, Bucket>, bool) {
    var ip := VisitorKey(a.remoteAddr);
    var (bucket, ok) := Take(if ip in visitors then visitors[ip] else Bucket(BURST * MINUTE, a.now), a.now);
    (visitors[ip := bucket], ok)
  }

  /** The buckets after the first n arrivals. */
  function After(arrivals: seq<Arrival>, n: nat): map<string, Bucket>
    requires n <= |arrivals|
  {
    if n == 0 then map[] else Admit(After(arrivals, n - 1), arrivals[n - 1]).0
  }

  predicate Admitted(arrivals: seq<Arrival>, i: nat)
    requires i < |arrivals|
  {
    Admit(After(arrivals, i), arrivals[i]).1
  }

  /** How many of the arrivals from position `from` up to n were the visitor's and admitted. */
  function Count(arrivals: seq<Arrival>, ip: string, from: nat, n: nat): nat
    requires from <= n <= |arrivals|
  {
    if n == from then 0
    else
      Count(arrivals, ip, from, n - 1)
      + (if VisitorKey(arrivals[n - 1].remoteAddr) == ip && Admitted(arrivals, n - 1) then 1 else 0)
  }

  ghost predicate Chronological(arrivals: seq<Arrival>) {
    forall i, j | 0 <= i < j < |arrivals| :: arrivals[i].now <= arrivals[j].now
  }

  /** What a visitor could still spend at the given time. */
  function Budget(visitors: map<string, Bucket>, ip: string, now: int): int {
    if ip in visitors then LevelAt(visitors[ip], now) else BURST * MINUTE
  }

  lemma {:induction false} BucketsAreSound(arrivals: seq<Arrival>, n: nat)
    requires Chronological(arrivals) && n <= |arrivals|
    ensures forall ip | ip in After(arrivals, n) ::
      var b := After(arrivals, n)[ip]; 0 <= b.level && n > 0 && b.last <= arrivals[n - 1].now
  {
    if n > 0 {
      BucketsAreSound(arrivals, n - 1);
    }
  }

  /** One arrival takes a token from its visitor's budget if it is admitted, and from no other. */
  lemma Spends(visitors: map<string, Bucket>, a: Arrival, ip: string)
    requires ip in visitors ==> visitors[ip].last <= a.now
    ensures var (after, ok) := Admit(visitors, a);
      && Budget(after, ip, a.now) ==
         Budget(visitors, ip, a.now) - (if VisitorKey(a.remoteAddr) == ip && ok then MINUTE else 0)
      && (VisitorKey(a.remoteAddr) == ip ==> (ok <==> Budget(visitors, ip, a.now) >= MINUTE))
  {
  }

  /** Time refills a budget up to the burst. */
  lemma Refills(visitors: map<string, Bucket>, ip: string, t: int, later: int)
    requires t <= later && (ip in visitors ==> visitors[ip].last <= t)
    ensures Budget(visitors, ip, later) == Min(BURST * MINUTE, Budget(visitors, ip, t) + (later - t))
  {
  }

  lemma {:induction false} SpendingBound(arrivals: seq<Arrival>, ip: string, from: nat, n: nat)
    requires Chronological(arrivals) && from < n <= |arrivals|
    ensures var now := arrivals[n - 1].now;
      Count(arrivals, ip, from, n) * MINUTE + Budget(After(arrivals, n), ip, now) <=
      BURST * MINUTE + (now - arrivals[from].now)
    ensures Budget(After(arrivals, n), ip, arrivals[n - 1].now) >= 0
  {
    BucketsAreSound(arrivals, n - 1);
    var before, now := After(arrivals, n - 1), arrivals[n - 1].now;
    Spends(before, arrivals[n - 1], ip);
    if n - 1 > from {
      SpendingBound(arrivals, ip, from, n - 1);
      Refills(before, ip, arrivals[n - 2].now, now);
    } else {
      assert Count(arrivals, ip, from, n - 1) == 0;
    }
  }

  /**
   The rate bound: whatever arrives in between from other visitors, one visitor's admitted
   requests in any window number at most ten plus the full minutes the window lasts.
  */
  lemma RateBound(arrivals: seq<Arrival>, ip: string, from: nat, n: nat)
    requires Chronological(arrivals) && from < n <= |arrivals|
    ensures Count(arrivals, ip, from, n) <= 10 + (arrivals[n - 1].now - arrivals[from].now) / 60_000_000_000
  {
    SpendingBound(arrivals, ip, from, n);
  }

  /** Had the window from `from` to arrival n one more admission, the bound would be broken. */
  ghost predicate WindowIsFull(arrivals: seq<Arrival>, ip: string, from: nat, n: nat)
    requires from <= n < |arrivals|
  {
    (Count(arrivals, ip, from, n) + 1) * MINUTE > BURST * MINUTE + (arrivals[n].now - arrivals[from].now)
  }

  /** There was a moment at which the bucket was full, and nothing has been lost to the brim since. */
  lemma {:induction false} FullSince(arrivals: seq<Arrival>, ip: string, n: nat) returns (from: nat)
    requires Chronological(arrivals) && n < |arrivals|
    ensures from <= n
    ensures Budget(After(arrivals, n), ip, arrivals[n].now) ==
            BURST * MINUTE + (arrivals[n].now - arrivals[from].now) - Count(arrivals, ip, from, n) * MINUTE
  {
    if n == 0 {
      from := 0;
    } else {
      from := FullSince(arrivals, ip, n - 1);
      BucketsAreSound(arrivals, n - 1);
      BucketsAreSound(arrivals, n);
      Spends(After(arrivals, n - 1), arrivals[n - 1], ip);
      Refills(After(arrivals, n), ip, arrivals[n - 1].now, arrivals[n].now);
      if Budget(After(arrivals, n), ip, arrivals[n].now) == BURST * MINUTE {
        from := n;
      }
    }
  }

  /**
   And no more is refused than that: a request is turned away exactly when admitting it would
   break the bound for some window ending with it.
  */
  lemma RefusedExactlyWhenSpent(arrivals: seq<Arrival>, n: nat)
    requires Chronological(arrivals) && n < |arrivals|
    ensures var ip := VisitorKey(arrivals[n].remoteAddr);
      !Admitted(arrivals, n) <==> exists from: nat :: from <= n && WindowIsFull(arrivals, ip, from, n)
    ensures forall ip, from: nat | from <= n ::
      WindowIsFull(arrivals, ip, from, n) <==>
      Count(arrivals, ip, from, n) + 1 > 10 + (arrivals[n].now - arrivals[from].now) / 60_000_000_000
  {
    var ip := VisitorKey(arrivals[n].remoteAddr);
    if Admitted(arrivals, n) {
      forall from: nat | from <= n
        ensures !WindowIsFull(arrivals, ip, from, n)
      {
        SpendingBound(arrivals, ip, from, n + 1);
      }
    } else {
      var from := FullSince(arrivals, ip, n);
      assert WindowIsFull(arrivals, ip, from, n);
    }
  }
}
