/** The sliding-window-log limiter of src/core/rate_limiter.py over a Redis sorted set. */
module RateLimiter {
  import opened Common

  /** How the pipeline to Redis went: it may raise with or without having taken effect. */
  datatype Outcome = Executed | RaisedBefore | RaisedAfter

  datatype Call = Call(now: real, connected: bool, outcome: Outcome)

  /** Scores, the last added one first. */
  datatype Scores = Nil | Cons(last: real, rest: Scores)

  function Size(log: Scores): nat {
    match log
    case Nil => 0
    case Cons(_, rest) => 1 + Size(rest)
  }

  /** One sorted set: the scores in it and, once set, the instant the key expires. */
  datatype Bucket = Bucket(log: Scores, deadline: Option<real>)

  // ---- One call ---------------------------------------------------------------

  /** ZREMRANGEBYSCORE -inf cutoff */
  function Trim(log: Scores, cutoff: real): Scores {
    match log
    case Nil => Nil
    case Cons(x, rest) => if x <= cutoff then Trim(rest, cutoff) else Cons(x, Trim(rest, cutoff))
  }

  /** What Redis still holds at an instant. */
  function Live(b: Bucket, now: real): Scores {
    if b.deadline.Some? && now >= b.deadline.value then Nil else b.log
  }

  /** ZADD, ZREMRANGEBYSCORE and EXPIRE in one transaction. */
  function Record(b: Bucket, now: real, window: real): Bucket {
    Bucket(Trim(Cons(now, Live(b, now)), now - window), Some(now + window))
  }

  predicate TakesEffect(c: Call) {
    c.connected && c.outcome != RaisedBefore
  }

  function After(b: Bucket, c: Call, window: real): Bucket {
    if TakesEffect(c) then Record(b, c.now, window) else b
  }

  predicate Allows(b: Bucket, c: Call, limit: nat, window: real) {
    c.connected && c.outcome == Executed && Size(Record(b, c.now, window).log) <= limit
  }

  /** How many entries with a score the set holds. */
  function Occurrences(log: Scores, x: real): nat {
    match log
    case Nil => 0
    case Cons(y, rest) => (if x == y then 1 else 0) + Occurrences(rest, x)
  }

  /** What one call leaves in the set, score by score: the call is added, entries a window old or older
      go, and all entries go if the key had expired; the key then lives for one more window. */
  ghost predicate IsRecorded(before: Bucket, now: real, window: real, after: Bucket) {
    after.deadline == Some(now + window) &&
    forall x :: Occurrences(after.log, x) ==
                if x <= now - window then 0
                else (if x == now then 1 else 0) +
                     (if before.deadline.Some? && before.deadline.value <= now then 0 else Occurrences(before.log, x))
  }

  lemma {:induction false} TrimOccurrences(log: Scores, cutoff: real, x: real)
    ensures Occurrences(Trim(log, cutoff), x) == if x <= cutoff then 0 else Occurrences(log, x)
  {
    if log.Cons? { TrimOccurrences(log.rest, cutoff, x); }
  }

  lemma RecordIsRecorded(b: Bucket, now: real, window: real)
    ensures IsRecorded(b, now, window, Record(b, now, window))
  {
    forall x ensures Occurrences(Record(b, now, window).log, x) ==
                     if x <= now - window then 0
                     else (if x == now then 1 else 0) + Occurrences(Live(b, now), x)
    {
      TrimOccurrences(Cons(now, Live(b, now)), now - window, x);
    }
  }

  class Limiter {
    var buckets: map<string, Bucket>
    const defaultRequests: nat
    const defaultWindow: nat
    const testing: bool

    constructor (defaultRequests: nat, defaultWindow: nat, testing: bool)
      ensures buckets == map[]
      ensures this.defaultRequests == defaultRequests && this.defaultWindow == defaultWindow && this.testing == testing
    {
      buckets := map[];
      this.defaultRequests, this.defaultWindow, this.testing := defaultRequests, defaultWindow, testing;
    }

    function Limit(requests: nat): nat { if requests == 0 then defaultRequests else requests }

    function Window(window: nat): nat { if window == 0 then defaultWindow else window }

    function BucketOf(key: string): Bucket
      reads this
    {
      if key in buckets then buckets[key] else Bucket(Nil, None)
    }

    /** One check of one key; `call` says when it happens and how Redis behaves. An argument of 0
        stands for an absent one. */
    method CheckRateLimit(key: string, requests: nat, window: nat, call: Call) returns (allowed: bool)
      modifies this
      ensures testing ==> allowed && buckets == old(buckets)
      ensures !testing && (!call.connected || call.outcome == RaisedBefore) ==> !allowed && buckets == old(buckets)
      ensures !testing && call.connected && call.outcome == RaisedAfter ==> !allowed
      ensures !testing && call.connected && call.outcome != RaisedBefore ==>
                var span := if window == 0 then defaultWindow else window;
                key in buckets && IsRecorded(old(BucketOf(key)), call.now, span as real, buckets[key])
      ensures !testing && call.connected && call.outcome == Executed ==>
                (allowed <==> Size(BucketOf(key).log) <= if requests == 0 then defaultRequests else requests)
      ensures !testing ==> BucketOf(key) == After(old(BucketOf(key)), call, Window(window) as real)
      ensures !testing ==> allowed == Allows(old(BucketOf(key)), call, Limit(requests), Window(window) as real)
      ensures forall k | k != key :: BucketOf(k) == old(BucketOf(k))
    {
      var limit, span := Limit(requests), Window(window);
      if testing {
        return true;
      }
      if !call.connected {
        return false;
      }
      if call.outcome == RaisedBefore {
        return false;
      }
      var now := call.now;
      var windowStart := now - span as real;
      RecordIsRecorded(BucketOf(key), now, span as real);
      var log := Live(BucketOf(key), now);
      log := Cons(now, log);
      log := Trim(log, windowStart);
      var count := Size(log);
      buckets := buckets[key := Bucket(log, Some(now + span as real))];
      if call.outcome == RaisedAfter {
        return false;
      }
      allowed := count <= limit;
    }
  }

  // ---- Whole runs on one key -----------------------------------------------------

  /** The clock never runs backwards. */
  ghost predicate Monotone(calls: seq<Call>) {
    forall i, j | 0 <= i < j < |calls| :: calls[i].now <= calls[j].now
  }

  /** The bucket after the first `n` calls of a run. */
  function Run(calls: seq<Call>, n: nat, window: real): Bucket
    requires n <= |calls|
  {
    if n == 0 then Bucket(Nil, None) else After(Run(calls, n - 1, window), calls[n - 1], window)
  }

  /** The limiter's answer to call `i` of a run. */
  predicate Decision(calls: seq<Call>, i: nat, limit: nat, window: real)
    requires i < |calls|
  {
    Allows(Run(calls, i, window), calls[i], limit, window)
  }

  /** The instants of those of the first `n` calls that reached Redis, rejected ones included. */
  function Attempts(calls: seq<Call>, n: nat): Scores
    requires n <= |calls|
  {
    if n == 0 then Nil
    else if TakesEffect(calls[n - 1]) then Cons(calls[n - 1].now, Attempts(calls, n - 1))
    else Attempts(calls, n - 1)
  }

  /** How many of the first `n` calls reached Redis strictly after an instant, rejected ones included. */
  function AttemptsSince(calls: seq<Call>, n: nat, cutoff: real): nat
    requires n <= |calls|
  {
    if n == 0 then 0
    else
      var c := calls[n - 1];
      AttemptsSince(calls, n - 1, cutoff) + (if c.connected && c.outcome != RaisedBefore && c.now > cutoff then 1 else 0)
  }

  // ---- Trimming --------------------------------------------------------------------

  lemma {:induction false} TrimTwice(a: Scores, c: real, d: real)
    requires c <= d
    ensures Trim(Trim(a, c), d) == Trim(a, d)
  {
    if a.Cons? { TrimTwice(a.rest, c, d); }
  }

  ghost predicate NoneAfter(a: Scores, t: real) {
    a.Cons? ==> a.last <= t && NoneAfter(a.rest, t)
  }

  lemma {:induction false} TrimAll(a: Scores, t: real, cutoff: real)
    requires NoneAfter(a, t) && t <= cutoff
    ensures Trim(a, cutoff) == Nil
  {
    if a.Cons? { TrimAll(a.rest, t, cutoff); }
  }

  lemma {:induction false} AttemptsAreCalls(calls: seq<Call>, n: nat, t: real)
    requires n <= |calls| && forall i | 0 <= i < n :: calls[i].now <= t
    ensures NoneAfter(Attempts(calls, n), t)
  {
    if n > 0 { AttemptsAreCalls(calls, n - 1, t); }
  }

  lemma {:induction false} TrimmedSize(calls: seq<Call>, n: nat, cutoff: real)
    requires n <= |calls|
    ensures Size(Trim(Attempts(calls, n), cutoff)) == AttemptsSince(calls, n, cutoff)
  {
    if n > 0 { TrimmedSize(calls, n - 1, cutoff); }
  }

  // ---- The log is exact --------------------------------------------------------------

  /** One recorded attempt: if the log agreed with the attempts on the window before it, what is
      left of the log agrees with them on any later window, by trimming and by key expiry alike. */
  lemma RecordingIsExact(b: Bucket, attempts: Scores, now: real, window: real, t: real)
    requires now <= t && Trim(Live(b, now), now - window) == Trim(attempts, now - window)
    requires NoneAfter(attempts, now)
    ensures Trim(Live(Record(b, now, window), t), t - window) == Trim(Cons(now, attempts), t - window)
  {
    if t >= now + window {
      TrimAll(Cons(now, attempts), now, t - window);
    } else {
      LaterTrim(Live(b, now), attempts, now, now - window, t - window);
    }
  }

  lemma LaterTrim(log: Scores, attempts: Scores, now: real, c: real, d: real)
    requires c <= d && Trim(log, c) == Trim(attempts, c)
    ensures Trim(Trim(Cons(now, log), c), d) == Trim(Cons(now, attempts), d)
  {
    TrimTwice(Cons(now, log), c, d);
    TrimTwice(log, c, d);
    TrimTwice(attempts, c, d);
  }

  /** At any later instant, what is left of the stored log inside the window is exactly the
      attempts inside the window: neither trimming nor key expiry ever loses one. */
  lemma {:induction false} LogIsExact(calls: seq<Call>, n: nat, window: real, t: real)
    requires Monotone(calls) && n <= |calls| && forall i | 0 <= i < n :: calls[i].now <= t
    ensures Trim(Live(Run(calls, n, window), t), t - window) == Trim(Attempts(calls, n), t - window)
  {
    if n > 0 {
      var c := calls[n - 1];
      if TakesEffect(c) {
        LogIsExact(calls, n - 1, window, c.now);
        AttemptsAreCalls(calls, n - 1, c.now);
        RecordingIsExact(Run(calls, n - 1, window), Attempts(calls, n - 1), c.now, window, t);
      } else {
        LogIsExact(calls, n - 1, window, t);
      }
    }
  }

  /** The plain rule: Redis executes the call, and at most `limit` attempts, the call's own included,
      fall in the last `window` time units. */
  predicate PlainRule(calls: seq<Call>, i: nat, limit: nat, window: real)
    requires i < |calls|
  {
    calls[i].connected && calls[i].outcome == Executed &&
    AttemptsSince(calls, i + 1, calls[i].now - window) <= limit
  }

  /** The limiter implements the plain rule. */
  lemma DecisionIsPlainCount(calls: seq<Call>, i: nat, limit: nat, window: real)
    requires Monotone(calls) && i < |calls|
    ensures Decision(calls, i, limit, window) == PlainRule(calls, i, limit, window)
  {
    LogIsExact(calls, i, window, calls[i].now);
    if calls[i].connected && calls[i].outcome == Executed {
      TrimmedSize(calls, i + 1, calls[i].now - window);
    }
  }

  // ---- The promise: no window holds more than `limit` allowed calls ---------------------

  /** Whether call `i` lies in [from, from + window) and was allowed. */
  predicate Counted(calls: seq<Call>, i: nat, from: real, limit: nat, window: real)
    requires i < |calls|
  {
    from <= calls[i].now < from + window && Decision(calls, i, limit, window)
  }

  /** How many of the first `n` calls are. */
  function AllowedIn(calls: seq<Call>, n: nat, from: real, limit: nat, window: real): nat
    requires n <= |calls|
  {
    if n == 0 then 0
    else AllowedIn(calls, n - 1, from, limit, window) + (if Counted(calls, n - 1, from, limit, window) then 1 else 0)
  }

  lemma {:induction false} AllowedAreAttempts(calls: seq<Call>, n: nat, from: real, limit: nat, window: real, cutoff: real)
    requires n <= |calls| && cutoff < from
    ensures AllowedIn(calls, n, from, limit, window) <= AttemptsSince(calls, n, cutoff)
  {
    if n > 0 {
      AllowedAreAttempts(calls, n - 1, from, limit, window, cutoff);
    }
  }

  /** In every run and for every half-open interval of the window's length, at most `limit` calls
      in it were allowed. */
  lemma {:induction false} WindowBound(calls: seq<Call>, n: nat, from: real, limit: nat, window: real)
    requires Monotone(calls) && n <= |calls|
    ensures AllowedIn(calls, n, from, limit, window) <= limit
  {
    if n > 0 {
      if Counted(calls, n - 1, from, limit, window) {
        CountedBound(calls, n - 1, from, limit, window);
      } else {
        WindowBound(calls, n - 1, from, limit, window);
      }
    }
  }

  lemma CountedBound(calls: seq<Call>, i: nat, from: real, limit: nat, window: real)
    requires Monotone(calls) && i < |calls| && Counted(calls, i, from, limit, window)
    ensures AllowedIn(calls, i + 1, from, limit, window) <= limit
  {
    DecisionIsPlainCount(calls, i, limit, window);
    AllowedAreAttempts(calls, i + 1, from, limit, window, calls[i].now - window);
  }

  /** Half-open is essential: a call exactly one window after an allowed one is allowed again. */
  lemma ClosedWindowExceedsLimit()
    ensures var calls := [Call(0.0, true, Executed), Call(1.0, true, Executed)];
            Monotone(calls) && Decision(calls, 0, 1, 1.0) && Decision(calls, 1, 1, 1.0)
  {
    var calls := [Call(0.0, true, Executed), Call(1.0, true, Executed)];
    assert Run(calls, 0, 1.0) == Bucket(Nil, None);
    assert Run(calls, 1, 1.0) == Record(Bucket(Nil, None), 0.0, 1.0) == Bucket(Cons(0.0, Nil), Some(1.0));
  }

  // ---- Key expiry is invisible --------------------------------------------------------

  /** The log of the same limiter without EXPIRE, after the first `n` calls. */
  function RunForever(calls: seq<Call>, n: nat, window: real): Scores
    requires n <= |calls|
  {
    if n == 0 then Nil
    else
      var log, c := RunForever(calls, n - 1, window), calls[n - 1];
      if TakesEffect(c) then Trim(Cons(c.now, log), c.now - window) else log
  }

  predicate DecisionForever(calls: seq<Call>, i: nat, limit: nat, window: real)
    requires i < |calls|
  {
    calls[i].connected && calls[i].outcome == Executed &&
    Size(Trim(Cons(calls[i].now, RunForever(calls, i, window)), calls[i].now - window)) <= limit
  }

  lemma {:induction false} ForeverLogIsExact(calls: seq<Call>, n: nat, window: real, t: real)
    requires Monotone(calls) && n <= |calls| && forall i | 0 <= i < n :: calls[i].now <= t
    ensures Trim(RunForever(calls, n, window), t - window) == Trim(Attempts(calls, n), t - window)
  {
    if n > 0 {
      var c := calls[n - 1];
      if TakesEffect(c) {
        ForeverLogIsExact(calls, n - 1, window, c.now);
        LaterTrim(RunForever(calls, n - 1, window), Attempts(calls, n - 1), c.now, c.now - window, t - window);
      } else {
        ForeverLogIsExact(calls, n - 1, window, t);
      }
    }
  }

  /** Letting the key expire never changes an answer. */
  lemma ExpiryIsInvisible(calls: seq<Call>, i: nat, limit: nat, window: real)
    requires Monotone(calls) && i < |calls|
    ensures Decision(calls, i, limit, window) == DecisionForever(calls, i, limit, window)
  {
    LogIsExact(calls, i, window, calls[i].now);
    ForeverLogIsExact(calls, i, window, calls[i].now);
  }
}
