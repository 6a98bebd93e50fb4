/**
  Rate limits (src/auth.rs), over the reals. The time of a check is read before the lock is taken, so in the
  order of the lock times may go back; `Instant::duration_since` is then zero, and nothing here assumes otherwise.
 */
module TokenBucket {

  datatype Limits = Limits(capacity: real, rate: real) {
    predicate Valid() {
      capacity >= 0.0 && rate >= 0.0
    }
  }

  /** `Instant::duration_since`, which saturates at zero. */
  function Elapsed(start: real, end: real): (r: real) {
    if end > start then end - start else 0.0
  }

  function Min(a: real, b: real): (r: real) {
    if a <= b then a else b
  }

  // ---- What a bucket decides, from the times it is asked ----

  /**
    Tokens just before the decision at `times[n]`. The bucket was created full at `times[0]`, where nothing is
    decided; the checks follow in the order of the lock.
   */
  function Level(l: Limits, times: seq<real>, n: nat): (r: real)
    requires n < |times|
  {
    if n == 0 then l.capacity
    else Min(Spend(n - 1, Level(l, times, n - 1)) + Earned(l, times[n - 1], times[n]), l.capacity)
  }

  /** Tokens that come in between two moments. */
  function Earned(l: Limits, since: real, now: real): (r: real) {
    Elapsed(since, now) * l.rate
  }

  predicate Decides(n: nat, level: real) {
    n > 0 && level >= 1.0
  }

  function Spend(n: nat, level: real): (r: real) {
    if Decides(n, level) then level - 1.0 else level
  }

  predicate Granted(l: Limits, times: seq<real>, n: nat)
    requires n < |times|
  {
    Decides(n, Level(l, times, n))
  }

  /** Tokens just after the decision. */
  function Left(l: Limits, times: seq<real>, n: nat): (r: real)
    requires n < |times|
  {
    Spend(n, Level(l, times, n))
  }

  /** Grants at the checks from `start` up to but not including `end`. */
  function Grants(l: Limits, times: seq<real>, start: nat, end: nat): (r: int)
    requires start <= end <= |times|
    decreases end
  {
    if start == end then 0
    else Grants(l, times, start, end - 1) + if Granted(l, times, end - 1) then 1 else 0
  }

  /** Time that passed between two checks, not counting steps back. */
  function Forward(times: seq<real>, start: nat, end: nat): (r: real)
    requires start <= end < |times|
    decreases end
  {
    if start == end then 0.0 else Forward(times, start, end - 1) + Elapsed(times[end - 1], times[end])
  }

  /** Total of the steps back. */
  function Backward(times: seq<real>, start: nat, end: nat): (r: real)
    requires start <= end < |times|
    decreases end
  {
    if start == end then 0.0 else Backward(times, start, end - 1) + Elapsed(times[end], times[end - 1])
  }

  /** Tokens that came in between two checks. */
  function Earnings(l: Limits, times: seq<real>, start: nat, end: nat): (r: real)
    requires start <= end < |times|
    decreases end
  {
    if start == end then 0.0 else Earnings(l, times, start, end - 1) + Earned(l, times[end - 1], times[end])
  }

  /** What the window from `start` to `end` allows and has not used before `end`. */
  function Allowance(l: Limits, times: seq<real>, start: nat, end: nat): (r: real)
    requires start <= end < |times|
  {
    l.capacity + Earnings(l, times, start, end) - Grants(l, times, start, end) as real
  }

  /** What `time` seconds allow. */
  function Budget(l: Limits, time: real): (r: real) {
    l.capacity + l.rate * time
  }

  lemma Distribute(a: real, b: real, c: real)
    ensures a * (b + c) == a * b + c * a
  {
  }

  lemma {:induction false} EarningsAreRateTimesTime(l: Limits, times: seq<real>, start: nat, n: nat)
    requires start <= n < |times|
    ensures Earnings(l, times, start, n) == l.rate * Forward(times, start, n)
    ensures l.capacity + Earnings(l, times, start, n) == Budget(l, Forward(times, start, n))
    decreases n
  {
    if start < n {
      EarningsAreRateTimesTime(l, times, start, n - 1);
      Distribute(l.rate, Forward(times, start, n - 1), Elapsed(times[n - 1], times[n]));
    }
  }

  // ---- Exactness ----

  /** No window allows less than the level. */
  lemma {:induction false} LevelIsWithin(l: Limits, times: seq<real>, start: nat, n: nat)
    requires start <= n < |times| && l.Valid()
    ensures Level(l, times, n) <= Allowance(l, times, start, n)
    decreases n
  {
    if start < n {
      LevelIsWithin(l, times, start, n - 1);
    }
  }

  /** And some window allows exactly that. */
  lemma {:induction false} TightestWindow(l: Limits, times: seq<real>, n: nat) returns (start: nat)
    requires n < |times| && l.Valid()
    ensures start <= n && Level(l, times, n) == Allowance(l, times, start, n)
  {
    if n == 0 || Level(l, times, n) == l.capacity {
      start := n;
    } else {
      start := TightestWindow(l, times, n - 1);
    }
  }

  /** The level is the minimum of the allowances of all windows that end at the check. */
  lemma LevelIsTheMinimum(l: Limits, times: seq<real>, n: nat, level: real)
    requires n < |times| && l.Valid()
    ensures level == Level(l, times, n) <==>
            && (forall start: nat | start <= n :: level <= Allowance(l, times, start, n))
            && (exists start: nat :: start <= n && level == Allowance(l, times, start, n))
  {
    var tight := TightestWindow(l, times, n);
    forall start: nat | start <= n ensures Level(l, times, n) <= Allowance(l, times, start, n) {
      LevelIsWithin(l, times, start, n);
    }
  }

  /** A check is denied exactly when one more grant would take some window over its allowance. */
  lemma DeniedExactlyWhenAWindowIsFull(l: Limits, times: seq<real>, n: nat)
    requires 0 < n < |times| && l.Valid()
    ensures !Granted(l, times, n) <==>
            exists start: nat :: start <= n && Grants(l, times, start, n) as real + 1.0 > Budget(l, Forward(times, start, n))
  {
    var tight := TightestWindow(l, times, n);
    if Granted(l, times, n) {
      forall start: nat | start <= n
        ensures Grants(l, times, start, n) as real + 1.0 <= Budget(l, Forward(times, start, n))
      {
        LevelIsWithin(l, times, start, n);
        EarningsAreRateTimesTime(l, times, start, n);
      }
    } else {
      EarningsAreRateTimesTime(l, times, tight, n);
      assert Grants(l, times, tight, n) as real + 1.0 > Budget(l, Forward(times, tight, n));
    }
  }

  lemma {:induction false} LevelIsNotNegative(l: Limits, times: seq<real>, n: nat)
    requires n < |times| && l.Valid()
    ensures Level(l, times, n) >= 0.0
  {
    if n > 0 {
      LevelIsNotNegative(l, times, n - 1);
      assert Earned(l, times[n - 1], times[n]) >= 0.0;
    }
  }

  /** Grants in any window, both ends included, in the time that passed forwards. */
  lemma WindowBound(l: Limits, times: seq<real>, start: nat, n: nat)
    requires start <= n < |times| && l.Valid()
    ensures Grants(l, times, start, n + 1) as real <= Budget(l, Forward(times, start, n))
  {
    LevelIsWithin(l, times, start, n);
    LevelIsNotNegative(l, times, n);
    EarningsAreRateTimesTime(l, times, start, n);
  }

  lemma {:induction false} ForwardLessBackward(times: seq<real>, start: nat, n: nat)
    requires start <= n < |times|
    ensures Forward(times, start, n) == times[n] - times[start] + Backward(times, start, n)
    ensures (forall i | start < i <= n :: times[i - 1] <= times[i]) ==> Backward(times, start, n) == 0.0
    decreases n
  {
    if start < n { ForwardLessBackward(times, start, n - 1); }
  }

  /** In clock time: the rate buys the length of the window and every step back inside it. */
  lemma ClockBound(l: Limits, times: seq<real>, start: nat, n: nat, time: real)
    requires start <= n < |times| && l.Valid() && time == times[n] - times[start] + Backward(times, start, n)
    ensures Grants(l, times, start, n + 1) as real <= Budget(l, time)
  {
    assert Forward(times, start, n) == time by { ForwardLessBackward(times, start, n); }
    WindowBound(l, times, start, n);
  }

  /** With times that never go back, just the length of the window. */
  lemma OrderedClockBound(l: Limits, times: seq<real>, start: nat, n: nat, time: real)
    requires start <= n < |times| && l.Valid() && time == times[n] - times[start]
    requires forall i | start < i <= n :: times[i - 1] <= times[i]
    ensures Grants(l, times, start, n + 1) as real <= Budget(l, time)
  {
    assert Forward(times, start, n) == time by { ForwardLessBackward(times, start, n); }
    WindowBound(l, times, start, n);
  }

  // ---- When the bucket was created does not matter ----

  /** A bucket created at its first check decides as one that has been full since any earlier or later moment. */
  lemma {:induction false} CreationDoesNotMatter(l: Limits, s: real, t: real, checks: seq<real>, n: nat)
    requires 0 < n <= |checks| && l.Valid()
    ensures Level(l, [s] + checks, n) == Level(l, [t] + checks, n)
  {
    if n == 1 {
      assert Earned(l, s, checks[0]) >= 0.0 && Earned(l, t, checks[0]) >= 0.0;
    } else {
      CreationDoesNotMatter(l, s, t, checks, n - 1);
      assert ([s] + checks)[n] == ([t] + checks)[n] && ([s] + checks)[n - 1] == ([t] + checks)[n - 1];
    }
  }

  /** Decisions depend only on what came before. */
  lemma {:induction false} LevelOfPrefix(l: Limits, times: seq<real>, more: seq<real>, n: nat)
    requires n < |times|
    ensures Level(l, times + more, n) == Level(l, times, n)
  {
    if n > 0 {
      LevelOfPrefix(l, times, more, n - 1);
      assert (times + more)[n - 1] == times[n - 1] && (times + more)[n] == times[n];
    }
  }

  // ---- The limiters ----

  class Bucket {
    var tokens: real
    var updatedAt: real

    constructor Full(capacity: real, now: real)
      ensures tokens == capacity && updatedAt == now
    {
      tokens, updatedAt := capacity, now;
    }

    /** The bucket as the checks at `times` leave it. */
    ghost predicate Follows(l: Limits, times: seq<real>)
      reads this
    {
      |times| > 0 && updatedAt == times[|times| - 1] && tokens == Left(l, times, |times| - 1)
    }

    method Take(l: Limits, now: real, ghost times: seq<real>) returns (ok: bool)
      requires Follows(l, times)
      modifies this
      ensures Follows(l, times + [now])
      ensures ok <==> Granted(l, times + [now], |times|)
    {
      ghost var n := |times|;
      LevelOfPrefix(l, times, [now], n - 1);
      assert (times + [now])[n - 1] == updatedAt;
      tokens := Min(tokens + Earned(l, updatedAt, now), l.capacity);
      assert tokens == Level(l, times + [now], n);
      updatedAt := now;
      if tokens < 1.0 { return false; }
      tokens := tokens - 1.0;
      return true;
    }
  }

  type CredentialId(==) = string

  /** Creation and checks of a bucket that was created when first needed. */
  function Timeline(checks: seq<real>, now: real): (times: seq<real>)
    ensures |times| == |checks| + 1
  {
    [if checks == [] then now else checks[0]] + checks
  }

  lemma SameDecision(l: Limits, startup: real, checks: seq<real>, now: real)
    requires l.Valid()
    ensures Timeline(checks, now) + [now] == Timeline(checks + [now], now)
    ensures forall t :: Timeline(checks + [now], t) == Timeline(checks + [now], now)
    ensures Granted(l, Timeline(checks, now) + [now], |checks| + 1) <==> Granted(l, [startup] + (checks + [now]), |checks| + 1)
  {
    var all := checks + [now];
    assert Timeline(checks, now) + [now] == [all[0]] + all;
    CreationDoesNotMatter(l, startup, all[0], all, |all|);
  }

  class RateLimiter {
    const limits: Limits
    var buckets: map<CredentialId, Bucket>
    /** When each credential was checked, in the order of the lock. */
    ghost var checks: map<CredentialId, seq<real>>

    ghost predicate Valid()
      reads this, buckets.Values
    {
      && limits.Valid() && buckets.Keys == checks.Keys
      && (forall c, d | c in buckets && d in buckets && c != d :: buckets[c] != buckets[d])
      && forall c | c in buckets :: |checks[c]| > 0 && buckets[c].Follows(limits, Timeline(checks[c], 0.0))
    }

    constructor (requestsPerMinute: nat, burst: nat)
      ensures Valid() && checks == map[]
      ensures limits == Limits(burst as real, requestsPerMinute as real / 60.0)
    {
      limits := Limits(burst as real, requestsPerMinute as real / 60.0);
      buckets, checks := map[], map[];
    }

    /**
      The decision is that of a bucket of this credential's own, full since whatever moment `startup` names: checks of
      other credentials have no part in it.
     */
    method Check(id: CredentialId, now: real, ghost startup: real) returns (ok: bool)
      requires Valid()
      modifies this`buckets, this`checks, buckets.Values
      ensures Valid()
      ensures checks == old(checks)[id := (if id in old(checks) then old(checks[id]) else []) + [now]]
      ensures ok <==> Granted(limits, [startup] + checks[id], |checks[id]|)
    {
      ghost var before := if id in checks then checks[id] else [];
      var bucket := BucketOf(id, now);
      assert bucket.Follows(limits, Timeline(before, now));
      ok := bucket.Take(limits, now, Timeline(before, now));
      checks := checks[id := before + [now]];
      SameDecision(limits, startup, before, now);
    }

    /** `entry(..).or_insert_with(..)`: the credential's bucket, made full now when it has none. */
    method BucketOf(id: CredentialId, now: real) returns (bucket: Bucket)
      requires Valid()
      modifies this`buckets
      ensures buckets == old(buckets)[id := bucket]
      ensures id in old(buckets) ==> bucket == old(buckets[id])
      ensures id !in old(buckets) ==> fresh(bucket) && bucket.Follows(limits, [now])
      ensures forall c | c in old(buckets) && c != id :: old(buckets[c]) != bucket
    {
      if id !in buckets {
        bucket := new Bucket.Full(limits.capacity, now);
        buckets := buckets[id := bucket];
      } else {
        bucket := buckets[id];
      }
    }
  }

  class WriteRateLimiter {
    const limits: Limits
    const bucket: Bucket
    /** Creation, then every check. */
    ghost var times: seq<real>

    ghost predicate Valid()
      reads this, bucket
    {
      limits.Valid() && bucket.Follows(limits, times)
    }

    constructor (writesPerHour: nat, now: real)
      ensures Valid() && fresh(bucket) && times == [now] && limits == WriteLimits(writesPerHour)
    {
      limits := WriteLimits(writesPerHour);
      bucket := new Bucket.Full(writesPerHour as real, now);
      times := [now];
    }

    method Check(now: real) returns (ok: bool)
      requires Valid()
      modifies this`times, bucket
      ensures Valid() && times == old(times) + [now]
      ensures ok <==> Granted(limits, times, |times| - 1)
    {
      ok := bucket.Take(limits, now, times);
      times := times + [now];
    }
  }

  function WriteLimits(writesPerHour: nat): (r: Limits) {
    Limits(writesPerHour as real, writesPerHour as real / 3_600.0)
  }

  lemma AnHourDoubles(w: real, time: real)
    requires w >= 0.0 && time <= 3_600.0
    ensures Budget(Limits(w, w / 3_600.0), time) <= 2.0 * w
  {
    assert w / 3_600.0 * time <= w / 3_600.0 * 3_600.0;
  }

  lemma Doubled(grants: int, w: nat)
    requires grants as real <= 2.0 * w as real
    ensures grants <= 2 * w
  {
    assert 2.0 * w as real == (2 * w) as real;
  }

  /** Any hour grants at most twice the hourly number of writes. */
  lemma AnyHourGrantsAtMostTwice(writesPerHour: nat, times: seq<real>, start: nat, n: nat)
    requires start <= n < |times| && Forward(times, start, n) <= 3_600.0
    ensures Grants(WriteLimits(writesPerHour), times, start, n + 1) <= 2 * writesPerHour
  {
    var w, time := writesPerHour as real, Forward(times, start, n);
    var grants := Grants(WriteLimits(writesPerHour), times, start, n + 1);
    assert grants as real <= 2.0 * w by {
      WindowBound(WriteLimits(writesPerHour), times, start, n);
      AnHourDoubles(w, time);
    }
    Doubled(grants, writesPerHour);
  }

  /** Creation, as many checks as the bucket holds at once, and as many again an hour later. */
  function TwoBursts(w: nat): (r: seq<real>) {
    seq(2 * w + 1, i requires 0 <= i < 2 * w + 1 => if i <= w then 0.0 else 3_600.0)
  }

  lemma AnHourRefills(w: nat)
    ensures Earned(WriteLimits(w), 0.0, 3_600.0) == w as real
    ensures Earned(WriteLimits(w), 0.0, 0.0) == 0.0 && Earned(WriteLimits(w), 3_600.0, 3_600.0) == 0.0
  {
    assert w as real / 3_600.0 * 3_600.0 == w as real;
  }

  /** What the bucket holds at each check: it is emptied, refilled, and emptied again. */
  lemma {:induction false} BurstLevels(w: nat, n: nat)
    requires w > 0 && n <= 2 * w
    ensures Level(WriteLimits(w), TwoBursts(w), n) ==
            if n == 0 then w as real else if n <= w then (w - n + 1) as real else (2 * w - n + 1) as real
    ensures Granted(WriteLimits(w), TwoBursts(w), n) <==> n > 0
  {
    if n > 0 {
      BurstLevels(w, n - 1);
      AnHourRefills(w);
    }
  }

  lemma {:induction false} BurstGrants(w: nat, n: nat)
    requires w > 0 && n <= 2 * w
    ensures Grants(WriteLimits(w), TwoBursts(w), 0, n + 1) == n
  {
    BurstLevels(w, n);
    if n > 0 { BurstGrants(w, n - 1); }
  }

  /** Twice is reached, whatever the limit: a full bucket, emptied, left alone for an hour and emptied again. */
  lemma TwiceIsReached(w: nat)
    ensures Forward(TwoBursts(w), 0, 2 * w) <= 3_600.0
    ensures Grants(WriteLimits(w), TwoBursts(w), 0, 2 * w + 1) == 2 * w
  {
    ForwardLessBackward(TwoBursts(w), 0, 2 * w);
    if w > 0 { BurstGrants(w, 2 * w); }
  }
}
