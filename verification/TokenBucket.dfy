/**
 The token bucket that keeps one timestamp instead of a level: `time` is the moment at which the
 bucket was empty. Times are microseconds in 64-bit words that wrap. Each call is one atomic step,
 whose first compare-exchange succeeds.
 */
module TokenBucket {
  import opened Numbers
  import opened Serial

  const TWO64: int := 0x1_0000_0000_0000_0000
  const MICROSECONDS := 1000000

  datatype Bucket = Bucket(time: uint64, timePerToken: uint64, timePerBurst: uint64)

  function Create(rate: uint64, burstSize: uint64): Bucket {
    var perToken := MICROSECONDS / Max(rate, 1);
    Bucket(0, perToken, U64(burstSize * perToken))
  }

  /** The settings: an empty bucket of time 0, in which `rate` tokens cost one second up to rounding down,
      any rate of more than a million tokens a second costs nothing, and a burst costs what its tokens
      cost. */
  lemma Settings(rate: uint64, size: uint64)
    ensures var b := Create(rate, size);
            && b.time == 0
            && (rate == 0 ==> b.timePerToken == 1000000)
            && (rate > 0 ==> rate * b.timePerToken <= 1000000 < rate * (b.timePerToken + 1))
            && (rate > 1000000 ==> b.timePerToken == 0)
            && (size * b.timePerToken < TWO64 ==> b.timePerBurst == size * b.timePerToken)
  {
    var b := Create(rate, size);
    NotNegative(size, b.timePerToken);
    if rate > 0 {
      Rounded(1000000, rate);
    }
  }

  lemma Rounded(a: nat, b: nat)
    requires b > 0
    ensures b * (a / b) <= a < b * (a / b + 1)
    ensures b > a ==> a / b == 0
  {
    assert a == b * (a / b) + a % b;
  }

  /** `consume` */
  function Consume(b: Bucket, now: uint64, tokens: uint64): (Bucket, bool) {
    var needed := U64(tokens * b.timePerToken);
    var minTime := U64(now - b.timePerBurst);
    var start := if minTime > b.time then minTime else b.time;
    var newTime := U64(start + needed);
    if newTime > now then (b, false) else (b.(time := newTime), true)
  }

  // ---------------------------------------------------------------- a plain bucket

  /** A bucket with a level that refills by one each microsecond up to the burst. */
  datatype Plain = Plain(level: nat, at: nat)

  function Refilled(p: Plain, now: nat, burst: nat): nat
    requires p.at <= now
  {
    Min(burst, p.level + (now - p.at))
  }

  function Take(p: Plain, now: nat, burst: nat, needed: nat): (Plain, bool)
    requires p.at <= now
  {
    var level := Refilled(p, now, burst);
    if needed <= level then (Plain(level - needed, now), true) else (Plain(level, now), false)
  }

  /** The timestamp stands for the level. */
  ghost predicate Encodes(b: Bucket, p: Plain) {
    b.time <= p.at && p.level == Min(b.timePerBurst, p.at - b.time)
  }

  /** The request does not overflow 64 bits. */
  predicate Small(b: Bucket, now: uint64, tokens: uint64) {
    now + tokens * b.timePerToken < TWO64
  }

  lemma CutSmall(x: int)
    requires 0 <= x < TWO64
    ensures U64(x) == x
  {
  }

  lemma NeedSmall(b: Bucket, now: uint64, tokens: uint64)
    requires Small(b, now, tokens)
    ensures 0 <= tokens * b.timePerToken == U64(tokens * b.timePerToken) < TWO64
  {
    NotNegative(tokens, b.timePerToken);
    CutSmall(tokens * b.timePerToken);
  }

  lemma NotNegative(a: nat, b: nat)
    ensures 0 <= a * b
  {
  }

  /** Once the clock has passed the burst time, every call does what the plain bucket does. */
  lemma ConsumeAgrees(b: Bucket, p: Plain, now: uint64, tokens: uint64)
    requires Encodes(b, p) && p.at <= now && b.timePerBurst <= now && Small(b, now, tokens)
    ensures var (b', r), (p', r') := Consume(b, now, tokens), Take(p, now, b.timePerBurst, tokens * b.timePerToken);
            r == r' && Encodes(b', p')
  {
    NeedSmall(b, now, tokens);
    var needed := tokens * b.timePerToken;
    CutSmall(now - b.timePerBurst);
    CutSmall(Max(now - b.timePerBurst, b.time) + needed);
    hide U64;
  }

  /** Earlier than that, a request is granted exactly if it is at least what the clock lacks and at most
      a whole burst, so a small request fails although a large one would not. */
  lemma EarlyConsume(b: Bucket, now: uint64, tokens: uint64)
    requires b.time <= now < b.timePerBurst && Small(b, now, tokens)
    ensures Consume(b, now, tokens).1
        <==> b.timePerBurst - now <= tokens * b.timePerToken <= b.timePerBurst
  {
    NeedSmall(b, now, tokens);
    var needed := tokens * b.timePerToken;
    CutSmall(now - b.timePerBurst + TWO64);
    WrapOnce(now - b.timePerBurst);
    if needed < b.timePerBurst - now {
      CutSmall(now - b.timePerBurst + TWO64 + needed);
    } else {
      WrapOnce(now - b.timePerBurst + needed);
    }
    hide U64;
  }

  lemma WrapOnce(x: int)
    requires -TWO64 <= x < TWO64
    ensures U64(x) == if x < 0 then x + TWO64 else x
    ensures x >= 0 ==> U64(x + TWO64) == x
  {
  }

  /** So a bucket agrees with the plain one on all requests exactly if its burst time has passed. */
  lemma AgreesExactlyAfterBurst(b: Bucket, now: uint64)
    requires b.time <= now
    ensures b.timePerBurst <= now
        <==> forall tokens: uint64 :: Small(b, now, tokens) ==> AgreesOn(b, now, tokens)
  {
    if b.timePerBurst <= now {
      forall tokens: uint64 | Small(b, now, tokens) ensures AgreesOn(b, now, tokens) {
        ConsumeAgrees(b, Plain(Min(b.timePerBurst, now - b.time), now), now, tokens);
      }
    } else {
      EarlyConsume(b, now, 0);
      assert Small(b, now, 0) && !AgreesOn(b, now, 0);
    }
  }

  ghost predicate AgreesOn(b: Bucket, now: uint64, tokens: uint64) {
    b.time <= now && (Consume(b, now, tokens).1 <==> tokens * b.timePerToken <= Min(b.timePerBurst, now - b.time))
  }

  // ---------------------------------------------------------------- runs

  datatype Call = Call(now: uint64, tokens: uint64)

  function After(b: Bucket, calls: seq<Call>, n: nat): Bucket
    requires n <= |calls|
  {
    if n == 0 then b else Consume(After(b, calls, n - 1), calls[n - 1].now, calls[n - 1].tokens).0
  }

  predicate Grants(b: Bucket, calls: seq<Call>, i: nat)
    requires i < |calls|
  {
    Consume(After(b, calls, i), calls[i].now, calls[i].tokens).1
  }

  /** The tokens granted by calls number `i` up to `n`, exclusive. */
  function Granted(b: Bucket, calls: seq<Call>, i: nat, n: nat): nat
    requires i <= n <= |calls|
  {
    if n == i then 0
    else Granted(b, calls, i, n - 1) + (if Grants(b, calls, n - 1) then calls[n - 1].tokens else 0)
  }

  /** The calls between two resets: the clock does not go back, has passed the burst time, and no request
      overflows. */
  ghost predicate Regular(b: Bucket, calls: seq<Call>) {
    && (forall i :: 0 <= i < |calls| ==> b.timePerBurst <= calls[i].now && Small(b, calls[i].now, calls[i].tokens))
    && (forall i, j :: 0 <= i <= j < |calls| ==> calls[i].now <= calls[j].now)
    && (calls != [] ==> b.time <= calls[0].now)
  }

  /** The settings stay, and `time` is never ahead of the clock. */
  lemma {:induction false} AfterShape(b: Bucket, calls: seq<Call>, n: nat)
    requires n <= |calls| && Regular(b, calls)
    ensures var a := After(b, calls, n);
            && a.timePerToken == b.timePerToken && a.timePerBurst == b.timePerBurst
            && (n > 0 ==> a.time <= calls[n - 1].now)
            && (n < |calls| ==> a.time <= calls[n].now)
  {
    hide U64, Small;
    if n > 0 {
      AfterShape(b, calls, n - 1);
    }
  }

  /** The plain bucket after the same calls. */
  function PlainAfter(b: Bucket, calls: seq<Call>, n: nat): (p: Plain)
    requires n <= |calls| && calls != [] && Regular(b, calls)
    ensures p.at == calls[if n == 0 then 0 else n - 1].now
  {
    if n == 0 then Plain(Min(b.timePerBurst, calls[0].now - b.time), calls[0].now)
    else
      NotNegative(calls[n - 1].tokens, b.timePerToken);
      Take(PlainAfter(b, calls, n - 1), calls[n - 1].now, b.timePerBurst, calls[n - 1].tokens * b.timePerToken).0
  }

  /** Over a whole run the bucket refines the plain one, answer by answer. */
  lemma {:induction false} RunAgrees(b: Bucket, calls: seq<Call>, n: nat)
    requires n <= |calls| && calls != [] && Regular(b, calls)
    ensures Encodes(After(b, calls, n), PlainAfter(b, calls, n))
    ensures n < |calls| ==>
              (Grants(b, calls, n)
               <==> calls[n].tokens * b.timePerToken <= Refilled(PlainAfter(b, calls, n), calls[n].now, b.timePerBurst))
  {
    hide Consume, Small, Encodes;
    if n == 0 {
      StartAgrees(b, calls[0].now);
    } else {
      RunAgrees(b, calls, n - 1);
      AfterShape(b, calls, n - 1);
      StepAgrees(b, calls, n - 1);
    }
    if n < |calls| {
      AfterShape(b, calls, n);
      StepAgrees(b, calls, n);
    }
  }

  lemma StartAgrees(b: Bucket, now: uint64)
    requires b.time <= now
    ensures Encodes(b, Plain(Min(b.timePerBurst, now - b.time), now))
  {
  }

  lemma StepAgrees(b: Bucket, calls: seq<Call>, n: nat)
    requires n < |calls| && Regular(b, calls)
    requires Encodes(After(b, calls, n), PlainAfter(b, calls, n))
    requires After(b, calls, n).timePerToken == b.timePerToken && After(b, calls, n).timePerBurst == b.timePerBurst
    ensures Encodes(After(b, calls, n + 1), PlainAfter(b, calls, n + 1))
    ensures Grants(b, calls, n)
        <==> calls[n].tokens * b.timePerToken <= Refilled(PlainAfter(b, calls, n), calls[n].now, b.timePerBurst)
  {
    hide Consume, Encodes;
    NotNegative(calls[n].tokens, b.timePerToken);
    ConsumeAgrees(After(b, calls, n), PlainAfter(b, calls, n), calls[n].now, calls[n].tokens);
  }

  /** The rate limit: in any stretch of calls the tokens granted are worth at most the time that has
      passed and one burst. */
  lemma {:induction false} RateLimit(b: Bucket, calls: seq<Call>, i: nat, n: nat)
    requires i < n <= |calls| && Regular(b, calls)
    ensures Granted(b, calls, i, n) * b.timePerToken <= calls[n - 1].now - calls[i].now + b.timePerBurst
  {
    GrantsRaiseTime(b, calls, i, n);
    AfterShape(b, calls, n);
  }

  /** Each grant moves `time` on by what it is worth. */
  lemma {:induction false} GrantsRaiseTime(b: Bucket, calls: seq<Call>, i: nat, n: nat)
    requires i < |calls| && i <= n <= |calls| && Regular(b, calls)
    ensures var g := Granted(b, calls, i, n) * b.timePerToken;
            g == 0 || calls[i].now - b.timePerBurst + g <= After(b, calls, n).time
  {
    hide Consume, Small, Grants;
    if n > i {
      GrantsRaiseTime(b, calls, i, n - 1);
      AfterShape(b, calls, n - 1);
      OneGrant(b, calls, n - 1);
      Distribute(Granted(b, calls, i, n - 1), calls[n - 1].tokens, b.timePerToken);
    }
  }

  lemma Distribute(a: nat, c: nat, m: nat)
    ensures (a + c) * m == a * m + c * m
    ensures (a + 0) * m == a * m
  {
  }

  lemma OneGrant(b: Bucket, calls: seq<Call>, n: nat)
    requires n < |calls| && Regular(b, calls)
    requires After(b, calls, n).timePerToken == b.timePerToken && After(b, calls, n).timePerBurst == b.timePerBurst
    requires After(b, calls, n).time <= calls[n].now
    ensures var s, t := After(b, calls, n), After(b, calls, n + 1);
            if Grants(b, calls, n)
            then t.time == Max(s.time, calls[n].now - b.timePerBurst) + calls[n].tokens * b.timePerToken
            else t.time == s.time
  {
    var s, now, tokens := After(b, calls, n), calls[n].now, calls[n].tokens;
    assert Small(b, now, tokens) && b.timePerBurst <= now;
    GrantMoves(s, now, tokens);
  }

  lemma GrantMoves(s: Bucket, now: uint64, tokens: uint64)
    requires s.time <= now && s.timePerBurst <= now && Small(s, now, tokens)
    ensures var (t, r) := Consume(s, now, tokens);
            t.time == if r then Max(s.time, now - s.timePerBurst) + tokens * s.timePerToken else s.time
  {
    NeedSmall(s, now, tokens);
    CutSmall(now - s.timePerBurst);
    CutSmall(Max(now - s.timePerBurst, s.time) + tokens * s.timePerToken);
    hide U64;
  }

  // ---------------------------------------------------------------- where the limit fails

  /** Calls from `now` on: the clock does not go back and no request overflows. */
  ghost predicate Paced(b: Bucket, now: uint64, calls: seq<Call>) {
    && (forall i :: 0 <= i < |calls| ==> now <= calls[i].now && Small(b, calls[i].now, calls[i].tokens))
    && (forall i, j :: 0 <= i <= j < |calls| ==> calls[i].now <= calls[j].now)
  }

  ghost predicate LimitedBetween(b: Bucket, calls: seq<Call>, i: nat, n: nat)
    requires i < n <= |calls|
  {
    Granted(b, calls, i, n) * b.timePerToken <= calls[n - 1].now - calls[i].now + b.timePerBurst
  }

  ghost predicate Limited(b: Bucket, calls: seq<Call>) {
    forall i, n :: 0 <= i < n <= |calls| ==> LimitedBetween(b, calls, i, n)
  }

  /** The rate limit holds for all calls from `now` on exactly if the clock has passed the burst time. */
  lemma LimitExactlyAfterBurst(b: Bucket, size: uint64, now: uint64)
    requires b.time <= now && b.timePerBurst == size * b.timePerToken && 2 * b.timePerBurst <= TWO64
    ensures b.timePerBurst <= now <==> forall calls :: Paced(b, now, calls) ==> Limited(b, calls)
  {
    hide Small, Granted;
    if b.timePerBurst <= now {
      forall calls | Paced(b, now, calls) ensures Limited(b, calls) {
        forall i, n | 0 <= i < n <= |calls| ensures LimitedBetween(b, calls, i, n) {
          RateLimit(b, calls, i, n);
        }
      }
    } else {
      var calls := [Call(now, size), Call(now, size)];
      TwoBursts(b, size, now);
      assert Paced(b, now, calls) && !LimitedBetween(b, calls, 0, 2);
    }
  }

  lemma BurstGranted(b: Bucket, size: uint64, now: uint64)
    requires b.time <= now < b.timePerBurst == size * b.timePerToken && 2 * b.timePerBurst <= TWO64
    ensures Small(b, now, size)
    ensures var (c, r) := Consume(b, now, size);
            r && c.time <= now && c == b.(time := c.time)
  {
    EarlyConsume(b, now, size);
    hide U64;
  }

  /** Before the burst time two whole bursts are granted at one instant. */
  lemma TwoBursts(b: Bucket, size: uint64, now: uint64)
    requires b.time <= now < b.timePerBurst == size * b.timePerToken && 2 * b.timePerBurst <= TWO64
    ensures Small(b, now, size)
    ensures var calls := [Call(now, size), Call(now, size)];
            Granted(b, calls, 0, 2) == size + size && Granted(b, calls, 0, 2) * b.timePerToken > b.timePerBurst
  {
    hide Consume, Small;
    var calls := [Call(now, size), Call(now, size)];
    BurstGranted(b, size, now);
    assert After(b, calls, 0) == b;
    var c := After(b, calls, 1);
    assert c == Consume(b, now, size).0;
    BurstGranted(c, size, now);
    assert Grants(b, calls, 0) && Grants(b, calls, 1);
    assert Granted(b, calls, 0, 1) == Granted(b, calls, 0, 0) + size;
    Distribute(size, size, b.timePerToken);
  }

  /** For example: at ten tokens a second with a burst of ten, twenty are granted at once after half a
      second. */
  lemma TwentyAtOnce()
    ensures var b, calls := Create(10, 10), [Call(500000, 10), Call(500000, 10)];
            Paced(b, 500000, calls) && Granted(b, calls, 0, 2) == 20 && !Limited(b, calls)
  {
    var b, calls := Create(10, 10), [Call(500000, 10), Call(500000, 10)];
    assert b == Bucket(0, 100000, 1000000);
    TwoBursts(b, 10, 500000);
    assert !LimitedBetween(b, calls, 0, 2);
  }

  // ---------------------------------------------------------------- the class

  class RateLimiter {
    var time: uint64
    var timePerToken: uint64
    var timePerBurst: uint64

    ghost function Value(): Bucket
      reads this
    {
      Bucket(time, timePerToken, timePerBurst)
    }

    constructor (rate: uint64, burstSize: uint64)
      ensures Value() == Create(rate, burstSize)
    {
      time := 0;
      var perToken: int := MICROSECONDS / Max(rate, 1);
      timePerToken := perToken;
      timePerBurst := U64(burstSize * perToken);
    }

    method Reset(rate: uint64, burstSize: uint64)
      modifies this
      ensures Value() == Create(rate, burstSize)
    {
      var perToken: int := MICROSECONDS / Max(rate, 1);
      timePerToken := perToken;
      timePerBurst := U64(burstSize * perToken);
      time := 0;
    }

    method TryConsume(now: uint64, tokens: uint64) returns (r: bool)
      modifies `time
      ensures (Value(), r) == Consume(old(Value()), now, tokens)
    {
      hide U64;
      var timeNeeded := U64(tokens * timePerToken);
      var minTime := U64(now - timePerBurst);
      var newTime: int := time;
      if minTime > time {
        newTime := minTime;
      }
      newTime := U64(newTime + timeNeeded);
      if newTime > now {
        return false;
      }
      time := newTime;
      return true;
    }
  }
}
