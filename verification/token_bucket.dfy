/**
 The distributed token bucket: the script that runs atomically in Redis, and the
 lifetime the gateway gives a bucket.  Tokens and time are reals.
 */
module TokenBucket {
  import opened Common

  // The bucket hash; Redis may drop it from `expiresAt` on.
  datatype Bucket = Missing | Present(tokens: real, updatedAt: real, expiresAt: real)
  datatype Outcome = Outcome(allowed: bool, remaining: int, retryAfter: Option<int>)
  datatype Request = Request(now: real, dropped: bool)

  // What the script is called with: the capacity, the printed refill rate and the time to live.
  datatype Args = Args(capacity: int, rate: real, ttl: int)

  const MINIMUM_TTL := 60
  const ANONYMOUS := "anonymous"

  function Ceil(x: real): (c: int)
    ensures c as real - 1.0 < x <= c as real
  {
    if x.Floor as real == x then x.Floor else x.Floor + 1
  }

  function Min(x: real, y: real): real { if x <= y then x else y }

  function Millionths(k: int): real { k as real / 1_000_000.0 }

  /** `rate` is `refill` printed with six decimals, however a tie is broken. */
  ghost predicate RoundedToMicros(refill: real, rate: real) {
    && (exists k: int :: rate == Millionths(k))
    && refill - 0.000_000_5 <= rate <= refill + 0.000_000_5
  }

  function Ttl(capacity: int, refill: real): int
    requires refill > 0.0
  {
    var ttl := Ceil(capacity as real / refill) * 2;
    if ttl < MINIMUM_TTL then MINIMUM_TTL else ttl
  }

  /** The arguments of a limiter built for a valid configuration. */
  ghost predicate BuiltFor(a: Args, capacity: int, refill: real) {
    && capacity > 0 && refill > 0.0
    && a.capacity == capacity && RoundedToMicros(refill, a.rate) && a.ttl == Ttl(capacity, refill)
  }

  function Elapsed(updatedAt: real, now: real): real {
    if now - updatedAt > 0.0 then now - updatedAt else 0.0
  }

  /** Tokens available to a request at `now`, before it takes one. */
  function Level(a: Args, b: Bucket, now: real): real {
    match b
    case Missing => a.capacity as real
    case Present(tokens, updatedAt, _) => Min(a.capacity as real, tokens + Elapsed(updatedAt, now) * a.rate)
  }

  function Seen(b: Bucket, r: Request): Bucket {
    if r.dropped then Missing else b
  }

  predicate Admits(a: Args, b: Bucket, r: Request) {
    Level(a, Seen(b, r), r.now) >= 1.0
  }

  function Left(a: Args, b: Bucket, r: Request): real {
    Level(a, Seen(b, r), r.now) - (if Admits(a, b, r) then 1.0 else 0.0)
  }

  function After(a: Args, b: Bucket, r: Request): Bucket {
    Present(Left(a, b, r), r.now, r.now + a.ttl as real)
  }

  function RetryAfter(rate: real, tokens: real): Option<int> {
    if rate == 0.0 then None else Some(Ceil((1.0 - tokens) / rate))
  }

  /** Redis drops a bucket only when its time to live is over. */
  predicate MayDrop(b: Bucket, r: Request) {
    r.dropped ==> b.Missing? || r.now >= b.expiresAt
  }

  function Identity(trimmed: string): string {
    if trimmed == "" then ANONYMOUS else trimmed
  }

  class RedisTokenBucket {
    const args: Args
    var buckets: map<string, Bucket>

    constructor (capacity: int, refill: real, rate: real)
      requires capacity > 0 && refill > 0.0 && RoundedToMicros(refill, rate)
      ensures BuiltFor(args, capacity, refill) && buckets == map[]
    {
      var ttl := Ceil(capacity as real / refill) * 2;
      if ttl < MINIMUM_TTL {
        ttl := MINIMUM_TTL;
      }
      args := Args(capacity, rate, ttl);
      buckets := map[];
    }

    function Stored(identity: string): Bucket
      reads this
    {
      if identity in buckets then buckets[identity] else Missing
    }

    /** One admission check for an identity that has been trimmed of white space. */
    method Allow(trimmed: string, r: Request) returns (o: Outcome)
      modifies this
      ensures o.allowed == Admits(args, old(Stored(Identity(trimmed))), r)
      ensures buckets == old(buckets)[Identity(trimmed) := After(args, old(Stored(Identity(trimmed))), r)]
      ensures o.remaining == Left(args, old(Stored(Identity(trimmed))), r).Floor
      ensures o.retryAfter == if o.allowed then Some(0) else RetryAfter(args.rate, Left(args, old(Stored(Identity(trimmed))), r))
    {
      var id := Identity(trimmed);
      ghost var level := Level(args, Seen(Stored(id), r), r.now);
      var tokens, updatedAt := args.capacity as real, r.now;
      if id in buckets && buckets[id].Present? && !r.dropped {
        tokens, updatedAt := buckets[id].tokens, buckets[id].updatedAt;
      }
      tokens := Min(args.capacity as real, tokens + Elapsed(updatedAt, r.now) * args.rate);
      assert tokens == level;
      var allowed, retry := tokens >= 1.0, Some(0);
      if allowed {
        tokens := tokens - 1.0;
      } else {
        retry := RetryAfter(args.rate, tokens);
      }
      buckets := buckets[id := Present(tokens, r.now, r.now + args.ttl as real)];
      o := Outcome(allowed, tokens.Floor, retry);
    }
  }

  // ---------------------------------------------------------- time to live

  lemma MulMonotone(x: real, y: real, z: real)
    requires x <= y && z >= 0.0
    ensures x * z <= y * z
  {
  }

  /** A rate printed with six decimals is at least half the configured one unless it prints as zero. */
  lemma RoundedRateAtLeastHalf(refill: real, rate: real)
    requires refill > 0.0 && RoundedToMicros(refill, rate)
    ensures rate == 0.0 || rate >= refill / 2.0
    ensures rate >= 0.0 && (refill >= 0.000_001 ==> rate > 0.0)
  {
    var k: int :| rate == Millionths(k);
    assert k >= 0;
    if k >= 1 { assert rate >= 0.000_001; }
  }

  lemma TtlAtLeastTwiceRefill(capacity: int, refill: real)
    requires refill > 0.0
    ensures Ttl(capacity, refill) as real >= 2.0 * (capacity as real / refill)
    ensures Ttl(capacity, refill) >= MINIMUM_TTL
  {
  }

  /** The time to live is long enough to refill the whole bucket. */
  ghost predicate Covers(a: Args) {
    a.capacity >= 1 && a.rate > 0.0 && a.ttl > 0 && a.ttl as real * a.rate >= a.capacity as real
  }

  lemma LongEnough(cap: real, refill: real, q: real, half: real, ttl: real, rate: real)
    requires q * refill == cap && half * 2.0 == refill && refill > 0.0
    requires 0.0 <= 2.0 * q <= ttl && half <= rate
    ensures ttl * rate >= cap
  {
    MulMonotone(2.0 * q, ttl, half);
    assert (2.0 * q) * half == q * refill;
    MulMonotone(half, rate, ttl);
    assert half * ttl == ttl * half && rate * ttl == ttl * rate;
  }

  lemma QuotientNotNegative(cap: real, refill: real)
    requires cap >= 0.0 && refill > 0.0
    ensures cap / refill >= 0.0 && (cap / refill) * refill == cap
  {
    var q := cap / refill;
    assert q * refill == cap;
    assert q < 0.0 ==> q * refill < 0.0;
  }

  /** A limiter whose rate does not print as zero covers; rates of a millionth and more never print so. */
  lemma BuiltCovers(a: Args, capacity: int, refill: real)
    requires BuiltFor(a, capacity, refill)
    ensures a.rate != 0.0 ==> Covers(a)
    ensures refill >= 0.000_001 ==> a.rate != 0.0
    ensures a.capacity >= 1 && a.ttl > 0
  {
    RoundedRateAtLeastHalf(refill, a.rate);
    TtlAtLeastTwiceRefill(capacity, refill);
    if a.rate != 0.0 {
      QuotientNotNegative(capacity as real, refill);
      LongEnough(capacity as real, refill, capacity as real / refill, refill / 2.0, a.ttl as real, a.rate);
    }
  }

  ghost predicate BucketOk(a: Args, b: Bucket, now: real) {
    b.Present? ==> 0.0 <= b.tokens <= a.capacity as real && b.updatedAt <= now && b.expiresAt == b.updatedAt + a.ttl as real
  }

  predicate Expired(b: Bucket, now: real) {
    b.Present? && now >= b.expiresAt
  }

  lemma RefilledByExpiry(a: Args, b: Bucket, now: real)
    requires Covers(a) && BucketOk(a, b, now) && Expired(b, now)
    ensures Level(a, b, now) == a.capacity as real
  {
    var elapsed := Elapsed(b.updatedAt, now);
    MulMonotone(a.ttl as real, elapsed, a.rate);
  }

  /**
   Every expired bucket would be full anyway, exactly when the rate does not print as zero; rates of a
   millionth and more never do.
   */
  lemma ExpiredBucketIsFull(a: Args, capacity: int, refill: real)
    requires BuiltFor(a, capacity, refill)
    ensures (forall b, now :: BucketOk(a, b, now) && Expired(b, now) ==> Level(a, b, now) == a.capacity as real) <==> a.rate != 0.0
    ensures refill >= 0.000_001 ==> a.rate != 0.0
  {
    BuiltCovers(a, capacity, refill);
    if a.rate != 0.0 {
      forall b, now | BucketOk(a, b, now) && Expired(b, now) ensures Level(a, b, now) == a.capacity as real {
        RefilledByExpiry(a, b, now);
      }
    } else {
      var empty := Present(0.0, 0.0, a.ttl as real);
      assert BucketOk(a, empty, a.ttl as real) && Expired(empty, a.ttl as real);
      assert Level(a, empty, a.ttl as real) == 0.0;
    }
  }

  /** Whether Redis drops an expired bucket cannot be observed. */
  lemma DropChangesNothing(a: Args, b: Bucket, r: Request)
    requires Covers(a) && BucketOk(a, b, r.now) && MayDrop(b, r)
    ensures Level(a, Seen(b, r), r.now) == Level(a, b, r.now)
  {
    if r.dropped && b.Present? { RefilledByExpiry(a, b, r.now); }
  }

  /** A drop is invisible at every request to every bucket exactly when the rate does not print as zero. */
  lemma DroppingIsInvisible(a: Args, capacity: int, refill: real)
    requires BuiltFor(a, capacity, refill)
    ensures (forall b, r: Request :: BucketOk(a, b, r.now) && MayDrop(b, r) ==> Level(a, Seen(b, r), r.now) == Level(a, b, r.now))
            <==> a.rate != 0.0
  {
    BuiltCovers(a, capacity, refill);
    if a.rate != 0.0 {
      forall b, r: Request | BucketOk(a, b, r.now) && MayDrop(b, r) ensures Level(a, Seen(b, r), r.now) == Level(a, b, r.now) {
        DropChangesNothing(a, b, r);
      }
    } else {
      var empty, drop := Present(0.0, 0.0, a.ttl as real), Request(a.ttl as real, true);
      assert BucketOk(a, empty, drop.now) && MayDrop(empty, drop);
      assert Level(a, Seen(empty, drop), drop.now) == a.capacity as real;
      assert Level(a, empty, drop.now) == 0.0;
    }
  }

  // -------------------------------------------------------- admission bound

  /** Requests on one key in the order of the server's clock, which does not run backwards. */
  ghost predicate RunOk(a: Args, b: Bucket, rs: seq<Request>)
    decreases |rs|
  {
    rs == [] || (MayDrop(b, rs[0]) && (|rs| > 1 ==> rs[0].now <= rs[1].now) && RunOk(a, After(a, b, rs[0]), rs[1..]))
  }

  function Counted(a: Args, b: Bucket, r: Request, s: real, t: real): nat {
    if s <= r.now <= t && Admits(a, b, r) then 1 else 0
  }

  /** Admissions stamped within [s, t]. */
  function Admitted(a: Args, b: Bucket, rs: seq<Request>, s: real, t: real): nat
    decreases |rs|
  {
    if rs == [] then 0 else Counted(a, b, rs[0], s, t) + Admitted(a, After(a, b, rs[0]), rs[1..], s, t)
  }

  lemma GainSplits(x: real, y: real, z: real, rate: real)
    ensures (y - x) * rate + (z - y) * rate == (z - x) * rate
  {
  }

  lemma GainNonNegative(x: real, y: real, rate: real)
    requires x <= y && rate > 0.0
    ensures (y - x) * rate >= 0.0
  {
  }

  /** A check leaves between nothing and the capacity in the bucket. */
  lemma LeftInRange(a: Args, b: Bucket, r: Request)
    requires Covers(a) && BucketOk(a, b, r.now)
    ensures 0.0 <= Left(a, b, r) <= a.capacity as real
  {
    if b.Present? { GainNonNegative(b.updatedAt, r.now, a.rate); }
  }

  lemma AfterOk(a: Args, b: Bucket, r: Request, later: real)
    requires Covers(a) && BucketOk(a, b, r.now) && r.now <= later
    ensures BucketOk(a, After(a, b, r), later)
  {
    LeftInRange(a, b, r);
  }

  lemma LevelAfter(a: Args, b: Bucket, r: Request, later: real)
    requires r.now <= later
    ensures Level(a, After(a, b, r), later) <= Left(a, b, r) + (later - r.now) * a.rate
  {
  }

  /** What the first of two checks admits is paid for by the level it finds. */
  lemma PaidByLevel(a: Args, b: Bucket, r: Request, later: real, t: real, rest: real)
    requires Covers(a) && BucketOk(a, b, r.now) && MayDrop(b, r) && r.now <= later
    requires r.now <= t
    requires rest <= Level(a, After(a, b, r), later) + (t - later) * a.rate
    ensures (if Admits(a, b, r) then 1.0 else 0.0) + rest <= Level(a, b, r.now) + (t - r.now) * a.rate
  {
    DropChangesNothing(a, b, r);
    LevelAfter(a, b, r, later);
    GainSplits(r.now, later, t, a.rate);
  }

  lemma {:induction false} AdmittedFromLevel(a: Args, b: Bucket, rs: seq<Request>, s: real, t: real)
    requires Covers(a) && RunOk(a, b, rs) && rs != [] && s <= rs[0].now && BucketOk(a, b, rs[0].now)
    ensures rs[0].now > t ==> Admitted(a, b, rs, s, t) == 0
    ensures rs[0].now <= t ==> Admitted(a, b, rs, s, t) as real <= Level(a, b, rs[0].now) + (t - rs[0].now) * a.rate
    decreases |rs|
  {
    hide Level, Covers, Left;
    var r, next := rs[0], After(a, b, rs[0]);
    var rest := Admitted(a, next, rs[1..], s, t);
    if |rs| > 1 {
      AfterOk(a, b, r, rs[1].now);
      AdmittedFromLevel(a, next, rs[1..], s, t);
      if rs[1].now <= t {
        PaidByLevel(a, b, r, rs[1].now, t, rest as real);
      }
    }
    if r.now <= t && rest == 0 {
      LevelIsPaid(a, b, r, t);
    }
  }

  lemma LevelIsPaid(a: Args, b: Bucket, r: Request, t: real)
    requires Covers(a) && BucketOk(a, b, r.now) && MayDrop(b, r) && r.now <= t
    ensures (if Admits(a, b, r) then 1.0 else 0.0) <= Level(a, b, r.now) + (t - r.now) * a.rate
  {
    DropChangesNothing(a, b, r);
    LeftInRange(a, b, r);
    GainNonNegative(r.now, t, a.rate);
  }

  lemma EmptyWindowBound(a: Args, s: real, t: real)
    requires Covers(a) && s <= t
    ensures 0.0 <= a.capacity as real + (t - s) * a.rate
  {
    GainNonNegative(s, t, a.rate);
  }

  lemma LevelWithinBound(a: Args, b: Bucket, now: real, s: real, t: real)
    requires Covers(a) && s <= now <= t
    ensures Level(a, b, now) + (t - now) * a.rate <= a.capacity as real + (t - s) * a.rate
  {
    GainSplits(s, now, t, a.rate);
    GainNonNegative(s, now, a.rate);
  }

  lemma {:induction false} AdmittedInWindow(a: Args, b: Bucket, rs: seq<Request>, s: real, t: real)
    requires Covers(a) && RunOk(a, b, rs) && s <= t && (rs != [] ==> BucketOk(a, b, rs[0].now))
    ensures Admitted(a, b, rs, s, t) as real <= a.capacity as real + (t - s) * a.rate
    decreases |rs|
  {
    hide Level, Covers, Left;
    EmptyWindowBound(a, s, t);
    if rs != [] {
      if rs[0].now < s {
        if |rs| > 1 { AfterOk(a, b, rs[0], rs[1].now); }
        AdmittedInWindow(a, After(a, b, rs[0]), rs[1..], s, t);
      } else {
        AdmittedFromLevel(a, b, rs, s, t);
        if rs[0].now <= t { LevelWithinBound(a, b, rs[0].now, s, t); }
      }
    }
  }

  /** A run on one key from a bucket in order, and a window of time. */
  ghost predicate RunAndWindow(a: Args, b: Bucket, rs: seq<Request>, s: real, t: real) {
    RunOk(a, b, rs) && s <= t && (rs != [] ==> BucketOk(a, b, rs[0].now))
  }

  /** At most `capacity + rate * (t - s)` admissions are stamped within [s, t]. */
  ghost predicate Bounded(a: Args, b: Bucket, rs: seq<Request>, s: real, t: real) {
    Admitted(a, b, rs, s, t) as real <= a.capacity as real + (t - s) * a.rate
  }

  lemma BoundedInWindow(a: Args, b: Bucket, rs: seq<Request>, s: real, t: real)
    requires Covers(a) && RunAndWindow(a, b, rs, s, t)
    ensures Bounded(a, b, rs, s, t)
  {
    hide Covers, RunOk, Admitted;
    AdmittedInWindow(a, b, rs, s, t);
  }

  /** `n` requests, one a lifetime, each after Redis has dropped the bucket. */
  function DroppedEachTime(a: Args, n: nat, at: real): seq<Request> {
    if n == 0 then [] else [Request(at, true)] + DroppedEachTime(a, n - 1, at + a.ttl as real)
  }

  lemma {:induction false} DroppedEachTimeAdmits(a: Args, b: Bucket, n: nat, at: real, t: real)
    requires a.capacity >= 1 && a.ttl > 0 && (b.Present? ==> at >= b.expiresAt)
    requires t >= at + (n * a.ttl) as real
    ensures var rs := DroppedEachTime(a, n, at);
            && |rs| == n && (n > 0 ==> rs[0].now == at)
            && RunOk(a, b, rs) && forall s :: s <= at ==> Admitted(a, b, rs, s, t) == n
    decreases n
  {
    if n > 0 {
      var next := After(a, b, Request(at, true));
      assert n * a.ttl == (n - 1) * a.ttl + a.ttl;
      DroppedEachTimeAdmits(a, next, n - 1, at + a.ttl as real, t);
      var rs := DroppedEachTime(a, n, at);
      assert rs[1..] == DroppedEachTime(a, n - 1, at + a.ttl as real);
      forall s: real | s <= at ensures Admitted(a, b, rs, s, t) == n {
        assert s <= at + a.ttl as real;
      }
    }
  }

  lemma ZeroRateExceeds(a: Args) returns (rs: seq<Request>, t: real)
    requires a.capacity >= 1 && a.ttl > 0 && a.rate == 0.0
    ensures RunAndWindow(a, Missing, rs, 0.0, t) && !Bounded(a, Missing, rs, 0.0, t)
  {
    var n: nat := a.capacity + 1;
    t := (n * a.ttl) as real;
    rs := DroppedEachTime(a, n, 0.0);
    DroppedEachTimeAdmits(a, Missing, n, 0.0, t);
    assert n * a.ttl >= 0;
    hide RunOk, Admitted, DroppedEachTime;
    NoGain(t, a.rate);
  }

  lemma NoGain(t: real, rate: real)
    requires rate == 0.0
    ensures (t - 0.0) * rate == 0.0
  {
  }

  /**
   For every request sequence on one key, whatever Redis drops, the admissions stamped within [s, t] number at
   most `capacity + rate * (t - s)`: exactly when the rate does not print as zero.
   */
  lemma AdmissionBound(a: Args, capacity: int, refill: real)
    requires BuiltFor(a, capacity, refill)
    ensures (forall b, rs, s, t :: RunAndWindow(a, b, rs, s, t) ==> Bounded(a, b, rs, s, t)) <==> a.rate != 0.0
    ensures refill >= 0.000_001 ==> a.rate != 0.0
  {
    BuiltCovers(a, capacity, refill);
    hide *;
    if a.rate != 0.0 {
      forall b, rs, s, t | RunAndWindow(a, b, rs, s, t) ensures Bounded(a, b, rs, s, t) {
        BoundedInWindow(a, b, rs, s, t);
      }
    } else {
      var rs, t := ZeroRateExceeds(a);
    }
  }

  /** A refill of 0.4 tokens a million seconds prints as zero: a bucket of one token then admits two requests. */
  lemma PrintedZeroExceedsBound() returns (a: Args, rs: seq<Request>)
    ensures a == Args(1, 0.0, 5_000_000) && BuiltFor(a, 1, 0.000_000_4)
    ensures rs == [Request(0.0, false), Request(5_000_000.0, true)]
    ensures RunAndWindow(a, Missing, rs, 0.0, 5_000_000.0)
    ensures Admitted(a, Missing, rs, 0.0, 5_000_000.0) == 2 && !Bounded(a, Missing, rs, 0.0, 5_000_000.0)
  {
    a, rs := Args(1, 0.0, 5_000_000), [Request(0.0, false), Request(5_000_000.0, true)];
    assert Millionths(0) == 0.0;
    assert 1.0 / 0.000_000_4 == 2_500_000.0;
    var next := After(a, Missing, rs[0]);
    assert rs[1..] == [rs[1]] && rs[1..][1..] == [];
    assert RunOk(a, next, rs[1..]);
    assert Admitted(a, next, rs[1..], 0.0, 5_000_000.0) == 1;
  }

  // ------------------------------------------------------------ retry hint

  lemma MulStrict(x: real, y: real, z: real)
    requires x < y && z > 0.0
    ensures x * z < y * z
  {
  }

  lemma DivBound(x: real, n: real, rate: real)
    requires rate > 0.0
    ensures x <= n * rate <==> x / rate <= n
  {
    assert x / rate * rate == x;
    if x / rate <= n {
      MulMonotone(x / rate, n, rate);
    } else {
      MulStrict(n, x / rate, rate);
    }
  }

  lemma HintIsLeast(missing: real, rate: real, n: nat, hint: int)
    requires rate > 0.0 && missing > 0.0
    requires hint as real >= missing / rate && (hint - 1) as real < missing / rate
    ensures missing <= n as real * rate <==> n >= hint
  {
    DivBound(missing, n as real, rate);
  }

  /** A bucket that lacks part of a token has a whole one after exactly the hinted number of seconds. */
  lemma HintOfTokens(rate: real, tokens: real, n: nat)
    requires rate > 0.0 && tokens < 1.0
    ensures RetryAfter(rate, tokens).Some?
    ensures 1.0 - tokens <= n as real * rate <==> n >= RetryAfter(rate, tokens).value
  {
    hide Ceil;
    HintIsLeast(1.0 - tokens, rate, n, RetryAfter(rate, tokens).value);
  }

  /** The level that an undisturbed retry finds. */
  lemma LevelAfterDenial(a: Args, b: Bucket, r: Request, n: nat)
    requires Covers(a) && !Admits(a, b, r)
    ensures Level(a, After(a, b, r), r.now + n as real) >= 1.0 <==> 1.0 - Left(a, b, r) <= n as real * a.rate
  {
    var left := Left(a, b, r);
    hide Left, Admits, Seen;
    assert Elapsed(r.now, r.now + n as real) == n as real;
  }

  lemma DenialLacksTokens(a: Args, b: Bucket, r: Request)
    requires !Admits(a, b, r)
    ensures Left(a, b, r) < 1.0
  {
    hide Level;
  }

  lemma HintAdmits(a: Args, b: Bucket, r: Request, n: nat, dropped: bool)
    requires Covers(a) && BucketOk(a, b, r.now) && !Admits(a, b, r)
    requires MayDrop(After(a, b, r), Request(r.now + n as real, dropped))
    ensures RetryAfter(a.rate, After(a, b, r).tokens).Some?
    ensures Admits(a, After(a, b, r), Request(r.now + n as real, dropped))
            <==> n >= RetryAfter(a.rate, After(a, b, r).tokens).value
  {
    var next, retry := After(a, b, r), Request(r.now + n as real, dropped);
    AfterOk(a, b, r, retry.now);
    DropChangesNothing(a, next, retry);
    LevelAfterDenial(a, b, r, n);
    DenialLacksTokens(a, b, r);
    assert a.rate > 0.0;
    hide Level, Left, BucketOk, Covers, RetryAfter, MayDrop;
    HintOfTokens(a.rate, next.tokens, n);
  }

  /**
   A denial carries a hint exactly when the rate does not print as zero, and then it is the least whole number
   of seconds after which a retry is admitted when nothing else touches the key, whether or not the bucket has
   expired by then.
   */
  lemma RetryAfterIsLeast(a: Args, capacity: int, refill: real, b: Bucket, r: Request, n: nat, dropped: bool)
    requires BuiltFor(a, capacity, refill) && BucketOk(a, b, r.now) && !Admits(a, b, r)
    requires MayDrop(After(a, b, r), Request(r.now + n as real, dropped))
    ensures var hint := RetryAfter(a.rate, After(a, b, r).tokens);
            && (hint.Some? <==> a.rate != 0.0)
            && (hint.Some? ==> (Admits(a, After(a, b, r), Request(r.now + n as real, dropped)) <==> n >= hint.value))
  {
    BuiltCovers(a, capacity, refill);
    hide BuiltFor, Covers, Admits, Left, MayDrop;
    if a.rate != 0.0 { HintAdmits(a, b, r, n, dropped); }
  }
}
