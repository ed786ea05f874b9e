/**
 The gateway's traffic counters: any number of `record` calls and one `snapshot`,
 interleaved one atomic operation at a time.
 */
module Metrics {
  import opened Common
  import Sums

  datatype Counter = Requests | Hits | Misses | Bypasses | Primary | Fallback | RateLimited | UpstreamErrors

  datatype CacheMark = Hit | Miss | Bypass | NoCacheMark
  datatype RouteMark = ToPrimary | ToFallback | NoRouteMark
  datatype Call = Call(status: nat, cache: CacheMark, route: RouteMark)

  function CacheOps(m: CacheMark): seq<Counter> {
    match m
    case Hit => [Hits]
    case Miss => [Misses]
    case Bypass => [Bypasses]
    case NoCacheMark => []
  }

  function RouteOps(m: RouteMark): seq<Counter> {
    match m
    case ToPrimary => [Primary]
    case ToFallback => [Fallback]
    case NoRouteMark => []
  }

  /** The counters one `record` call adds to, in order. */
  function Ops(c: Call): seq<Counter> {
    [Requests] + CacheOps(c.cache) + RouteOps(c.route)
    + (if c.status == 429 then [RateLimited] else [])
    + (if c.status >= 500 then [UpstreamErrors] else [])
  }

  /** The order in which a snapshot reads the counters. */
  const LOADS: seq<Counter> := [Hits, Misses, Bypasses, Requests, Primary, Fallback, RateLimited, UpstreamErrors]

  datatype Thread = Thread(call: Call, done: nat)
  datatype System = System(threads: seq<Thread>, counts: map<Counter, nat>, loaded: seq<nat>)

  datatype Event = Begin(call: Call) | Advance(thread: nat) | Load

  ghost predicate Enabled(s: System, e: Event) {
    match e
    case Begin(_) => true
    case Advance(i) => i < |s.threads| && s.threads[i].done < |Ops(s.threads[i].call)|
    case Load => |s.loaded| < |LOADS|
  }

  function Count(s: System, c: Counter): nat {
    if c in s.counts then s.counts[c] else 0
  }

  function Next(s: System, e: Event): System
    requires Enabled(s, e)
  {
    match e
    case Begin(call) => s.(threads := s.threads + [Thread(call, 0)])
    case Advance(i) =>
      var t := s.threads[i];
      var c := Ops(t.call)[t.done];
      s.(threads := s.threads[i := t.(done := t.done + 1)], counts := s.counts[c := Count(s, c) + 1])
    case Load => s.(loaded := s.loaded + [Count(s, LOADS[|s.loaded|])])
  }

  const START := System([], map[], [])

  ghost predicate Runs(s: System, events: seq<Event>, t: System)
    decreases |events|
  {
    if events == [] then s == t
    else Enabled(s, events[0]) && Runs(Next(s, events[0]), events[1..], t)
  }

  // ---------------------------------------------------------- bookkeeping

  predicate Bumped(t: Thread, c: Counter) {
    c in Ops(t.call)[..if t.done <= |Ops(t.call)| then t.done else 0]
  }

  function One(b: bool): nat { if b then 1 else 0 }

  /** How many calls have added to `c`. */
  function Tally(threads: seq<Thread>, c: Counter): nat {
    if threads == [] then 0
    else Tally(threads[..|threads| - 1], c) + One(Bumped(threads[|threads| - 1], c))
  }

  ghost predicate Exact(s: System) {
    && (forall i :: 0 <= i < |s.threads| ==> s.threads[i].done <= |Ops(s.threads[i].call)|)
    && (forall c :: Count(s, c) == Tally(s.threads, c))
  }

  /** The counters only grow, so a value read earlier is at most the current one. */
  ghost predicate ReadEarlier(s: System) {
    && |s.loaded| <= |LOADS|
    && forall k :: 0 <= k < |s.loaded| ==> s.loaded[k] <= Count(s, LOADS[k])
  }

  ghost predicate CacheWithinRequests(s: System) {
    |s.loaded| > 3 ==> s.loaded[0] + s.loaded[1] + s.loaded[2] <= s.loaded[3]
  }

  ghost predicate Inv(s: System) {
    Exact(s) && ReadEarlier(s) && CacheWithinRequests(s)
  }

  lemma {:induction false} TallyUpdated(threads: seq<Thread>, i: nat, t: Thread, c: Counter)
    requires i < |threads|
    ensures Tally(threads[i := t], c) == Tally(threads, c) - One(Bumped(threads[i], c)) + One(Bumped(t, c))
    decreases |threads|
  {
    hide Bumped;
    var front := threads[..|threads| - 1];
    if i < |front| {
      TallyUpdated(front, i, t, c);
      assert threads[i := t][..|threads| - 1] == front[i := t];
    } else {
      assert threads[i := t][..|threads| - 1] == front;
    }
  }

  /** No call adds twice to a counter. */
  lemma OpsAreDistinct(c: Call)
    ensures Distinct(Ops(c))
  {
  }

  lemma AdvanceBumps(t: Thread, c: Counter)
    requires t.done < |Ops(t.call)|
    ensures One(Bumped(t.(done := t.done + 1), c)) == One(Bumped(t, c)) + One(c == Ops(t.call)[t.done])
  {
    OpsAreDistinct(t.call);
    var ops := Ops(t.call);
    assert ops[..t.done + 1] == ops[..t.done] + [ops[t.done]];
  }

  lemma BumpedMeans(t: Thread, c: Counter)
    ensures Bumped(t, c) ==> c in Ops(t.call) && Bumped(t, Requests)
  {
    var ops, n := Ops(t.call), if t.done <= |Ops(t.call)| then t.done else 0;
    assert ops[0] == Requests;
    assert n > 0 ==> ops[..n][0] == Requests;
  }

  lemma OneMark(call: Call)
    ensures !(Hits in Ops(call) && Misses in Ops(call)) && !(Hits in Ops(call) && Bypasses in Ops(call))
    ensures !(Misses in Ops(call) && Bypasses in Ops(call)) && !(Primary in Ops(call) && Fallback in Ops(call))
  {
  }

  /** One call counts as a request before it counts as anything else, and under one cache mark and one route. */
  lemma CallWithinRequest(t: Thread)
    ensures One(Bumped(t, Hits)) + One(Bumped(t, Misses)) + One(Bumped(t, Bypasses)) <= One(Bumped(t, Requests))
    ensures One(Bumped(t, Primary)) + One(Bumped(t, Fallback)) <= One(Bumped(t, Requests))
  {
    hide Bumped, Ops;
    OneMark(t.call);
    BumpedMeans(t, Hits);
    BumpedMeans(t, Misses);
    BumpedMeans(t, Bypasses);
    BumpedMeans(t, Primary);
    BumpedMeans(t, Fallback);
  }

  lemma {:induction false} TalliesWithinRequests(threads: seq<Thread>)
    ensures Tally(threads, Hits) + Tally(threads, Misses) + Tally(threads, Bypasses) <= Tally(threads, Requests)
    ensures Tally(threads, Primary) + Tally(threads, Fallback) <= Tally(threads, Requests)
  {
    if threads != [] {
      TalliesWithinRequests(threads[..|threads| - 1]);
      CallWithinRequest(threads[|threads| - 1]);
    }
  }

  lemma BeginKeepsExact(s: System, call: Call)
    requires Exact(s)
    ensures Exact(Next(s, Begin(call)))
  {
    var t := Next(s, Begin(call));
    assert t.threads[..|t.threads| - 1] == s.threads;
    assert forall c :: !Bumped(Thread(call, 0), c);
  }

  lemma AdvanceCounts(s: System, i: nat, c: Counter)
    requires Enabled(s, Advance(i))
    ensures Count(Next(s, Advance(i)), c) == Count(s, c) + One(c == Ops(s.threads[i].call)[s.threads[i].done])
  {
    hide Ops;
  }

  lemma AdvanceKeepsExact(s: System, i: nat)
    requires Exact(s) && Enabled(s, Advance(i))
    ensures Exact(Next(s, Advance(i)))
    ensures forall c :: Count(s, c) <= Count(Next(s, Advance(i)), c)
  {
    var t, thread := Next(s, Advance(i)), s.threads[i];
    hide Tally, Ops, Bumped, Count;
    forall c ensures Count(t, c) == Tally(t.threads, c) && Count(s, c) <= Count(t, c) {
      TallyUpdated(s.threads, i, t.threads[i], c);
      AdvanceBumps(thread, c);
      AdvanceCounts(s, i, c);
    }
    assert forall k :: 0 <= k < |t.threads| ==> k == i || t.threads[k] == s.threads[k];
  }

  lemma ExactStep(s: System, e: Event)
    requires Exact(s) && Enabled(s, e)
    ensures Exact(Next(s, e))
    ensures forall c :: Count(s, c) <= Count(Next(s, e), c)
  {
    match e {
      case Begin(call) => BeginKeepsExact(s, call);
      case Advance(i) => AdvanceKeepsExact(s, i);
      case Load =>
    }
  }

  lemma ReadsStep(s: System, e: Event)
    requires ReadEarlier(s) && Enabled(s, e) && forall c :: Count(s, c) <= Count(Next(s, e), c)
    ensures ReadEarlier(Next(s, e))
  {
    hide Ops;
  }

  lemma CacheStep(s: System, e: Event)
    requires ReadEarlier(s) && CacheWithinRequests(s) && Enabled(s, e)
    requires Count(s, Hits) + Count(s, Misses) + Count(s, Bypasses) <= Count(s, Requests)
    ensures CacheWithinRequests(Next(s, e))
  {
    hide Ops;
    assert LOADS[0] == Hits && LOADS[1] == Misses && LOADS[2] == Bypasses && LOADS[3] == Requests;
  }

  lemma CountsWithinRequests(s: System)
    requires Exact(s)
    ensures Count(s, Hits) + Count(s, Misses) + Count(s, Bypasses) <= Count(s, Requests)
    ensures Count(s, Primary) + Count(s, Fallback) <= Count(s, Requests)
  {
    TalliesWithinRequests(s.threads);
    hide Tally;
  }

  lemma InvStep(s: System, e: Event)
    requires Inv(s) && Enabled(s, e)
    ensures Inv(Next(s, e))
  {
    ExactStep(s, e);
    CountsWithinRequests(s);
    hide Exact, Count, Next;
    ReadsStep(s, e);
    CacheStep(s, e);
  }

  lemma {:induction false} InvRun(s: System, events: seq<Event>, t: System)
    requires Inv(s) && Runs(s, events, t)
    ensures Inv(t)
    ensures forall c :: Count(s, c) <= Count(t, c)
    ensures s.loaded <= t.loaded
    decreases |events|
  {
    if events != [] {
      InvStep(s, events[0]);
      ExactStep(s, events[0]);
      hide Inv, Exact;
      InvRun(Next(s, events[0]), events[1..], t);
    }
  }

  // ------------------------------------------------------------- snapshot

  datatype Snapshot = Snapshot(
    requests: nat, hits: nat, misses: nat, bypasses: nat, hitRate: Option<real>,
    primary: nat, fallback: nat, rateLimited: nat, upstreamErrors: nat)

  function HitRate(hits: nat, misses: nat): (rate: Option<real>)
    ensures rate.None? <==> hits + misses == 0
    ensures rate.Some? ==> 0.0 <= rate.value <= 1.0 && rate.value * (hits + misses) as real == hits as real
  {
    var eligible := hits + misses;
    if eligible > 0 then
      FractionOf(hits, eligible);
      Some(hits as real / eligible as real)
    else None
  }

  lemma FractionOf(part: nat, whole: nat)
    requires part <= whole && whole > 0
    ensures 0.0 <= part as real / whole as real <= 1.0
    ensures part as real / whole as real * whole as real == part as real
  {
    var q := part as real / whole as real;
    assert q * whole as real == part as real;
    assert q > 1.0 ==> q * whole as real > whole as real;
    assert q < 0.0 ==> q * whole as real < 0.0;
  }

  function SnapshotOf(loaded: seq<nat>): Snapshot
    requires |loaded| == |LOADS|
  {
    Snapshot(loaded[3], loaded[0], loaded[1], loaded[2], HitRate(loaded[0], loaded[1]),
             loaded[4], loaded[5], loaded[6], loaded[7])
  }

  lemma StartHolds()
    ensures Inv(START)
  {
  }

  /** In every interleaving, whenever the snapshot is taken, it never shows more cache outcomes than requests. */
  lemma EverySnapshotIsConsistent(events: seq<Event>, t: System)
    requires Runs(START, events, t) && |t.loaded| == |LOADS|
    ensures var shown := SnapshotOf(t.loaded);
            && shown.hits + shown.misses + shown.bypasses <= shown.requests
            && (shown.hitRate.None? <==> shown.hits + shown.misses == 0)
            && (shown.hitRate.Some? ==> 0.0 <= shown.hitRate.value <= 1.0)
  {
    StartHolds();
    InvRun(START, events, t);
  }

  /**
   The routes are read after the requests: they exceed the requests shown by no more than the
   requests that were counted between the two reads.
   */
  lemma RoutesExceedByConcurrentRequests(before: seq<Event>, s: System, during: seq<Event>, t: System)
    requires Runs(START, before, s) && Runs(s, during, t)
    requires |s.loaded| > 3 && |t.loaded| == |LOADS|
    requires s.loaded[3] == Count(s, Requests)
    ensures var shown := SnapshotOf(t.loaded);
            shown.primary + shown.fallback <= shown.requests + (Count(t, Requests) - Count(s, Requests))
  {
    StartHolds();
    InvRun(START, before, s);
    InvRun(s, during, t);
    assert t.loaded[3] == s.loaded[3];
    assert LOADS[4] == Primary && LOADS[5] == Fallback;
    CountsWithinRequests(t);
    hide Exact, Runs, Count;
  }

  ghost predicate OnlyLoads(events: seq<Event>) {
    forall e :: e in events ==> e.Load?
  }

  lemma {:induction false} LoadsChangeNothing(s: System, events: seq<Event>, t: System)
    requires Runs(s, events, t) && OnlyLoads(events)
    ensures t.threads == s.threads && t.counts == s.counts && |t.loaded| >= |s.loaded| && s.loaded <= t.loaded
    ensures |s.loaded| <= |LOADS| ==> |t.loaded| <= |LOADS|
    ensures forall k :: |s.loaded| <= k < |t.loaded| && k < |LOADS| ==> t.loaded[k] == Count(s, LOADS[k])
    decreases |events|
  {
    if events != [] {
      assert events[0].Load?;
      LoadsChangeNothing(Next(s, events[0]), events[1..], t);
    }
  }

  predicate Finished(t: Thread) {
    t.done == |Ops(t.call)|
  }

  /** How many calls carry a mark. */
  function Marked(threads: seq<Thread>, c: Counter): nat {
    if threads == [] then 0
    else Marked(threads[..|threads| - 1], c) + One(c in Ops(threads[|threads| - 1].call))
  }

  lemma {:induction false} FinishedTally(threads: seq<Thread>, c: Counter)
    requires forall i :: 0 <= i < |threads| ==> Finished(threads[i])
    ensures Tally(threads, c) == Marked(threads, c)
  {
    if threads != [] {
      FinishedTally(threads[..|threads| - 1], c);
      var t := threads[|threads| - 1];
      assert Finished(t) && Ops(t.call)[..t.done] == Ops(t.call);
    }
  }

  ghost predicate AllFinished(threads: seq<Thread>) {
    forall i :: 0 <= i < |threads| ==> Finished(threads[i])
  }

  lemma FinishedCount(s: System, c: Counter)
    requires Exact(s) && AllFinished(s.threads)
    ensures Count(s, c) == Marked(s.threads, c)
  {
    FinishedTally(s.threads, c);
    hide Tally, Marked;
  }

  /** The position of a counter in the snapshot's order of reads. */
  function Position(c: Counter): (k: nat)
    ensures k < |LOADS| && LOADS[k] == c
  {
    match c
    case Hits => 0
    case Misses => 1
    case Bypasses => 2
    case Requests => 3
    case Primary => 4
    case Fallback => 5
    case RateLimited => 6
    case UpstreamErrors => 7
  }

  /** What a snapshot shows of a counter. */
  function Shown(shown: Snapshot, c: Counter): nat {
    match c
    case Hits => shown.hits
    case Misses => shown.misses
    case Bypasses => shown.bypasses
    case Requests => shown.requests
    case Primary => shown.primary
    case Fallback => shown.fallback
    case RateLimited => shown.rateLimited
    case UpstreamErrors => shown.upstreamErrors
  }

  lemma ShownIsLoaded(loaded: seq<nat>, c: Counter)
    requires |loaded| == |LOADS|
    ensures Shown(SnapshotOf(loaded), c) == loaded[Position(c)]
  {
    hide HitRate;
  }

  /** A snapshot that no call overlaps shows exactly how many recorded calls carry each mark. */
  lemma QuiescentSnapshotIsExact(before: seq<Event>, s: System, during: seq<Event>, t: System)
    requires Runs(START, before, s) && Runs(s, during, t) && OnlyLoads(during)
    requires |s.loaded| == 0 && |t.loaded| == |LOADS| && AllFinished(s.threads)
    ensures forall c :: Shown(SnapshotOf(t.loaded), c) == Marked(s.threads, c)
    ensures Shown(SnapshotOf(t.loaded), Requests) == |s.threads|
    ensures Marked(s.threads, Primary) + Marked(s.threads, Fallback) <= |s.threads|
  {
    StartHolds();
    InvRun(START, before, s);
    LoadsChangeNothing(s, during, t);
    EveryCallIsARequest(s.threads);
    RoutesWithinCalls(s);
    hide Runs, Marked, Count, AllFinished, Exact, SnapshotOf, Shown, Position;
    forall c ensures Shown(SnapshotOf(t.loaded), c) == Marked(s.threads, c) {
      ShownIsLoaded(t.loaded, c);
      FinishedCount(s, c);
      assert t.loaded[Position(c)] == Count(s, LOADS[Position(c)]);
    }
  }

  lemma RoutesWithinCalls(s: System)
    requires Exact(s) && AllFinished(s.threads)
    ensures Marked(s.threads, Primary) + Marked(s.threads, Fallback) <= Marked(s.threads, Requests)
  {
    CountsWithinRequests(s);
    FinishedCount(s, Primary);
    FinishedCount(s, Fallback);
    FinishedCount(s, Requests);
    hide Exact, AllFinished, Marked, Count;
  }

  lemma {:induction false} EveryCallIsARequest(threads: seq<Thread>)
    ensures Marked(threads, Requests) == |threads|
  {
    if threads != [] {
      EveryCallIsARequest(threads[..|threads| - 1]);
      assert Ops(threads[|threads| - 1].call)[0] == Requests;
    }
  }

  lemma {:induction false} RunsOneMore(s: System, events: seq<Event>, m: System, e: Event)
    requires Runs(s, events, m) && Enabled(m, e)
    ensures Runs(s, events + [e], Next(m, e))
    decreases |events|
  {
    if events == [] {
      assert Runs(Next(m, e), [], Next(m, e));
    } else {
      RunsOneMore(Next(s, events[0]), events[1..], m, e);
      assert (events + [e])[1..] == events[1..] + [e];
    }
  }

  lemma {:induction false} RunsLoads(s: System, events: seq<Event>, m: System, n: nat) returns (more: seq<Event>, t: System)
    requires Runs(s, events, m) && |m.loaded| + n <= |LOADS|
    ensures Runs(s, more, t) && t.threads == m.threads && t.counts == m.counts && |t.loaded| == |m.loaded| + n
    ensures forall k :: 0 <= k < |t.loaded| ==> t.loaded[k] == if k < |m.loaded| then m.loaded[k] else Count(m, LOADS[k])
    ensures NoBegin(events) ==> NoBegin(more)
  {
    more, t := events, m;
    if n > 0 {
      hide Runs, NoBegin;
      more, t := RunsLoads(s, events, m, n - 1);
      RunsOneMore(s, more, t, Load);
      if NoBegin(events) { NoBeginOneMore(more, Load); }
      more, t := more + [Load], Next(t, Load);
    }
  }

  /** A request that is counted after the snapshot has read the requests can make it show more routes than requests. */
  lemma TornSnapshotCanShowMoreRoutes() returns (events: seq<Event>, t: System)
    ensures Runs(START, events, t) && |t.loaded| == |LOADS|
    ensures var shown := SnapshotOf(t.loaded); shown.primary + shown.fallback > shown.requests
  {
    var call := Call(200, NoCacheMark, ToPrimary);
    assert Ops(call) == [Requests, Primary];
    assert Runs(START, [], START);
    hide Runs, Ops;
    events, t := RunsLoads(START, [], START, 4);
    RunsOneMore(START, events, t, Begin(call));
    events, t := events + [Begin(call)], Next(t, Begin(call));
    RunsOneMore(START, events, t, Advance(0));
    events, t := events + [Advance(0)], Next(t, Advance(0));
    RunsOneMore(START, events, t, Advance(0));
    events, t := events + [Advance(0)], Next(t, Advance(0));
    assert Count(t, Primary) == 1 && t.loaded[3] == 0;
    events, t := RunsLoads(START, events, t, 4);
    assert LOADS[4] == Primary;
  }

  // ---------------------------------------------- routes against requests

  predicate Routed(c: Call) { c.route != NoRouteMark }

  /** Begun, but not counted as a request yet, and to be counted under a route. */
  predicate RoutedToCome(t: Thread) { t.done == 0 && Routed(t.call) }

  /** Counted as a request, and never to be counted under a route. */
  predicate CountedUnrouted(t: Thread) { t.done >= 1 && !Routed(t.call) }

  ghost predicate NoBegin(events: seq<Event>) {
    forall e :: e in events ==> !e.Begin?
  }

  ghost predicate SameCalls(a: seq<Thread>, b: seq<Thread>) {
    |a| == |b| && forall i :: 0 <= i < |a| ==> a[i].call == b[i].call
  }

  /** A snapshot that is complete in `t` shows no more routed calls than requests. */
  ghost predicate RoutesWithin(t: System) {
    |t.loaded| == |LOADS| ==> SnapshotOf(t.loaded).primary + SnapshotOf(t.loaded).fallback <= SnapshotOf(t.loaded).requests
  }

  lemma {:induction false} MarkedOfSameCalls(a: seq<Thread>, b: seq<Thread>, c: Counter)
    requires SameCalls(a, b)
    ensures Marked(a, c) == Marked(b, c)
  {
    if a != [] { MarkedOfSameCalls(a[..|a| - 1], b[..|b| - 1], c); }
  }

  lemma {:induction false} TallyWithinMarked(threads: seq<Thread>, c: Counter)
    ensures Tally(threads, c) <= Marked(threads, c)
  {
    if threads != [] {
      TallyWithinMarked(threads[..|threads| - 1], c);
      BumpedMeans(threads[|threads| - 1], c);
    }
  }

  lemma RouteOfThread(t: Thread)
    requires t.done <= |Ops(t.call)|
    ensures One(Primary in Ops(t.call)) + One(Fallback in Ops(t.call)) + One(CountedUnrouted(t))
            == One(Bumped(t, Requests)) + One(RoutedToCome(t))
  {
    var ops := Ops(t.call);
    assert ops[0] == Requests;
    if t.done >= 1 {
      assert ops[..t.done][0] == Requests;
    }
  }

  /** All calls that will ever count under a route, against those that count as requests now. */
  lemma {:induction false} RoutesByThreads(threads: seq<Thread>)
    requires forall i :: 0 <= i < |threads| ==> threads[i].done <= |Ops(threads[i].call)|
    ensures Marked(threads, Primary) + Marked(threads, Fallback) + Sums.Count(CountedUnrouted, threads)
            == Tally(threads, Requests) + Sums.Count(RoutedToCome, threads)
  {
    if threads != [] {
      RoutesByThreads(threads[..|threads| - 1]);
      RouteOfThread(threads[|threads| - 1]);
      hide Ops, Bumped, RoutedToCome, CountedUnrouted;
    }
  }

  lemma {:induction false} CallsStay(s: System, events: seq<Event>, t: System)
    requires Runs(s, events, t) && NoBegin(events)
    ensures SameCalls(s.threads, t.threads)
    decreases |events|
  {
    if events != [] {
      assert !events[0].Begin?;
      CallsStay(Next(s, events[0]), events[1..], t);
    }
  }

  lemma ShownAtMostCounted(t: System)
    requires ReadEarlier(t) && |t.loaded| == |LOADS|
    ensures SnapshotOf(t.loaded).primary <= Count(t, Primary) && SnapshotOf(t.loaded).fallback <= Count(t, Fallback)
    ensures SnapshotOf(t.loaded).requests == t.loaded[3]
  {
    assert LOADS[4] == Primary && LOADS[5] == Fallback;
    hide HitRate, Count;
  }

  /** No completion without new calls shows more routes than the present calls have. */
  lemma RoutesAtMostMarked(s: System, events: seq<Event>, t: System)
    requires Inv(s) && Runs(s, events, t) && NoBegin(events) && |s.loaded| == 4 && |t.loaded| == |LOADS|
    ensures SnapshotOf(t.loaded).primary + SnapshotOf(t.loaded).fallback <= Marked(s.threads, Primary) + Marked(s.threads, Fallback)
    ensures SnapshotOf(t.loaded).requests == s.loaded[3]
  {
    InvRun(s, events, t);
    CallsStay(s, events, t);
    ShownAtMostCounted(t);
    assert t.loaded[3] == s.loaded[3];
    hide Runs, Tally, Marked, SameCalls, Count, SnapshotOf, ReadEarlier, CacheWithinRequests;
    TallyWithinMarked(t.threads, Primary);
    TallyWithinMarked(t.threads, Fallback);
    MarkedOfSameCalls(s.threads, t.threads, Primary);
    MarkedOfSameCalls(s.threads, t.threads, Fallback);
  }

  lemma NoBeginOneMore(events: seq<Event>, e: Event)
    requires NoBegin(events) && !e.Begin?
    ensures NoBegin(events + [e])
  {
  }

  /** Thread `i` goes on to its end. */
  lemma {:induction false} FinishThread(s: System, events: seq<Event>, m: System, i: nat) returns (more: seq<Event>, t: System)
    requires Runs(s, events, m) && i < |m.threads| && m.threads[i].done <= |Ops(m.threads[i].call)|
    ensures Runs(s, more, t) && t.loaded == m.loaded && (NoBegin(events) ==> NoBegin(more))
    ensures |t.threads| == |m.threads| && t.threads[i].call == m.threads[i].call && Finished(t.threads[i])
    ensures forall k :: 0 <= k < |t.threads| && k != i ==> t.threads[k] == m.threads[k]
    decreases |Ops(m.threads[i].call)| - m.threads[i].done
  {
    more, t := events, m;
    hide Runs, Ops, NoBegin;
    if !Finished(m.threads[i]) {
      RunsOneMore(s, events, m, Advance(i));
      if NoBegin(events) { NoBeginOneMore(events, Advance(i)); }
      more, t := FinishThread(s, events + [Advance(i)], Next(m, Advance(i)), i);
    }
  }

  /** The first `n` threads go on to their end. */
  lemma {:induction false} FinishThreads(s: System, events: seq<Event>, m: System, n: nat) returns (more: seq<Event>, t: System)
    requires Runs(s, events, m) && n <= |m.threads|
    requires forall i :: 0 <= i < |m.threads| ==> m.threads[i].done <= |Ops(m.threads[i].call)|
    ensures Runs(s, more, t) && t.loaded == m.loaded && SameCalls(m.threads, t.threads) && (NoBegin(events) ==> NoBegin(more))
    ensures forall i :: 0 <= i < n ==> Finished(t.threads[i])
    ensures forall i :: n <= i < |m.threads| ==> t.threads[i] == m.threads[i]
  {
    more, t := events, m;
    hide Runs, Ops, NoBegin;
    if n > 0 {
      more, t := FinishThreads(s, events, m, n - 1);
      more, t := FinishThread(s, more, t, n - 1);
    }
  }

  /** Every call is finished before the snapshot goes on, so it shows all their routes. */
  lemma AllRoutesShown(s: System, events: seq<Event>, m: System) returns (more: seq<Event>, t: System)
    requires Inv(s) && Runs(s, events, m) && |m.loaded| == 4
    ensures Runs(s, more, t) && |t.loaded| == |LOADS| && (NoBegin(events) ==> NoBegin(more))
    ensures SnapshotOf(t.loaded).primary + SnapshotOf(t.loaded).fallback == Marked(m.threads, Primary) + Marked(m.threads, Fallback)
    ensures SnapshotOf(t.loaded).requests == m.loaded[3]
  {
    InvRun(s, events, m);
    assert Exact(m);
    hide Runs, Ops, Marked, Tally, NoBegin;
    var all, done := FinishThreads(s, events, m, |m.threads|);
    InvRun(s, all, done);
    assert AllFinished(done.threads);
    FinishedCount(done, Primary);
    FinishedCount(done, Fallback);
    MarkedOfSameCalls(m.threads, done.threads, Primary);
    MarkedOfSameCalls(m.threads, done.threads, Fallback);
    hide Exact, AllFinished, SameCalls, Count, Inv;
    more, t := RunsLoads(s, all, done, 4);
    assert LOADS[4] == Primary && LOADS[5] == Fallback;
  }

  /**
   The routes of a snapshot that has read the requests, and no route yet, stay within them, however the calls under
   way go on, exactly when the requests counted since that read, and the calls that have begun without being counted
   and will be routed, are together no more than the calls that are counted and will not be routed.
   */
  lemma RoutesWithinRequestsIff(before: seq<Event>, s: System)
    requires Runs(START, before, s) && |s.loaded| == 4
    ensures (forall during, t :: Runs(s, during, t) && NoBegin(during) ==> RoutesWithin(t))
            <==> Sums.Count(RoutedToCome, s.threads) + (Count(s, Requests) - s.loaded[3]) <= Sums.Count(CountedUnrouted, s.threads)
  {
    StartHolds();
    InvRun(START, before, s);
    RoutesByThreads(s.threads);
    assert LOADS[3] == Requests && Count(s, Requests) == Tally(s.threads, Requests);
    assert Runs(s, [], s) && NoBegin([]);
    hide Runs, Inv, Exact, Marked, Tally, Count, NoBegin, SnapshotOf;
    if Sums.Count(RoutedToCome, s.threads) + (Count(s, Requests) - s.loaded[3]) <= Sums.Count(CountedUnrouted, s.threads) {
      forall during, t | Runs(s, during, t) && NoBegin(during) ensures RoutesWithin(t) {
        if |t.loaded| == |LOADS| { RoutesAtMostMarked(s, during, t); }
      }
    } else {
      var during, t := AllRoutesShown(s, [], s);
      assert !RoutesWithin(t);
    }
  }

  lemma {:induction false} BeginRouted(s: System, events: seq<Event>, m: System, n: nat) returns (more: seq<Event>, t: System)
    requires Runs(s, events, m)
    ensures Runs(s, more, t) && t.loaded == m.loaded && Marked(t.threads, Primary) >= n
  {
    more, t := events, m;
    if n > 0 {
      hide Runs;
      var call := Call(200, NoCacheMark, ToPrimary);
      more, t := BeginRouted(s, events, m, n - 1);
      RunsOneMore(s, more, t, Begin(call));
      assert Next(t, Begin(call)).threads[..|t.threads|] == t.threads;
      assert Ops(call) == [Requests, Primary];
      more, t := more + [Begin(call)], Next(t, Begin(call));
    }
  }

  /** As soon as new calls may begin, every snapshot that has read the requests, and no route yet, can show more routes than requests. */
  lemma NewCallsCanExceed(before: seq<Event>, s: System) returns (during: seq<Event>, t: System)
    requires Runs(START, before, s) && |s.loaded| == 4
    ensures Runs(s, during, t) && |t.loaded| == |LOADS| && !RoutesWithin(t)
  {
    StartHolds();
    InvRun(START, before, s);
    assert Runs(s, [], s);
    hide Runs, Inv, Marked, SnapshotOf;
    during, t := BeginRouted(s, [], s, s.loaded[3] + 1);
    during, t := AllRoutesShown(s, during, t);
  }
}
