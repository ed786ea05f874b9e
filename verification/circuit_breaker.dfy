/**
 The rolling-window circuit breaker in front of the primary upstream.  Instants
 and durations are integers of the clock's own resolution.
 */
module CircuitBreaker {
  import opened Common

  type Time = int

  datatype State = ClosedState | OpenState | HalfOpenState

  datatype Config = Config(threshold: int, window: int, openDuration: int, probeTimeout: int)

  datatype Breaker = Breaker(
    state: State,
    failures: seq<Time>,
    openedAt: Time,
    inFlight: bool,
    startedAt: Option<Time>)

  datatype Call = Route(now: Time) | Success(now: Time) | Failure(now: Time)

  predicate ValidConfig(c: Config) {
    c.threshold > 0 && c.window > 0 && c.openDuration > 0 && c.probeTimeout > 0
  }

  const NEW := Breaker(ClosedState, [], 0, false, None)

  // ------------------------------------------------------------ the methods

  /** Drops the leading failures older than the window. */
  function Prune(failures: seq<Time>, cutoff: Time): seq<Time> {
    if failures != [] && failures[0] < cutoff then Prune(failures[1..], cutoff) else failures
  }

  function Open(b: Breaker, now: Time): Breaker {
    b.(state := OpenState, openedAt := now, inFlight := false, startedAt := None)
  }

  function ExpireStaleProbe(c: Config, b: Breaker, now: Time): Breaker {
    if b.inFlight && b.startedAt.Some? && now - b.startedAt.value >= c.probeTimeout
    then b.(inFlight := false, startedAt := None) else b
  }

  /** The breaker after a routing decision, and whether the request goes to the primary. */
  function Routed(c: Config, b: Breaker, now: Time): (Breaker, bool) {
    match b.state
    case OpenState =>
      if now - b.openedAt >= c.openDuration && !b.inFlight
      then (b.(state := HalfOpenState, inFlight := true, startedAt := Some(now)), true)
      else (b, false)
    case HalfOpenState =>
      var b1 := ExpireStaleProbe(c, b, now);
      if b1.inFlight then (b1, false) else (b1.(inFlight := true, startedAt := Some(now)), true)
    case ClosedState => (b, true)
  }

  function Succeeded(c: Config, b: Breaker, now: Time): Breaker {
    if b.state == HalfOpenState
    then b.(state := ClosedState, failures := [], inFlight := false, startedAt := None)
    else b.(failures := Prune(b.failures, now - c.window))
  }

  function Failed(c: Config, b: Breaker, now: Time): Breaker {
    var b1 := b.(failures := Prune(b.failures, now - c.window) + [now]);
    if b.state == HalfOpenState || (b.state == ClosedState && |b1.failures| >= c.threshold) then Open(b1, now) else b1
  }

  function After(c: Config, b: Breaker, call: Call): Breaker {
    match call
    case Route(now) => Routed(c, b, now).0
    case Success(now) => Succeeded(c, b, now)
    case Failure(now) => Failed(c, b, now)
  }

  predicate AdmitsPrimary(c: Config, b: Breaker, call: Call) {
    call.Route? && Routed(c, b, call.now).1
  }

  method PruneFailures(failures: seq<Time>, now: Time, window: int) returns (kept: seq<Time>)
    ensures kept == Prune(failures, now - window)
  {
    var cutoff, firstKept := now - window, 0;
    while firstKept < |failures| && failures[firstKept] < cutoff
      invariant 0 <= firstKept <= |failures|
      invariant Prune(failures[firstKept..], cutoff) == Prune(failures, cutoff)
    {
      assert failures[firstKept..][1..] == failures[firstKept + 1..];
      firstKept := firstKept + 1;
    }
    kept := failures[firstKept..];
  }

  /** The breaker as the gateway shares it: each public method runs under one mutex. */
  class SharedBreaker {
    const config: Config
    var state: State
    var failures: seq<Time>
    var openedAt: Time
    var halfOpenInFlight: bool
    var halfOpenStartedAt: Option<Time>

    constructor (c: Config)
      ensures config == c && Value() == NEW
    {
      config := c;
      state, failures, openedAt := ClosedState, [], 0;
      halfOpenInFlight, halfOpenStartedAt := false, None;
    }

    function Value(): Breaker
      reads this
    {
      Breaker(state, failures, openedAt, halfOpenInFlight, halfOpenStartedAt)
    }

    method Route(now: Time) returns (useFallback: bool, stateAfter: State)
      modifies this
      ensures Value() == After(config, old(Value()), Call.Route(now))
      ensures useFallback == !AdmitsPrimary(config, old(Value()), Call.Route(now))
      ensures stateAfter == state
    {
      useFallback := false;
      match state {
      case OpenState =>
        if now - openedAt >= config.openDuration && !halfOpenInFlight {
          state, halfOpenInFlight, halfOpenStartedAt := HalfOpenState, true, Some(now);
        } else {
          useFallback := true;
        }
      case HalfOpenState =>
        if halfOpenInFlight && halfOpenStartedAt.Some? && now - halfOpenStartedAt.value >= config.probeTimeout {
          halfOpenInFlight, halfOpenStartedAt := false, None;
        }
        if halfOpenInFlight {
          useFallback := true;
        } else {
          halfOpenInFlight, halfOpenStartedAt := true, Some(now);
        }
      case ClosedState =>
      }
      stateAfter := state;
    }

    method RecordSuccess(now: Time)
      modifies this
      ensures Value() == After(config, old(Value()), Success(now))
    {
      if state == HalfOpenState {
        state, failures, halfOpenInFlight, halfOpenStartedAt := ClosedState, [], false, None;
        return;
      }
      failures := PruneFailures(failures, now, config.window);
    }

    method RecordFailure(now: Time)
      modifies this
      ensures Value() == After(config, old(Value()), Failure(now))
    {
      var kept := PruneFailures(failures, now, config.window);
      failures := kept + [now];
      if state == HalfOpenState || (state == ClosedState && |failures| >= config.threshold) {
        state, openedAt, halfOpenInFlight, halfOpenStartedAt := OpenState, now, false, None;
      }
    }
  }

  // ------------------------------------------------------------------- runs

  predicate Ordered(calls: seq<Call>) {
    forall i, j :: 0 <= i < j < |calls| ==> calls[i].now <= calls[j].now
  }

  /** The breaker after a sequence of public calls on a new one. */
  function Run(c: Config, calls: seq<Call>): Breaker {
    if calls == [] then NEW else After(c, Run(c, calls[..|calls| - 1]), calls[|calls| - 1])
  }

  /** The independent record: every failure reported since the breaker last closed. */
  function FailuresSinceClose(c: Config, calls: seq<Call>): seq<Time> {
    if calls == [] then []
    else
      var before := FailuresSinceClose(c, calls[..|calls| - 1]);
      match calls[|calls| - 1]
      case Route(_) => before
      case Success(_) => if Run(c, calls[..|calls| - 1]).state == HalfOpenState then [] else before
      case Failure(now) => before + [now]
  }

  /** How many of `times` lie in [from, to]. */
  function CountWithin(times: seq<Time>, from: Time, to: Time): nat {
    if times == [] then 0
    else CountWithin(times[..|times| - 1], from, to) + if from <= times[|times| - 1] <= to then 1 else 0
  }

  ghost predicate SortedUpTo(s: seq<Time>, last: Time) {
    && (forall i, j :: 0 <= i < j < |s| ==> s[i] <= s[j])
    && (forall i :: 0 <= i < |s| ==> s[i] <= last)
  }

  /** `kept` is what remains of `all` after dropping a prefix of entries older than `cutoff`. */
  ghost predicate KeepsRecent(kept: seq<Time>, all: seq<Time>, cutoff: Time) {
    && |kept| <= |all| && kept == all[|all| - |kept|..]
    && (forall i :: 0 <= i < |all| - |kept| ==> all[i] < cutoff)
  }

  lemma {:induction false} PruneKeepsRecent(kept: seq<Time>, all: seq<Time>, before: Time, cutoff: Time)
    requires KeepsRecent(kept, all, before) && before <= cutoff
    ensures KeepsRecent(Prune(kept, cutoff), all, cutoff)
    ensures Prune(kept, cutoff) != [] ==> Prune(kept, cutoff)[0] >= cutoff
    decreases |kept|
  {
    if kept != [] && kept[0] < cutoff {
      assert kept[1..] == all[|all| - |kept| + 1..];
      PruneKeepsRecent(kept[1..], all, cutoff, cutoff);
    }
  }

  lemma {:induction false} CountOfRecent(kept: seq<Time>, all: seq<Time>, cutoff: Time, to: Time)
    requires KeepsRecent(kept, all, cutoff) && SortedUpTo(all, to) && (kept != [] ==> kept[0] >= cutoff)
    ensures CountWithin(all, cutoff, to) == |kept|
    decreases |all|
  {
    if all != [] {
      var rest := all[..|all| - 1];
      if kept == [] {
        CountOfRecent([], rest, cutoff, to);
      } else {
        assert kept[..|kept| - 1] == rest[|rest| - (|kept| - 1)..];
        assert kept[0] <= kept[|kept| - 1];
        CountOfRecent(kept[..|kept| - 1], rest, cutoff, to);
      }
    }
  }

  lemma KeepsRecentAppend(kept: seq<Time>, all: seq<Time>, cutoff: Time, x: Time)
    requires KeepsRecent(kept, all, cutoff)
    ensures KeepsRecent(kept + [x], all + [x], cutoff)
  {
  }

  lemma {:induction false} PruneShrinks(failures: seq<Time>, cutoff: Time)
    ensures |Prune(failures, cutoff)| <= |failures|
    decreases |failures|
  {
    if failures != [] && failures[0] < cutoff { PruneShrinks(failures[1..], cutoff); }
  }

  /** What every public call keeps, against the record of all failures since the last close. */
  ghost predicate BreakerOk(c: Config, b: Breaker, log: seq<Time>, last: Time) {
    && SortedUpTo(log, last)
    && KeepsRecent(b.failures, log, last - c.window)
    && (b.state == ClosedState ==> |b.failures| < c.threshold)
    && (b.state == HalfOpenState <==> b.inFlight)
    && (b.inFlight <==> b.startedAt.Some?)
  }

  function LogAfter(b: Breaker, log: seq<Time>, call: Call): seq<Time> {
    match call
    case Route(_) => log
    case Success(_) => if b.state == HalfOpenState then [] else log
    case Failure(now) => log + [now]
  }

  lemma SuccessStep(c: Config, b: Breaker, log: seq<Time>, last: Time, now: Time)
    requires ValidConfig(c) && BreakerOk(c, b, log, last) && last <= now
    ensures BreakerOk(c, Succeeded(c, b, now), LogAfter(b, log, Success(now)), now)
  {
    PruneKeepsRecent(b.failures, log, last - c.window, now - c.window);
    PruneShrinks(b.failures, now - c.window);
  }

  lemma SortedAppend(log: seq<Time>, last: Time, now: Time)
    requires SortedUpTo(log, last) && last <= now
    ensures SortedUpTo(log + [now], now) && SortedUpTo(log, now)
  {
  }

  lemma FailedIsOk(c: Config, b: Breaker, log: seq<Time>, now: Time, kept: seq<Time>)
    requires ValidConfig(c) && kept == Prune(b.failures, now - c.window)
    requires KeepsRecent(kept + [now], log, now - c.window) && SortedUpTo(log, now)
    requires (b.state == HalfOpenState <==> b.inFlight) && (b.inFlight <==> b.startedAt.Some?)
    ensures BreakerOk(c, Failed(c, b, now), log, now)
  {
    hide Prune, KeepsRecent, SortedUpTo;
  }

  lemma FailureStep(c: Config, b: Breaker, log: seq<Time>, last: Time, now: Time)
    requires ValidConfig(c) && BreakerOk(c, b, log, last) && last <= now
    ensures BreakerOk(c, Failed(c, b, now), LogAfter(b, log, Failure(now)), now)
  {
    hide Prune, KeepsRecent, SortedUpTo, Failed;
    var kept := Prune(b.failures, now - c.window);
    PruneKeepsRecent(b.failures, log, last - c.window, now - c.window);
    KeepsRecentAppend(kept, log, now - c.window, now);
    SortedAppend(log, last, now);
    FailedIsOk(c, b, log + [now], now, kept);
  }

  lemma BreakerStep(c: Config, b: Breaker, log: seq<Time>, last: Time, call: Call)
    requires ValidConfig(c) && BreakerOk(c, b, log, last) && last <= call.now
    ensures BreakerOk(c, After(c, b, call), LogAfter(b, log, call), call.now)
  {
    match call
    case Route(now) => assert KeepsRecent(b.failures, log, now - c.window);
    case Success(now) => SuccessStep(c, b, log, last, now);
    case Failure(now) => FailureStep(c, b, log, last, now);
  }

  lemma RunAppended(c: Config, calls: seq<Call>, call: Call)
    ensures Run(c, calls + [call]) == After(c, Run(c, calls), call)
    ensures FailuresSinceClose(c, calls + [call]) == LogAfter(Run(c, calls), FailuresSinceClose(c, calls), call)
  {
    assert (calls + [call])[..|calls|] == calls;
  }

  lemma OrderedPrefix(calls: seq<Call>, call: Call)
    requires Ordered(calls + [call])
    ensures Ordered(calls) && (calls != [] ==> calls[|calls| - 1].now <= call.now)
  {
    var all := calls + [call];
    assert forall i :: 0 <= i < |calls| ==> all[i] == calls[i];
    assert all[|calls|] == call;
  }

  lemma NewIsOk(c: Config, last: Time)
    requires ValidConfig(c)
    ensures BreakerOk(c, NEW, [], last)
  {
  }

  lemma {:induction false} BreakerInvariant(c: Config, calls: seq<Call>, last: Time)
    requires ValidConfig(c) && Ordered(calls) && (calls != [] ==> calls[|calls| - 1].now <= last)
    ensures BreakerOk(c, Run(c, calls), FailuresSinceClose(c, calls), last)
    decreases |calls|
  {
    hide BreakerOk, Ordered, After, LogAfter, ValidConfig;
    if calls == [] {
      NewIsOk(c, last);
    } else {
      var before, call := calls[..|calls| - 1], calls[|calls| - 1];
      assert calls == before + [call];
      OrderedPrefix(before, call);
      BreakerInvariant(c, before, call.now);
      RunAppended(c, before, call);
      BreakerStep(c, Run(c, before), FailuresSinceClose(c, before), call.now, call);
      OkLater(c, Run(c, calls), FailuresSinceClose(c, calls), call.now, last);
    }
  }

  lemma OkLater(c: Config, b: Breaker, log: seq<Time>, now: Time, last: Time)
    requires BreakerOk(c, b, log, now) && now <= last
    ensures BreakerOk(c, b, log, last)
  {
  }

  // ------------------------------------------------------------ main results

  /** On a closed breaker a failure opens exactly when the log then holds enough recent failures. */
  lemma FailureOpens(c: Config, b: Breaker, log: seq<Time>, now: Time)
    requires ValidConfig(c) && BreakerOk(c, b, log, now) && b.state == ClosedState
    ensures Failed(c, b, now).state ==
            if CountWithin(log + [now], now - c.window, now) >= c.threshold then OpenState else ClosedState
  {
    var cutoff := now - c.window;
    PruneKeepsRecent(b.failures, log, cutoff, cutoff);
    CountOfRecent(Prune(b.failures, cutoff), log, cutoff, now);
    assert (log + [now])[..|log|] == log;
    assert CountWithin(log + [now], cutoff, now) == CountWithin(log, cutoff, now) + 1;
    hide Prune, CountWithin, KeepsRecent, SortedUpTo;
  }

  /**
   A closed breaker opens on a failure reported at `now` exactly when at least `threshold` failures since
   the last close, this one included, lie in [now - window, now].
   */
  lemma OpensExactlyAtThreshold(c: Config, calls: seq<Call>, now: Time)
    requires ValidConfig(c) && Ordered(calls + [Failure(now)])
    requires Run(c, calls).state == ClosedState
    ensures Run(c, calls + [Failure(now)]).state ==
            if CountWithin(FailuresSinceClose(c, calls + [Failure(now)]), now - c.window, now) >= c.threshold
            then OpenState else ClosedState
  {
    OrderedPrefix(calls, Failure(now));
    BreakerInvariant(c, calls, now);
    RunAppended(c, calls, Failure(now));
    hide BreakerOk, Failed, Run, FailuresSinceClose, CountWithin, Ordered;
    FailureOpens(c, Run(c, calls), FailuresSinceClose(c, calls), now);
  }

  /** After every public call: a closed breaker is below its threshold, and half-open means one probe in flight. */
  lemma StateReflectsProbe(c: Config, calls: seq<Call>)
    requires ValidConfig(c) && Ordered(calls)
    ensures Run(c, calls).state == ClosedState ==> |Run(c, calls).failures| < c.threshold
    ensures Run(c, calls).state == HalfOpenState <==> Run(c, calls).inFlight
    ensures Run(c, calls).inFlight <==> Run(c, calls).startedAt.Some?
  {
    BreakerInvariant(c, calls, if calls == [] then 0 else calls[|calls| - 1].now);
  }

  // ---------------------------------------------------------- probe spacing

  /** The breaker is not closed before, between or after the calls of the stretch. */
  predicate NeverClosed(c: Config, b: Breaker, calls: seq<Call>)
    decreases |calls|
  {
    b.state != ClosedState && (calls == [] || NeverClosed(c, After(c, b, calls[0]), calls[1..]))
  }

  function PrimaryAdmissions(c: Config, b: Breaker, calls: seq<Call>): nat
    decreases |calls|
  {
    if calls == [] then 0
    else (if AdmitsPrimary(c, b, calls[0]) then 1 else 0) + PrimaryAdmissions(c, After(c, b, calls[0]), calls[1..])
  }

  function Spacing(c: Config): int {
    if c.openDuration <= c.probeTimeout then c.openDuration else c.probeTimeout
  }

  /** No primary request can be admitted before `free`. */
  ghost predicate BlockedUntil(c: Config, b: Breaker, free: Time) {
    match b.state
    case ClosedState => false
    case OpenState => b.openedAt + c.openDuration >= free
    case HalfOpenState => b.inFlight && b.startedAt.Some? && b.startedAt.value + c.probeTimeout >= free
  }

  lemma BlockStep(c: Config, b: Breaker, call: Call, free: Time)
    requires ValidConfig(c) && BlockedUntil(c, b, free) && (b.state == HalfOpenState <==> b.inFlight)
    requires free - Spacing(c) <= call.now && After(c, b, call).state != ClosedState
    ensures After(c, b, call).state == HalfOpenState <==> After(c, b, call).inFlight
    ensures if AdmitsPrimary(c, b, call)
            then call.now >= free && BlockedUntil(c, After(c, b, call), call.now + Spacing(c))
            else BlockedUntil(c, After(c, b, call), free)
  {
    hide Prune;
  }

  lemma OneMore(n: nat, spacing: int)
    ensures (1 + n) * spacing == n * spacing + spacing
  {
  }

  lemma {:induction false} AdmissionsAfterBlock(c: Config, b: Breaker, calls: seq<Call>, free: Time, end: Time)
    requires ValidConfig(c) && Ordered(calls) && NeverClosed(c, b, calls)
    requires b.state == HalfOpenState <==> b.inFlight
    requires BlockedUntil(c, b, free) && (forall i :: 0 <= i < |calls| ==> free - Spacing(c) <= calls[i].now <= end)
    requires end >= free - Spacing(c)
    ensures PrimaryAdmissions(c, b, calls) * Spacing(c) <= end - free + Spacing(c)
    decreases |calls|
  {
    hide After, AdmitsPrimary, BlockedUntil;
    if calls != [] {
      var call, rest := calls[0], calls[1..];
      var next := After(c, b, call);
      assert NeverClosed(c, next, rest);
      assert next.state != ClosedState;
      BlockStep(c, b, call, free);
      if AdmitsPrimary(c, b, call) {
        AdmissionsAfterBlock(c, next, rest, call.now + Spacing(c), end);
        OneMore(PrimaryAdmissions(c, next, rest), Spacing(c));
      } else {
        AdmissionsAfterBlock(c, next, rest, free, end);
      }
    }
  }

  /** Half-open means one probe in flight, since some instant. */
  ghost predicate ProbeOk(b: Breaker) {
    (b.state == HalfOpenState <==> b.inFlight) && (b.inFlight <==> b.startedAt.Some?)
  }

  lemma ProbeOkStep(c: Config, b: Breaker, call: Call)
    requires ProbeOk(b)
    ensures ProbeOk(After(c, b, call))
  {
    hide Prune;
  }

  lemma ProbeOkAfter(c: Config, before: seq<Call>, calls: seq<Call>)
    requires ValidConfig(c) && Ordered(before + calls)
    ensures ProbeOk(Run(c, before)) && Ordered(calls)
  {
    var all := before + calls;
    assert forall i :: 0 <= i < |before| ==> all[i] == before[i];
    assert forall i :: 0 <= i < |calls| ==> all[|before| + i] == calls[i];
    StateReflectsProbe(c, before);
  }

  lemma AdmissionBlocks(c: Config, b: Breaker, call: Call)
    requires ValidConfig(c) && b.state != ClosedState && AdmitsPrimary(c, b, call)
    ensures After(c, b, call).state == HalfOpenState && After(c, b, call).inFlight
    ensures BlockedUntil(c, After(c, b, call), call.now + Spacing(c))
  {
  }

  lemma {:induction false} AdmissionsInStretch(c: Config, b: Breaker, calls: seq<Call>, start: Time, end: Time)
    requires ValidConfig(c) && ProbeOk(b) && Ordered(calls) && start <= end && NeverClosed(c, b, calls)
    requires forall i :: 0 <= i < |calls| ==> start <= calls[i].now <= end
    ensures PrimaryAdmissions(c, b, calls) <= 1 + (end - start) / Spacing(c)
    decreases |calls|
  {
    hide After, AdmitsPrimary, BlockedUntil;
    DivAtLeast(0, end - start, Spacing(c));
    if calls != [] {
      var call, rest := calls[0], calls[1..];
      var next := After(c, b, call);
      ProbeOkStep(c, b, call);
      if AdmitsPrimary(c, b, call) {
        AdmissionBlocks(c, b, call);
        AdmissionsAfterBlock(c, next, rest, call.now + Spacing(c), end);
        DivAtLeast(PrimaryAdmissions(c, next, rest), end - start, Spacing(c));
      } else {
        AdmissionsInStretch(c, next, rest, start, end);
      }
    }
  }

  /**
   While the breaker is never closed, primary admissions are at least `min(openDuration, probeTimeout)`
   apart: a stretch of calls within [start, end] admits at most `1 + (end - start) / min` of them.
   */
  lemma ProbesAreSpaced(c: Config, before: seq<Call>, calls: seq<Call>, start: Time, end: Time)
    requires ValidConfig(c) && Ordered(before + calls) && start <= end
    requires NeverClosed(c, Run(c, before), calls)
    requires forall i :: 0 <= i < |calls| ==> start <= calls[i].now <= end
    ensures PrimaryAdmissions(c, Run(c, before), calls) <= 1 + (end - start) / Spacing(c)
  {
    ProbeOkAfter(c, before, calls);
    hide Run, NeverClosed, PrimaryAdmissions, Ordered;
    AdmissionsInStretch(c, Run(c, before), calls, start, end);
  }

  lemma MulMonotone(x: int, y: int, z: int)
    requires x <= y && z >= 0
    ensures x * z <= y * z
  {
  }

  lemma DivAtLeast(n: nat, length: int, spacing: int)
    requires spacing > 0 && n * spacing <= length
    ensures n <= length / spacing
  {
    assert length < (length / spacing + 1) * spacing;
    if n >= length / spacing + 1 {
      MulMonotone(length / spacing + 1, n, spacing);
    }
  }

  predicate AdmitsAt(c: Config, b: Breaker, calls: seq<Call>, i: nat)
    requires i < |calls|
    decreases i
  {
    if i == 0 then AdmitsPrimary(c, b, calls[0]) else AdmitsAt(c, After(c, b, calls[0]), calls[1..], i - 1)
  }

  lemma {:induction false} NoneAdmittedBefore(c: Config, b: Breaker, calls: seq<Call>, free: Time, j: nat)
    requires ValidConfig(c) && Ordered(calls) && NeverClosed(c, b, calls) && j < |calls|
    requires b.state == HalfOpenState <==> b.inFlight
    requires BlockedUntil(c, b, free) && free - Spacing(c) <= calls[0].now
    requires AdmitsAt(c, b, calls, j)
    ensures calls[j].now >= free
    decreases j
  {
    hide After, AdmitsPrimary, BlockedUntil;
    var next := After(c, b, calls[0]);
    assert NeverClosed(c, next, calls[1..]);
    BlockStep(c, b, calls[0], free);
    if j > 0 {
      if AdmitsPrimary(c, b, calls[0]) {
        NoneAdmittedBefore(c, next, calls[1..], calls[0].now + Spacing(c), j - 1);
      } else {
        NoneAdmittedBefore(c, next, calls[1..], free, j - 1);
      }
    }
  }

  lemma {:induction false} TwoAdmissionsApart(c: Config, b: Breaker, calls: seq<Call>, i: nat, j: nat)
    requires ValidConfig(c) && ProbeOk(b) && Ordered(calls) && i < j < |calls| && NeverClosed(c, b, calls)
    requires AdmitsAt(c, b, calls, i) && AdmitsAt(c, b, calls, j)
    ensures calls[j].now - calls[i].now >= Spacing(c)
    decreases i
  {
    hide After, AdmitsPrimary, BlockedUntil;
    var call, rest := calls[0], calls[1..];
    var next := After(c, b, call);
    ProbeOkStep(c, b, call);
    if i == 0 {
      AdmissionBlocks(c, b, call);
      NoneAdmittedBefore(c, next, rest, call.now + Spacing(c), j - 1);
    } else {
      TwoAdmissionsApart(c, next, rest, i - 1, j - 1);
    }
  }

  /** Any two primary admissions of such a stretch are at least `min(openDuration, probeTimeout)` apart. */
  lemma TwoProbesApart(c: Config, before: seq<Call>, calls: seq<Call>, i: nat, j: nat)
    requires ValidConfig(c) && Ordered(before + calls) && i < j < |calls|
    requires NeverClosed(c, Run(c, before), calls)
    requires AdmitsAt(c, Run(c, before), calls, i) && AdmitsAt(c, Run(c, before), calls, j)
    ensures calls[j].now - calls[i].now >= Spacing(c)
  {
    ProbeOkAfter(c, before, calls);
    hide Run, NeverClosed, AdmitsAt, Ordered;
    TwoAdmissionsApart(c, Run(c, before), calls, i, j);
  }
}
