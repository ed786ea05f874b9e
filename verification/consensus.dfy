/** The consensus gate between a synthesized response and its delivery. */
module Consensus {
  import opened Common
  import opened Sums

  datatype Dimension = Factual | Logic | Completeness

  datatype Assessment = Assessment(dimension: Dimension, score: int, anomalies: seq<string>, confidence: real)

  // What a critic call ends in after its retries.
  datatype Answer = Answered(assessment: Assessment) | Raised
  datatype Critic = Critic(dimension: Dimension, answer: Answer)

  datatype Failure = CriticFailure(dimension: Dimension) | RuntimeFailure | AdjudicatorFailure

  datatype Trigger =
    | ScoreBelow(dimension: Dimension, threshold: int)
    | FlaggedAnomalies(dimension: Dimension)
    | CriticFailed(dimension: Dimension)
    | ArbitrationTimeout
    | InsufficientQuorum
    | AdjudicatorFailed
    | EmptyFinalResponse
    | ArbitratorRuntimeFailure

  datatype Action = ReleaseOriginal | Remediate | Block | RequestReview

  type Confidence = x: real | 0.0 <= x <= 1.0 witness 0.0

  datatype Adjudication = Adjudication(action: Action, confidence: Confidence, remediated: Option<string>)

  // An adjudicator that raises is one that answers `None`.
  type Adjudicator = (seq<Assessment>, seq<Failure>, seq<Trigger>) -> Option<Adjudication>

  datatype Status = Passed | PassedDegraded | Remediated | Blocked | ManualReview

  datatype Verdict = Verdict(
    status: Status, allowed: bool, output: string, adjudicationRequired: bool,
    assessments: seq<Assessment>, failures: seq<Failure>, triggers: seq<Trigger>, confidence: Confidence)

  const BLOCKED_RESPONSE := "I could not safely deliver that response because the arbitration layer flagged it for review."

  // -------------------------------------------------------------- confidence

  /** Rounding to four decimals: to a nearest multiple, halves either way. */
  ghost predicate RoundsToFour(round: real -> real) {
    forall x :: exists n: int :: IsNearest(round(x), x, n)
  }

  predicate IsNearest(rounded: real, x: real, n: int) {
    rounded == n as real / 10000.0 && -0.00005 <= rounded - x <= 0.00005
  }

  predicate InRange(a: Assessment) {
    1 <= a.score <= 5 && 0.0 <= a.confidence <= 1.0
  }

  function ConfidenceOf(a: Assessment): real { a.confidence }

  lemma {:induction false} MeanConfidence(assessments: seq<Assessment>)
    requires forall a :: a in assessments ==> InRange(a)
    ensures 0.0 <= Sum(ConfidenceOf, assessments) <= |assessments| as real
  {
    if assessments != [] {
      assert assessments[|assessments| - 1] in assessments;
      assert forall a :: a in assessments[..|assessments| - 1] ==> a in assessments;
      MeanConfidence(assessments[..|assessments| - 1]);
    }
  }

  lemma RoundedAtMostOne(round: real -> real, x: real)
    requires RoundsToFour(round) && x <= 1.0
    ensures round(x) <= 1.0
  {
    var n: int :| IsNearest(round(x), x, n);
  }

  lemma FractionAtMostOne(part: real, whole: real)
    requires whole > 0.0 && part <= whole
    ensures part / whole <= 1.0
  {
    var q := part / whole;
    assert q * whole == part;
    assert q > 1.0 ==> q * whole > whole;
  }

  /** The mean confidence less a penalty for each failure, never below zero: a number between 0 and 1. */
  function CombinedConfidence(round: real -> real, assessments: seq<Assessment>, failures: nat): (c: Confidence)
    requires RoundsToFour(round) && forall a :: a in assessments ==> InRange(a)
    ensures assessments == [] ==> c == 0.0
  {
    if assessments == [] then 0.0
    else
      var base := Sum(ConfidenceOf, assessments) / |assessments| as real;
      var score := round(base - 0.15 * failures as real);
      MeanConfidence(assessments);
      FractionAtMostOne(Sum(ConfidenceOf, assessments), |assessments| as real);
      RoundedAtMostOne(round, base - 0.15 * failures as real);
      if score < 0.0 then 0.0 else score
  }

  // ---------------------------------------------------------------- critics

  /** The assessment of a critic whose answer is valid and about its own dimension. */
  function RunCritic(c: Critic): Option<Assessment> {
    if c.answer.Answered? && InRange(c.answer.assessment) && c.answer.assessment.dimension == c.dimension
    then Some(c.answer.assessment) else None
  }

  function Assessments(critics: seq<Critic>): seq<Assessment> {
    if critics == [] then []
    else
      var last := critics[|critics| - 1];
      Assessments(critics[..|critics| - 1]) + match RunCritic(last) case Some(a) => [a] case None => []
  }

  function Failures(critics: seq<Critic>): seq<Failure> {
    if critics == [] then []
    else
      var last := critics[|critics| - 1];
      Failures(critics[..|critics| - 1]) + if RunCritic(last).None? then [CriticFailure(last.dimension)] else []
  }

  /** What the assessments and the failed critics object to. */
  predicate Objects(a: Assessment, threshold: int) {
    a.score < threshold || a.anomalies != []
  }

  function TriggersOf(a: Assessment, threshold: int): seq<Trigger> {
    (if a.score < threshold then [ScoreBelow(a.dimension, threshold)] else [])
    + (if a.anomalies != [] then [FlaggedAnomalies(a.dimension)] else [])
  }

  function AllTriggers(assessments: seq<Assessment>, threshold: int): seq<Trigger> {
    if assessments == [] then []
    else AllTriggers(assessments[..|assessments| - 1], threshold) + TriggersOf(assessments[|assessments| - 1], threshold)
  }

  method FindTriggers(assessments: seq<Assessment>, threshold: int) returns (triggers: seq<Trigger>)
    ensures triggers == AllTriggers(assessments, threshold)
  {
    triggers := [];
    for i := 0 to |assessments|
      invariant triggers == AllTriggers(assessments[..i], threshold)
    {
      var a := assessments[i];
      assert assessments[..i + 1][..i] == assessments[..i];
      ghost var before := triggers;
      if a.score < threshold { triggers := triggers + [ScoreBelow(a.dimension, threshold)]; }
      if a.anomalies != [] { triggers := triggers + [FlaggedAnomalies(a.dimension)]; }
      assert triggers == before + TriggersOf(a, threshold);
    }
    assert assessments[..|assessments|] == assessments;
  }

  lemma {:induction false} NoTriggersNoObjections(assessments: seq<Assessment>, threshold: int)
    ensures AllTriggers(assessments, threshold) == [] <==> forall a :: a in assessments ==> !Objects(a, threshold)
  {
    if assessments != [] {
      var front, last := assessments[..|assessments| - 1], assessments[|assessments| - 1];
      NoTriggersNoObjections(front, threshold);
      assert assessments == front + [last] && last in assessments;
      assert TriggersOf(last, threshold) == [] <==> !Objects(last, threshold);
      hide TriggersOf, Objects;
    }
  }

  /** The triggers are exactly the objections of the assessments. */
  lemma {:induction false} TriggersAreObjections(assessments: seq<Assessment>, threshold: int, t: Trigger)
    ensures t in AllTriggers(assessments, threshold) <==> exists a :: a in assessments && RaisedBy(t, a, threshold)
  {
    if assessments != [] {
      var front, last := assessments[..|assessments| - 1], assessments[|assessments| - 1];
      TriggersAreObjections(front, threshold, t);
      assert assessments == front + [last];
      assert t in TriggersOf(last, threshold) <==> RaisedBy(t, last, threshold);
      hide TriggersOf, RaisedBy;
    }
  }

  predicate RaisedBy(t: Trigger, a: Assessment, threshold: int) {
    || (t == ScoreBelow(a.dimension, threshold) && a.score < threshold)
    || (t == FlaggedAnomalies(a.dimension) && a.anomalies != [])
  }

  function FailureTriggers(failures: seq<Failure>): seq<Trigger> {
    if failures == [] then []
    else
      var last := failures[|failures| - 1];
      FailureTriggers(failures[..|failures| - 1]) + if last.CriticFailure? then [CriticFailed(last.dimension)] else []
  }

  // ---------------------------------------------------------------- verdicts

  function PassVerdict(round: real -> real, text: string, assessments: seq<Assessment>): Verdict
    requires RoundsToFour(round) && forall a :: a in assessments ==> InRange(a)
  {
    Verdict(Passed, true, text, false, assessments, [], [], CombinedConfidence(round, assessments, 0))
  }

  function BlockedVerdict(round: real -> real, status: Status, assessments: seq<Assessment>, failures: seq<Failure>, triggers: seq<Trigger>): Verdict
    requires RoundsToFour(round) && forall a :: a in assessments ==> InRange(a)
  {
    Verdict(status, false, BLOCKED_RESPONSE, true, assessments, failures, triggers,
            CombinedConfidence(round, assessments, |failures|))
  }

  function VerdictFromAdjudication(round: real -> real, text: string, assessments: seq<Assessment>, failures: seq<Failure>,
                                   triggers: seq<Trigger>, adjudication: Adjudication): Verdict
    requires RoundsToFour(round) && forall a :: a in assessments ==> InRange(a)
  {
    if adjudication.action == ReleaseOriginal then
      Verdict(if failures != [] then PassedDegraded else Passed, true, text, true, assessments, failures, triggers, adjudication.confidence)
    else if adjudication.action == Remediate && adjudication.remediated.Some? && adjudication.remediated.value != "" then
      Verdict(Remediated, true, adjudication.remediated.value, true, assessments, failures, triggers, adjudication.confidence)
    else
      BlockedVerdict(round, if adjudication.action == Block then Blocked else ManualReview, assessments, failures, triggers)
  }

  // ------------------------------------------------------------- arbitration

  /** No critic failed and none objects. */
  ghost predicate Unanimous(critics: seq<Critic>, threshold: int) {
    forall c :: c in critics ==> RunCritic(c).Some? && !Objects(RunCritic(c).value, threshold)
  }

  /** How many critics gave an assessment. */
  function Quorum(critics: seq<Critic>): nat {
    Count((c: Critic) => RunCritic(c).Some?, critics)
  }

  ghost predicate Released(v: Verdict) { v.allowed && v.status in {Passed, PassedDegraded} }

  /** The adjudicator's answer is a correction that may replace the text. */
  ghost predicate Corrects(asked: Option<Adjudication>) {
    && asked.Some? && asked.value.action == Remediate
    && asked.value.remediated.Some? && asked.value.remediated.value != ""
  }

  /** What every verdict is, whatever has led to it: the text, the correction or the fixed blocked text. */
  ghost predicate FailsClosed(v: Verdict, text: string) {
    && (v.allowed <==> v.status in {Passed, PassedDegraded, Remediated})
    && (v.status in {Passed, PassedDegraded} ==> v.output == text)
    && (!v.allowed ==> v.output == BLOCKED_RESPONSE)
    && (v.status == Remediated ==> v.output != "")
  }

  lemma {:induction false} QuorumCollected(critics: seq<Critic>)
    ensures |Assessments(critics)| == Quorum(critics)
  {
    if critics != [] { QuorumCollected(critics[..|critics| - 1]); }
  }

  lemma {:induction false} AssessmentsCollected(critics: seq<Critic>, a: Assessment)
    ensures a in Assessments(critics) <==> exists c :: c in critics && RunCritic(c) == Some(a)
  {
    if critics != [] {
      var front, last := critics[..|critics| - 1], critics[|critics| - 1];
      AssessmentsCollected(front, a);
      assert critics == front + [last];
      hide RunCritic;
    }
  }

  lemma {:induction false} FailuresCollected(critics: seq<Critic>)
    ensures Failures(critics) == [] <==> forall c :: c in critics ==> RunCritic(c).Some?
    ensures forall f :: f in Failures(critics) ==> f.CriticFailure?
  {
    if critics != [] {
      var front, last := critics[..|critics| - 1], critics[|critics| - 1];
      FailuresCollected(front);
      assert critics == front + [last] && last in critics;
      hide RunCritic;
    }
  }

  lemma FailuresTrigger(failures: seq<Failure>)
    requires forall f :: f in failures ==> f.CriticFailure?
    ensures FailureTriggers(failures) == [] <==> failures == []
  {
    if failures != [] { assert failures[|failures| - 1] in failures; }
  }

  /** What was collected from the critics, for the decision. */
  lemma CriticsCollected(critics: seq<Critic>)
    ensures |Assessments(critics)| == Quorum(critics)
    ensures forall a :: a in Assessments(critics) ==> InRange(a)
    ensures FailureTriggers(Failures(critics)) == [] <==> Failures(critics) == []
  {
    QuorumCollected(critics);
    FailuresCollected(critics);
    FailuresTrigger(Failures(critics));
    hide Quorum, Failures, FailureTriggers;
    forall a | a in Assessments(critics) ensures InRange(a) {
      AssessmentsCollected(critics, a);
      var c :| c in critics && RunCritic(c) == Some(a);
    }
  }

  /** Something triggered: the adjudicator decides, and its failure blocks. */
  method Adjudicate(round: real -> real, text: string, assessments: seq<Assessment>, failures: seq<Failure>, triggers: seq<Trigger>,
                    adjudicator: Adjudicator)
    returns (v: Verdict)
    requires RoundsToFour(round) && forall a :: a in assessments ==> InRange(a)
    ensures FailsClosed(v, text)
    ensures var asked := adjudicator(assessments, failures, triggers);
            && (Released(v) <==> asked.Some? && asked.value.action == ReleaseOriginal)
            && (v.status == Remediated <==> Corrects(asked))
            && (Corrects(asked) ==> v.output == asked.value.remediated.value)
            && (v.status == Blocked <==> asked.Some? && asked.value.action == Block)
  {
    hide CombinedConfidence, RoundsToFour;
    var adjudication := adjudicator(assessments, failures, triggers);
    if adjudication.None? {
      return BlockedVerdict(round, ManualReview, assessments, failures + [AdjudicatorFailure], triggers + [AdjudicatorFailed]);
    }
    v := VerdictFromAdjudication(round, text, assessments, failures, triggers, adjudication.value);
  }

  /** Every objection to the critics' assessments and every failed critic. */
  function Objections(critics: seq<Critic>, threshold: int): seq<Trigger> {
    AllTriggers(Assessments(critics), threshold) + FailureTriggers(Failures(critics))
  }

  /** What the adjudicator answers: it is asked only about a quorum that is not unanimous. */
  ghost function Asked(critics: seq<Critic>, timedOut: bool, threshold: int, adjudicator: Adjudicator): Option<Adjudication> {
    if timedOut || Quorum(critics) < 2 || Unanimous(critics, threshold) then None
    else adjudicator(Assessments(critics), Failures(critics), Objections(critics, threshold))
  }

  /** The decision on a text: released, remediated or blocked, by the critics or by the adjudicator. */
  ghost predicate Decides(critics: seq<Critic>, timedOut: bool, threshold: int, adjudicator: Adjudicator, text: string, v: Verdict) {
    var asked := Asked(critics, timedOut, threshold, adjudicator);
    && FailsClosed(v, text)
    && (Released(v) <==> !timedOut && Quorum(critics) >= 2
                         && (Unanimous(critics, threshold) || (asked.Some? && asked.value.action == ReleaseOriginal)))
    && (v.status == Remediated <==> Corrects(asked))
    && (Corrects(asked) ==> v.output == asked.value.remediated.value)
    && (v.status == Blocked <==> asked.Some? && asked.value.action == Block)
  }

  /**
   Collects the critics' answers, blocks without a quorum, passes what nobody objects to and leaves the
   rest to the adjudicator.
   */
  method Arbitrate(round: real -> real, critics: seq<Critic>, timedOut: bool, threshold: int, adjudicator: Adjudicator, text: string)
    returns (v: Verdict)
    requires RoundsToFour(round)
    ensures Decides(critics, timedOut, threshold, adjudicator, text, v)
  {
    hide CombinedConfidence, RoundsToFour, Unanimous, Assessments, Failures, FailureTriggers, AllTriggers, Quorum;
    if timedOut {
      return BlockedVerdict(round, ManualReview, [], [RuntimeFailure], [ArbitrationTimeout]);
    }
    var assessments, failures := Assessments(critics), Failures(critics);
    CriticsCollected(critics);
    if |assessments| < 2 {
      return BlockedVerdict(round, ManualReview, assessments, failures, [InsufficientQuorum]);
    }
    var found := FindTriggers(assessments, threshold);
    var triggers := found + FailureTriggers(failures);
    NoTriggersNoObjections(assessments, threshold);
    UnanimousMeans(critics, threshold);
    if triggers == [] {
      return PassVerdict(round, text, assessments);
    }
    v := Adjudicate(round, text, assessments, failures, triggers, adjudicator);
  }

  lemma UnanimousMeans(critics: seq<Critic>, threshold: int)
    ensures Unanimous(critics, threshold) <==>
            Failures(critics) == [] && forall a :: a in Assessments(critics) ==> !Objects(a, threshold)
  {
    FailuresCollected(critics);
    hide RunCritic, Failures, Assessments, Objects;
    if Unanimous(critics, threshold) {
      forall a | a in Assessments(critics) ensures !Objects(a, threshold) {
        AssessmentsCollected(critics, a);
        var c :| c in critics && RunCritic(c) == Some(a);
      }
    }
    if Failures(critics) == [] && forall a :: a in Assessments(critics) ==> !Objects(a, threshold) {
      forall c | c in critics ensures RunCritic(c).Some? && !Objects(RunCritic(c).value, threshold) {
        AssessmentsCollected(critics, RunCritic(c).value);
      }
    }
  }
}
