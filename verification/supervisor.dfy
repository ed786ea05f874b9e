/** The sequential supervisor graph over a plan, and the delivery of its response through the consensus gate. */
module Supervisor {
  import opened Common
  import C = Consensus

  datatype Specialist = RagSearch | DocumentExtraction | SqlGeneration
  datatype StepStatus = Pending | Running | Completed | SkippedStep | FailedStep
  datatype PlanStep = PlanStep(id: string, specialist: Specialist, dependsOn: seq<string>, status: StepStatus)

  datatype ObservationStatus = Success | Skipped | Error
  datatype Observation = Observation(
    stepId: string, specialist: Specialist, status: ObservationStatus, prior: nat, output: string)

  // What a tool call ends in: an output, which may say that it was skipped, or an exception.
  datatype ToolResult = Output(content: string, skipped: bool) | Exception(error: string)
  type Tools = (Specialist, PlanStep, seq<Observation>) -> ToolResult

  type Synthesis = seq<Observation> -> string

  datatype RunStatus =
    | Planning | RunningPlan | CompletedRun | CompletedWithErrors | CompletedWithGaps
    | RemediatedByArbitration | BlockedByArbitration

  // --------------------------------------------------------------------- plan

  /** Which specialists a request needs; an explicit feature scope decides alone. */
  datatype Needs = Needs(rag: bool, document: bool, sql: bool)

  function Names(steps: seq<PlanStep>): seq<string> {
    seq(|steps|, i requires 0 <= i < |steps| => steps[i].id)
  }

  ghost predicate Assigns(steps: seq<PlanStep>, specialist: Specialist) {
    exists i :: 0 <= i < |steps| && steps[i].specialist == specialist
  }

  /** At most one step a specialist, each pending and after all earlier ones. */
  ghost predicate WellPlanned(steps: seq<PlanStep>) {
    && (forall i :: 0 <= i < |steps| ==> steps[i].status == Pending && steps[i].dependsOn == Names(steps[..i]))
    && (forall i, j :: 0 <= i < j < |steps| ==> steps[i].specialist != steps[j].specialist)
  }

  /** A plan for a request: exactly the specialists it needs, and the search if it needs none. */
  ghost predicate PlansFor(needs: Needs, steps: seq<PlanStep>) {
    && steps != [] && WellPlanned(steps)
    && (Assigns(steps, SqlGeneration) <==> needs.sql)
    && (Assigns(steps, DocumentExtraction) <==> needs.document)
    && (Assigns(steps, RagSearch) <==> needs.rag || (!needs.document && !needs.sql))
  }

  /** The plan a run works on: the given one, or one made for the request. */
  ghost predicate StartsFrom(needs: Needs, given: seq<PlanStep>, start: seq<PlanStep>) {
    if given != [] then start == given else PlansFor(needs, start)
  }

  method CreatePlan(needs: Needs) returns (steps: seq<PlanStep>)
    ensures PlansFor(needs, steps)
  {
    steps := [];
    assert WellPlanned([]) && forall s :: !Assigns([], s);
    hide WellPlanned, Assigns;
    if needs.rag { steps := AppendStep(steps, "step-rag-search", RagSearch); }
    if needs.document { steps := AppendStep(steps, "step-document-extraction", DocumentExtraction); }
    if needs.sql { steps := AppendStep(steps, "step-sql-generation", SqlGeneration); }
    if steps == [] { steps := AppendStep(steps, "step-rag-search", RagSearch); }
  }

  method AppendStep(steps: seq<PlanStep>, id: string, specialist: Specialist) returns (more: seq<PlanStep>)
    requires WellPlanned(steps) && !Assigns(steps, specialist)
    ensures more == steps + [PlanStep(id, specialist, Names(steps), Pending)] && WellPlanned(more)
    ensures forall s :: Assigns(more, s) <==> Assigns(steps, s) || s == specialist
  {
    more := steps + [PlanStep(id, specialist, Names(steps), Pending)];
    assert forall i :: 0 <= i < |steps| ==> more[..i] == steps[..i] && more[i] == steps[i];
    assert more[..|steps|] == steps;
    assert more[|steps|].specialist == specialist;
    forall s | Assigns(steps, s) ensures Assigns(more, s) {
      var i :| 0 <= i < |steps| && steps[i].specialist == s;
      assert more[i].specialist == s;
    }
  }

  // -------------------------------------------------------------------- nodes

  function ObservationStatusOf(r: ToolResult): ObservationStatus {
    match r
    case Output(_, skipped) => if skipped then Skipped else Success
    case Exception(_) => Error
  }

  function StepStatusOf(s: ObservationStatus): StepStatus {
    match s
    case Success => Completed
    case Skipped => SkippedStep
    case Error => FailedStep
  }

  function Started(step: PlanStep): PlanStep {
    if step.status == Pending then step.(status := Running) else step
  }

  /** What the specialist of a step reports, given what was observed before. */
  function Observe(tools: Tools, step: PlanStep, before: seq<Observation>): Observation {
    var r := tools(step.specialist, step, before);
    Observation(step.id, step.specialist, ObservationStatusOf(r), |before|, if r.Output? then r.content else "")
  }

  /** The observations of the first `n` steps, each made with the earlier ones in sight. */
  function ObservationsOf(tools: Tools, plan: seq<PlanStep>, n: nat): (s: seq<Observation>)
    requires n <= |plan|
    ensures |s| == n
  {
    if n == 0 then []
    else
      var before := ObservationsOf(tools, plan, n - 1);
      before + [Observe(tools, Started(plan[n - 1]), before)]
  }

  function CompletionStatus(observations: seq<Observation>): (r: RunStatus)
    ensures r == CompletedWithErrors <==> exists o :: o in observations && o.status == Error
    ensures r == CompletedRun <==> forall o :: o in observations ==> o.status == Success
    ensures r in {CompletedRun, CompletedWithErrors, CompletedWithGaps}
  {
    if exists o :: o in observations && o.status == Error then CompletedWithErrors
    else if exists o :: o in observations && o.status == Skipped then CompletedWithGaps
    else CompletedRun
  }

  /** The plan when `n` steps are done: their observations have decided their status. */
  ghost predicate DoneUpTo(tools: Tools, start: seq<PlanStep>, plan: seq<PlanStep>, n: nat)
    requires n <= |start|
  {
    && |plan| == |start|
    && (forall i :: 0 <= i < n ==>
          plan[i] == start[i].(status := StepStatusOf(ObservationsOf(tools, start, n)[i].status)))
    && forall i :: n <= i < |plan| ==> plan[i] == start[i]
  }

  class SupervisorState {
    var plan: seq<PlanStep>
    var observations: seq<Observation>
    var currentStepIndex: nat
    var dispatchNext: Option<Specialist>
    var finalResponse: Option<string>
    var status: RunStatus

    constructor (plan: seq<PlanStep>)
      ensures this.plan == plan && observations == [] && currentStepIndex == 0 && dispatchNext == None
      ensures finalResponse == None && status == Planning
    {
      this.plan, observations, currentStepIndex, dispatchNext, finalResponse, status := plan, [], 0, None, None, Planning;
    }

    /** Plans if there is no plan; then finishes, or starts the current step and names its specialist. */
    method SupervisorNode(needs: Needs, synthesize: Synthesis) returns (ghost start: seq<PlanStep>)
      modifies this
      ensures StartsFrom(needs, old(plan), start) && start != []
      ensures observations == old(observations) && currentStepIndex == old(currentStepIndex)
      ensures if currentStepIndex < |start| then
                && plan == start[currentStepIndex := Started(start[currentStepIndex])]
                && dispatchNext == Some(plan[currentStepIndex].specialist)
                && finalResponse == old(finalResponse)
              else
                && plan == start && dispatchNext == None
                && finalResponse == Some(synthesize(observations)) && status == CompletionStatus(observations)
    {
      if |plan| == 0 {
        var steps := CreatePlan(needs);
        plan, status := steps, RunningPlan;
      }
      start := plan;
      hide StartsFrom, CompletionStatus;
      if currentStepIndex >= |plan| {
        dispatchNext := None;
        finalResponse := Some(synthesize(observations));
        status := CompletionStatus(observations);
        return;
      }
      var current := plan[currentStepIndex];
      if current.status == Pending {
        plan := plan[currentStepIndex := current.(status := Running)];
      }
      dispatchNext := Some(plan[currentStepIndex].specialist);
    }

    /** Runs the tool of the current step, whatever it ends in, and advances. */
    method SpecialistNode(specialist: Specialist, tools: Tools)
      requires currentStepIndex < |plan| && specialist == plan[currentStepIndex].specialist
      modifies this
      ensures var i, step := old(currentStepIndex), old(plan)[old(currentStepIndex)];
              var o := Observe(tools, step, old(observations));
              && observations == old(observations) + [o] && currentStepIndex == i + 1 && dispatchNext == None
              && plan == old(plan)[i := step.(status := StepStatusOf(o.status))]
              && finalResponse == old(finalResponse)
    {
      var step := plan[currentStepIndex];
      var output, observed := "", Success;
      match tools(specialist, step, observations) {
        case Output(content, skipped) =>
          output, observed := content, if skipped then Skipped else Success;
        case Exception(_) =>
          output, observed := "", Error;
      }
      observations := observations + [Observation(step.id, specialist, observed, |observations|, output)];
      plan := plan[currentStepIndex := step.(status := StepStatusOf(observed))];
      currentStepIndex := currentStepIndex + 1;
      dispatchNext := None;
    }

    /** Between two rounds: the steps before the current one are done, the current one is started and dispatched. */
    ghost predicate Working(tools: Tools, start: seq<PlanStep>, synthesize: Synthesis)
      reads this
    {
      && start != [] && currentStepIndex <= |start| && |plan| == |start|
      && observations == ObservationsOf(tools, start, currentStepIndex)
      && if currentStepIndex < |start| then
           && dispatchNext == Some(plan[currentStepIndex].specialist)
           && plan[currentStepIndex] == Started(start[currentStepIndex])
           && DoneUpTo(tools, start, plan[currentStepIndex := start[currentStepIndex]], currentStepIndex)
         else
           && dispatchNext == None && DoneUpTo(tools, start, plan, |start|)
           && finalResponse == Some(synthesize(observations)) && status == CompletionStatus(observations)
    }

    /** The dispatched specialist finishes the current step. */
    method FinishStep(tools: Tools, synthesize: Synthesis, ghost start: seq<PlanStep>)
      requires Working(tools, start, synthesize) && dispatchNext.Some?
      modifies this
      ensures currentStepIndex == old(currentStepIndex) + 1 <= |start| == |plan|
      ensures observations == ObservationsOf(tools, start, currentStepIndex)
      ensures DoneUpTo(tools, start, plan, currentStepIndex)
    {
      hide CompletionStatus, Observe, DoneUpTo, ObservationsOf;
      ghost var i, before := currentStepIndex, plan;
      SpecialistNode(dispatchNext.value, tools);
      DoneOneMore(tools, start, before, plan, i);
    }

    /** One turn of the loop: the dispatched specialist, then the supervisor. */
    method Turn(needs: Needs, tools: Tools, synthesize: Synthesis, ghost start: seq<PlanStep>)
      requires Working(tools, start, synthesize) && dispatchNext.Some?
      modifies this
      ensures Working(tools, start, synthesize) && currentStepIndex == old(currentStepIndex) + 1
    {
      FinishStep(tools, synthesize, start);
      ghost var done, i := plan, currentStepIndex;
      DoneMeans(tools, start, done, i);
      hide DoneUpTo, ObservationsOf, CompletionStatus, Started;
      ghost var same := SupervisorNode(needs, synthesize);
      if i < |start| { assert plan[i := start[i]] == done; }
    }

    /**
     The loop of the sequential graph.  `start` is the plan it works on: the given one, or the created one.
     Observation `i` is that of step `i`, and it alone decides the step's final status.
     */
    method Invoke(needs: Needs, tools: Tools, synthesize: Synthesis) returns (ghost start: seq<PlanStep>)
      requires observations == [] && currentStepIndex == 0
      modifies this
      ensures StartsFrom(needs, old(plan), start) && start != []
      ensures observations == ObservationsOf(tools, start, |start|)
      ensures DoneUpTo(tools, start, plan, |start|)
      ensures currentStepIndex == |plan| && dispatchNext == None
      ensures finalResponse == Some(synthesize(observations)) && status == CompletionStatus(observations)
    {
      start := SupervisorNode(needs, synthesize);
      assert plan[0 := start[0]] == start;
      hide StartsFrom;
      while dispatchNext.Some?
        invariant Working(tools, start, synthesize)
        decreases |start| - currentStepIndex
      {
        Turn(needs, tools, synthesize, start);
      }
    }
  }

  /** The observation of step `i` finishes it and leaves the others alone. */
  lemma DoneOneMore(tools: Tools, start: seq<PlanStep>, before: seq<PlanStep>, after: seq<PlanStep>, i: nat)
    requires i < |start| == |before|
    requires DoneUpTo(tools, start, before[i := start[i]], i) && before[i] == Started(start[i])
    requires var o := Observe(tools, before[i], ObservationsOf(tools, start, i));
             after == before[i := before[i].(status := StepStatusOf(o.status))]
    ensures DoneUpTo(tools, start, after, i + 1)
    ensures ObservationsOf(tools, start, i + 1) == ObservationsOf(tools, start, i) + [Observe(tools, before[i], ObservationsOf(tools, start, i))]
  {
    hide Observe;
    EarlierObservations(tools, start, i);
    var earlier, all := ObservationsOf(tools, start, i), ObservationsOf(tools, start, i + 1);
    forall k | 0 <= k < i ensures after[k] == start[k].(status := StepStatusOf(all[k].status)) {
      assert all[k] == all[..i][k] == earlier[k];
      assert before[i := start[i]][k] == before[k] == after[k];
    }
    forall k | i < k < |start| ensures after[k] == start[k] {
      assert before[i := start[i]][k] == before[k] == after[k];
    }
  }

  lemma DoneMeans(tools: Tools, start: seq<PlanStep>, plan: seq<PlanStep>, n: nat)
    requires n <= |start| && DoneUpTo(tools, start, plan, n)
    ensures |plan| == |start| && (n < |start| ==> plan[n] == start[n])
  {
  }

  /** An observation does not change when later steps are observed. */
  lemma EarlierObservations(tools: Tools, plan: seq<PlanStep>, n: nat)
    requires n < |plan|
    ensures ObservationsOf(tools, plan, n + 1)[..n] == ObservationsOf(tools, plan, n)
    ensures ObservationsOf(tools, plan, n + 1)[n] == Observe(tools, Started(plan[n]), ObservationsOf(tools, plan, n))
  {
  }

  /** Each step ends in the status that its own observation dictates, and no step is skipped over or observed twice. */
  lemma EveryStepIsObserved(tools: Tools, start: seq<PlanStep>, plan: seq<PlanStep>, i: nat)
    requires DoneUpTo(tools, start, plan, |start|) && i < |start|
    ensures var o := ObservationsOf(tools, start, |start|)[i];
            && o == Observe(tools, Started(start[i]), ObservationsOf(tools, start, i))
            && o.stepId == start[i].id == plan[i].id && o.specialist == start[i].specialist == plan[i].specialist
            && o.prior == i
            && plan[i].status == StepStatusOf(o.status) && plan[i].status in {Completed, SkippedStep, FailedStep}
  {
    ObservationIsFinal(tools, start, i, |start|);
  }

  lemma {:induction false} ObservationIsFinal(tools: Tools, plan: seq<PlanStep>, i: nat, n: nat)
    requires i < n <= |plan|
    ensures ObservationsOf(tools, plan, n)[..i] == ObservationsOf(tools, plan, i)
    ensures ObservationsOf(tools, plan, n)[i] == Observe(tools, Started(plan[i]), ObservationsOf(tools, plan, i))
  {
    EarlierObservations(tools, plan, n - 1);
    if i < n - 1 {
      ObservationIsFinal(tools, plan, i, n - 1);
      var all, before := ObservationsOf(tools, plan, n), ObservationsOf(tools, plan, n - 1);
      assert all[..n - 1] == before;
      assert all[..i] == before[..i];
      assert all[i] == before[i];
    }
  }

  // ----------------------------------------------------------------- delivery

  /** What `str.strip` removes: the characters that Unicode counts as white space, and four separators. */
  predicate Whitespace(c: char) {
    || '\U{9}' <= c <= '\U{d}' || '\U{1c}' <= c <= '\U{20}' || c == '\U{85}' || c == '\U{a0}' || c == '\U{1680}'
    || '\U{2000}' <= c <= '\U{200a}' || c in {'\U{2028}', '\U{2029}', '\U{202f}', '\U{205f}', '\U{3000}'}
  }

  predicate Blank(s: string) { forall c :: c in s ==> Whitespace(c) }

  /** The arbitrator of the run: its critics, or an exception. */
  datatype Gate = Gate(
    round: real -> real, critics: seq<C.Critic>, timedOut: bool, threshold: int, adjudicator: C.Adjudicator, raises: bool)

  datatype Delivery = Delivery(response: string, status: RunStatus, verdict: C.Verdict)

  /** What the adjudicator of a run answers; it is asked only about a text that the critics saw and did not agree on. */
  ghost function Asked(gate: Gate, text: string): Option<C.Adjudication> {
    if Blank(text) || gate.raises then None else C.Asked(gate.critics, gate.timedOut, gate.threshold, gate.adjudicator)
  }

  /** At least two critics assessed the text, and nothing triggered or the adjudicator released it. */
  ghost predicate Deliverable(gate: Gate, text: string) {
    && !Blank(text) && !gate.raises && !gate.timedOut && C.Quorum(gate.critics) >= 2
    && (C.Unanimous(gate.critics, gate.threshold)
        || (Asked(gate, text).Some? && Asked(gate, text).value.action == C.ReleaseOriginal))
  }

  /** What reaches the user: the text, the correction or the fixed blocked text. */
  ghost predicate Delivers(gate: Gate, text: string, status: RunStatus, d: Delivery) {
    && d.response == d.verdict.output
    && if Deliverable(gate, text) then
         C.Released(d.verdict) && d.response == text && d.status == status
       else if C.Corrects(Asked(gate, text)) then
         && d.verdict.status == C.Remediated && d.status == RemediatedByArbitration
         && d.response == Asked(gate, text).value.remediated.value
       else !d.verdict.allowed && d.response == C.BLOCKED_RESPONSE && d.status == BlockedByArbitration
  }

  /** An empty response and a failing arbitrator are blocked as well; otherwise the verdict decides. */
  method ApplyArbitration(gate: Gate, text: string, status: RunStatus) returns (d: Delivery)
    requires C.RoundsToFour(gate.round)
    ensures Delivers(gate, text, status, d)
  {
    var verdict;
    if Blank(text) {
      verdict := C.BlockedVerdict(gate.round, C.ManualReview, [], [], [C.EmptyFinalResponse]);
      return Delivery(verdict.output, BlockedByArbitration, verdict);
    }
    hide C.CombinedConfidence, C.RoundsToFour, C.Unanimous, C.Quorum;
    if gate.raises {
      verdict := C.BlockedVerdict(gate.round, C.ManualReview, [], [C.RuntimeFailure], [C.ArbitratorRuntimeFailure]);
    } else {
      verdict := C.Arbitrate(gate.round, gate.critics, gate.timedOut, gate.threshold, gate.adjudicator, text);
    }
    var final := status;
    if verdict.status == C.Remediated {
      final := RemediatedByArbitration;
    } else if !verdict.allowed {
      final := BlockedByArbitration;
    }
    d := Delivery(verdict.output, final, verdict);
  }

  // ------------------------------------------------------ deterministic mode

  function CountStatus(observations: seq<Observation>, s: ObservationStatus): nat {
    if observations == [] then 0
    else CountStatus(observations[..|observations| - 1], s) + if observations[|observations| - 1].status == s then 1 else 0
  }

  /** The hermetic critic: full marks, except for completeness when a step failed or was skipped. */
  function DeterministicCritic(dimension: C.Dimension, failed: nat, skipped: nat): C.Critic {
    var low := (failed > 0 || skipped > 0) && dimension == C.Completeness;
    C.Critic(dimension, C.Answered(C.Assessment(dimension, if low then 2 else 5,
                                                if low then ["incomplete_specialist_output"] else [], 1.0)))
  }

  function DeterministicAdjudicator(): C.Adjudicator {
    (_, _, _) => Some(C.Adjudication(C.Block, 1.0, None))
  }

  function DeterministicGate(round: real -> real, threshold: int, observations: seq<Observation>): Gate {
    var failed, skipped := CountStatus(observations, Error), CountStatus(observations, Skipped);
    Gate(round,
         [DeterministicCritic(C.Factual, failed, skipped), DeterministicCritic(C.Logic, failed, skipped),
          DeterministicCritic(C.Completeness, failed, skipped)],
         false, threshold, DeterministicAdjudicator(), false)
  }

  lemma {:induction false} CountedStatus(observations: seq<Observation>, s: ObservationStatus)
    ensures CountStatus(observations, s) > 0 <==> exists o :: o in observations && o.status == s
  {
    if observations != [] {
      var front, last := observations[..|observations| - 1], observations[|observations| - 1];
      CountedStatus(front, s);
      assert observations == front + [last] && last in observations;
    }
  }

  /** The hermetic critics always reach a quorum, and agree exactly when every step of the plan succeeded. */
  lemma DeterministicCriticsAgree(round: real -> real, threshold: int, observations: seq<Observation>)
    requires threshold <= 5
    ensures var gate := DeterministicGate(round, threshold, observations);
            && C.Quorum(gate.critics) == 3
            && (C.Unanimous(gate.critics, threshold) <==> CompletionStatus(observations) == CompletedRun)
  {
    var failed, skipped := CountStatus(observations, Error), CountStatus(observations, Skipped);
    CountedStatus(observations, Error);
    CountedStatus(observations, Skipped);
    var critics := DeterministicGate(round, threshold, observations).critics;
    var a, b, c := critics[0], critics[1], critics[2];
    assert critics == [a, b, c];
    assert critics[..2] == [a, b] && critics[..2][..1] == [a] && critics[..2][..1][..0] == [];
    assert C.RunCritic(a).Some? && C.RunCritic(b).Some? && C.RunCritic(c).Some?;
    QuorumOfThree(a, b, c);
    assert C.Objects(C.RunCritic(c).value, threshold) <==> failed > 0 || skipped > 0;
    assert c in critics;
  }

  lemma QuorumOfThree(a: C.Critic, b: C.Critic, c: C.Critic)
    requires C.RunCritic(a).Some? && C.RunCritic(b).Some? && C.RunCritic(c).Some?
    ensures C.Quorum([a, b, c]) == 3
  {
    C.QuorumCollected([a, b, c]);
    assert [a, b, c][..2] == [a, b] && [a, b][..1] == [a] && [a][..0] == [];
    assert C.Assessments([a]) == [C.RunCritic(a).value];
    assert C.Assessments([a, b]) == [C.RunCritic(a).value] + [C.RunCritic(b).value];
    assert |C.Assessments([a, b, c])| == 3;
  }

  /** From the plan to the user: the specialists, the synthesized text and the gate. */
  method RunOrchestration(plan: seq<PlanStep>, needs: Needs, tools: Tools, synthesize: Synthesis, gate: seq<Observation> -> Gate)
    returns (d: Delivery, observations: seq<Observation>, done: seq<PlanStep>)
    requires forall s :: C.RoundsToFour(gate(s).round)
    ensures exists start :: StartsFrom(needs, plan, start) && observations == ObservationsOf(tools, start, |start|)
                            && DoneUpTo(tools, start, done, |start|)
    ensures Delivers(gate(observations), synthesize(observations), CompletionStatus(observations), d)
  {
    hide Delivers, CompletionStatus, StartsFrom, ObservationsOf, DoneUpTo;
    var state := new SupervisorState(plan);
    ghost var start := state.Invoke(needs, tools, synthesize);
    observations, done := state.observations, state.plan;
    d := ApplyArbitration(gate(observations), state.finalResponse.value, state.status);
  }

  /** In the hermetic mode the text is delivered exactly when every step of the plan succeeded; otherwise it is blocked. */
  method RunDeterministic(plan: seq<PlanStep>, needs: Needs, tools: Tools, synthesize: Synthesis, round: real -> real, threshold: int)
    returns (d: Delivery, observations: seq<Observation>)
    requires C.RoundsToFour(round) && threshold <= 5
    ensures exists start :: StartsFrom(needs, plan, start) && observations == ObservationsOf(tools, start, |start|)
    ensures if !Blank(synthesize(observations)) && forall o :: o in observations ==> o.status == Success
            then d.response == synthesize(observations) && d.status == CompletedRun
            else d.response == C.BLOCKED_RESPONSE && d.status == BlockedByArbitration
  {
    var state := new SupervisorState(plan);
    ghost var start := state.Invoke(needs, tools, synthesize);
    observations := state.observations;
    var gate := DeterministicGate(round, threshold, observations);
    DeterministicCriticsAgree(round, threshold, observations);
    hide CompletionStatus, C.Unanimous, C.Quorum, C.RoundsToFour, Blank, ObservationsOf, DoneUpTo, StartsFrom;
    AdjudicatorBlocks(round, threshold, observations);
    hide DeterministicGate;
    d := ApplyArbitration(gate, state.finalResponse.value, state.status);
    AllSucceeded(observations);
  }

  lemma AdjudicatorBlocks(round: real -> real, threshold: int, observations: seq<Observation>)
    ensures var gate := DeterministicGate(round, threshold, observations);
            && gate.round == round && gate.threshold == threshold && !gate.raises && !gate.timedOut
            && forall a, f, t :: gate.adjudicator(a, f, t) == Some(C.Adjudication(C.Block, 1.0, None))
  {
  }

  lemma AllSucceeded(observations: seq<Observation>)
    ensures CompletionStatus(observations) == CompletedRun <==> forall o :: o in observations ==> o.status == Success
  {
  }
}
