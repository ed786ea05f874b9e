/**
 Root-cause analysis of a trace: degradation signals, removal of wrapper spans
 and the choice of the diagnosed span.  A span id stands for the 64-bit value its
 16 hexadecimal digits spell, and a start time for its sortable time stamp.
 */
module Forensics {
  import opened Common
  import Sorting

  type Id = nat

  datatype Span = Span(id: Id, parent: Option<Id>, start: int, name: string, error: bool, attrs: Attributes)

  datatype Attributes = Attributes(
    stepId: Option<string>,
    stepIndex: Option<real>,
    validationPassed: Option<bool>,
    ocrVariance: Option<real>,
    ocrThreshold: Option<real>,
    visionRecovered: bool,
    confidence: Option<real>,
    degraded: bool,
    arbitrationFailed: bool)

  datatype Trigger = ExecutionErrorTrigger | ArbitrationTrigger | NegativeFeedback

  datatype Category =
    | ExecutionError | ExtractionDegradation | LowConfidence | ArbitrationFailure | Unknown

  datatype Evidence =
    | SpanStatus
    | ExtractionValidation
    | OcrVariance(observed: real, threshold: real)
    | BelowConfidence(observed: real, threshold: real)
    | ConfidenceDrop(observed: real, threshold: real)
    | DegradedFlag
    | ArbitrationFlag
    | TerminalTrigger(trigger: Trigger)

  datatype Candidate = Candidate(span: Span, evidence: seq<Evidence>, category: Category)

  datatype Config = Config(confidenceThreshold: real, dropThreshold: real)

  datatype Analyzer = Deterministic | OptionalJudge
  datatype Diagnosis = Diagnosis(
    spanId: Id, name: string, stepId: Option<string>, category: Category,
    confidence: real, evidence: seq<Evidence>, analyzer: Analyzer)

  // A judge that raises or declines is one that answers `None`.
  type Judge = (seq<Span>, Trigger) -> Option<Diagnosis>

  // --------------------------------------------------- degradation signals

  function Precedence(c: Category): nat {
    match c
    case ExecutionError => 0
    case ExtractionDegradation => 1
    case LowConfidence => 2
    case ArbitrationFailure => 3
    case Unknown => 99
  }

  function Prefer(current: Category, candidate: Category): Category {
    if current == Unknown then candidate
    else if Precedence(candidate) < Precedence(current) then candidate else current
  }

  predicate OcrDegraded(a: Attributes) {
    a.ocrVariance.Some? && a.ocrThreshold.Some? && a.ocrVariance.value > a.ocrThreshold.value && !a.visionRecovered
  }

  predicate ConfidenceBelow(cfg: Config, a: Attributes) {
    a.confidence.Some? && a.confidence.value < cfg.confidenceThreshold
  }

  predicate ConfidenceDropped(cfg: Config, a: Attributes, previous: Option<real>) {
    a.confidence.Some? && previous.Some? && previous.value - a.confidence.value >= cfg.dropThreshold
  }

  /** What makes a span a candidate, given the confidence last reported before it. */
  predicate Degraded(cfg: Config, s: Span, previous: Option<real>) {
    || s.error
    || s.attrs.validationPassed == Some(false)
    || OcrDegraded(s.attrs)
    || ConfidenceBelow(cfg, s.attrs)
    || ConfidenceDropped(cfg, s.attrs, previous)
    || s.attrs.degraded
    || s.attrs.arbitrationFailed
  }

  /** The category such a span deserves: its signal of highest precedence. */
  function CategoryOf(cfg: Config, s: Span, previous: Option<real>): Category {
    if s.error then ExecutionError
    else if s.attrs.validationPassed == Some(false) || OcrDegraded(s.attrs) then ExtractionDegradation
    else if ConfidenceBelow(cfg, s.attrs) || ConfidenceDropped(cfg, s.attrs, previous) then LowConfidence
    else if s.attrs.arbitrationFailed then ArbitrationFailure
    else Unknown
  }

  function Append(evidence: seq<Evidence>, signal: bool, e: Evidence): seq<Evidence> {
    if signal then evidence + [e] else evidence
  }

  function StepEvidence(s: Span): seq<Evidence> {
    var a := s.attrs;
    var e := Append([], s.error, SpanStatus);
    var e := Append(e, a.validationPassed == Some(false), ExtractionValidation);
    if OcrDegraded(a) then e + [OcrVariance(a.ocrVariance.value, a.ocrThreshold.value)] else e
  }

  /** The evidence of a span; the bare degraded flag counts only when no stronger signal does. */
  function EvidenceOf(cfg: Config, s: Span, previous: Option<real>): seq<Evidence> {
    var a := s.attrs;
    var e := StepEvidence(s);
    var e := if ConfidenceBelow(cfg, a) then e + [BelowConfidence(a.confidence.value, cfg.confidenceThreshold)] else e;
    var e := if ConfidenceDropped(cfg, a, previous)
             then e + [ConfidenceDrop(previous.value - a.confidence.value, cfg.dropThreshold)] else e;
    var e := Append(e, a.degraded && e == [], DegradedFlag);
    Append(e, a.arbitrationFailed, ArbitrationFlag)
  }

  /** The confidence reported last among the first `n` spans. */
  function LastConfidence(spans: seq<Span>, n: nat): Option<real>
    requires n <= |spans|
  {
    if n == 0 then None
    else if spans[n - 1].attrs.confidence.Some? then spans[n - 1].attrs.confidence
    else LastConfidence(spans, n - 1)
  }

  function CandidatesAmong(cfg: Config, spans: seq<Span>, n: nat): seq<Candidate>
    requires n <= |spans|
  {
    if n == 0 then []
    else
      var s, previous := spans[n - 1], LastConfidence(spans, n - 1);
      CandidatesAmong(cfg, spans, n - 1)
      + if Degraded(cfg, s, previous) then [Candidate(s, EvidenceOf(cfg, s, previous), CategoryOf(cfg, s, previous))] else []
  }

  /** The signals of a failed or badly extracting step. */
  method InspectStep(span: Span) returns (evidence: seq<Evidence>, category: Category)
    ensures evidence == StepEvidence(span)
    ensures category == if span.error then ExecutionError
                        else if span.attrs.validationPassed == Some(false) || OcrDegraded(span.attrs) then ExtractionDegradation
                        else Unknown
    ensures evidence == [] <==> category == Unknown
  {
    evidence, category := [], Unknown;
    var attrs := span.attrs;
    if span.error {
      evidence, category := evidence + [SpanStatus], Prefer(category, ExecutionError);
    }
    if attrs.validationPassed == Some(false) {
      evidence, category := evidence + [ExtractionValidation], Prefer(category, ExtractionDegradation);
    }
    if attrs.ocrVariance.Some? && attrs.ocrThreshold.Some?
       && attrs.ocrVariance.value > attrs.ocrThreshold.value && !attrs.visionRecovered {
      evidence := evidence + [OcrVariance(attrs.ocrVariance.value, attrs.ocrThreshold.value)];
      category := Prefer(category, ExtractionDegradation);
    }
  }

  /** All signals of a span, in the order the analyzer reads them. */
  method Inspect(cfg: Config, span: Span, previous: Option<real>) returns (evidence: seq<Evidence>, category: Category)
    ensures evidence == EvidenceOf(cfg, span, previous)
    ensures category == CategoryOf(cfg, span, previous)
    ensures evidence != [] <==> Degraded(cfg, span, previous)
  {
    hide StepEvidence, OcrDegraded;
    evidence, category := InspectStep(span);
    var attrs := span.attrs;
    if attrs.confidence.Some? {
      var confidence := attrs.confidence.value;
      if confidence < cfg.confidenceThreshold {
        evidence := evidence + [BelowConfidence(confidence, cfg.confidenceThreshold)];
        category := Prefer(category, LowConfidence);
      }
      if previous.Some? && previous.value - confidence >= cfg.dropThreshold {
        evidence := evidence + [ConfidenceDrop(previous.value - confidence, cfg.dropThreshold)];
        category := Prefer(category, LowConfidence);
      }
    }
    if attrs.degraded && evidence == [] {
      evidence := evidence + [DegradedFlag];
    }
    if attrs.arbitrationFailed {
      evidence, category := evidence + [ArbitrationFlag], Prefer(category, ArbitrationFailure);
    }
  }

  method Candidates(cfg: Config, spans: seq<Span>) returns (results: seq<Candidate>)
    ensures results == CandidatesAmong(cfg, spans, |spans|)
  {
    results := [];
    var previous: Option<real> := None;
    for i := 0 to |spans|
      invariant previous == LastConfidence(spans, i)
      invariant results == CandidatesAmong(cfg, spans, i)
    {
      var evidence, category := Inspect(cfg, spans[i], previous);
      if evidence != [] {
        results := results + [Candidate(spans[i], evidence, category)];
      }
      if spans[i].attrs.confidence.Some? {
        previous := spans[i].attrs.confidence;
      }
    }
  }

  // ------------------------------------------------------- ancestor chains

  type Parents = map<Id, Option<Id>>

  function ParentsOf(spans: seq<Span>): Parents {
    if spans == [] then map[] else ParentsOf(spans[..|spans| - 1])[spans[|spans| - 1].id := spans[|spans| - 1].parent]
  }

  function ParentIn(p: Parents, id: Id): Option<Id> {
    if id in p then p[id] else None
  }

  /** The `n`-th ancestor of `id`, itself being the zeroth. */
  function Climb(p: Parents, id: Id, n: nat): Option<Id>
    decreases n
  {
    if n == 0 then Some(id)
    else match ParentIn(p, id) case None => None case Some(up) => Climb(p, up, n - 1)
  }

  ghost predicate IsAncestor(p: Parents, a: Id, id: Id) {
    exists n: nat :: n >= 1 && Climb(p, id, n) == Some(a)
  }

  ghost predicate Ranked(p: Parents, rank: Id -> nat) {
    forall id :: id in p && p[id].Some? ==> rank(p[id].value) < rank(id)
  }

  ghost predicate Acyclic(p: Parents) {
    exists rank: Id -> nat :: Ranked(p, rank)
  }

  lemma {:induction false} ClimbFurther(p: Parents, id: Id, n: nat, m: nat)
    requires Climb(p, id, n).Some?
    ensures Climb(p, id, n + m) == Climb(p, Climb(p, id, n).value, m)
    decreases n
  {
    if n > 0 { ClimbFurther(p, ParentIn(p, id).value, n - 1, m); }
  }

  lemma {:induction false} ClimbEnds(p: Parents, id: Id, n: nat, m: nat)
    requires Climb(p, id, n).None? && n <= m
    ensures Climb(p, id, m).None?
    decreases n
  {
    if n > 0 && ParentIn(p, id).Some? { ClimbEnds(p, ParentIn(p, id).value, n - 1, m - 1); }
  }

  lemma {:induction false} ClimbLowersRank(p: Parents, rank: Id -> nat, id: Id, n: nat)
    requires Ranked(p, rank) && Climb(p, id, n).Some?
    ensures rank(Climb(p, id, n).value) + n <= rank(id)
    decreases n
  {
    if n > 0 { ClimbLowersRank(p, rank, ParentIn(p, id).value, n - 1); }
  }

  lemma AncestorsCompose(p: Parents, a: Id, b: Id, c: Id)
    requires IsAncestor(p, a, b) && IsAncestor(p, b, c)
    ensures IsAncestor(p, a, c)
  {
    var m: nat :| m >= 1 && Climb(p, b, m) == Some(a);
    var n: nat :| n >= 1 && Climb(p, c, n) == Some(b);
    ClimbFurther(p, c, n, m);
    assert Climb(p, c, n + m) == Some(a);
  }

  // ------------------------------------------------------- wrapper removal

  function IdsOf(candidates: seq<Candidate>): set<Id> {
    set c | c in candidates :: c.span.id
  }

  ghost function WrappersOf(ids: set<Id>, p: Parents): set<Id> {
    set w | w in ids && exists c :: c in ids && IsAncestor(p, w, c)
  }

  function Without(candidates: seq<Candidate>, ids: set<Id>): seq<Candidate> {
    if candidates == [] then []
    else Without(candidates[..|candidates| - 1], ids)
         + if candidates[|candidates| - 1].span.id in ids then [] else [candidates[|candidates| - 1]]
  }

  ghost function Survivors(candidates: seq<Candidate>, spans: seq<Span>): seq<Candidate> {
    Without(candidates, WrappersOf(IdsOf(candidates), ParentsOf(spans)))
  }

  method BuildParents(spans: seq<Span>) returns (p: Parents)
    ensures p == ParentsOf(spans)
  {
    p := map[];
    for i := 0 to |spans|
      invariant p == ParentsOf(spans[..i])
    {
      assert spans[..i + 1][..i] == spans[..i];
      p := p[spans[i].id := spans[i].parent];
    }
    assert spans[..|spans|] == spans;
  }

  /** `w` is among the first `n - 1` proper ancestors of `id`. */
  ghost predicate AncestorWithin(p: Parents, w: Id, id: Id, n: nat) {
    exists k: nat :: 1 <= k < n && Climb(p, id, k) == Some(w)
  }

  lemma WithinOneMore(p: Parents, w: Id, id: Id, n: nat)
    requires n >= 1
    ensures AncestorWithin(p, w, id, n + 1) <==> AncestorWithin(p, w, id, n) || Climb(p, id, n) == Some(w)
  {
    hide Climb;
  }

  /** Once the climb has ended every ancestor has been met. */
  lemma WithinAll(p: Parents, w: Id, id: Id, n: nat)
    requires n >= 1 && Climb(p, id, n).None?
    ensures AncestorWithin(p, w, id, n) <==> IsAncestor(p, w, id)
  {
    if IsAncestor(p, w, id) {
      var k: nat :| k >= 1 && Climb(p, id, k) == Some(w);
      if k >= n { ClimbEnds(p, id, n, k); }
    }
  }

  /** Adds to `wrappers` the candidates met on the way up from `id`. */
  method MarkAncestors(p: Parents, ids: set<Id>, id: Id, wrappers: set<Id>) returns (marked: set<Id>)
    requires Acyclic(p)
    ensures marked == wrappers + (set w | w in ids && IsAncestor(p, w, id))
  {
    ghost var rank: Id -> nat :| Ranked(p, rank);
    marked := wrappers;
    var parent := ParentIn(p, id);
    assert parent == Climb(p, id, 1) by { assert parent.Some? ==> Climb(p, parent.value, 0) == parent; }
    ghost var n: nat := 1;
    while parent.Some?
      invariant n >= 1 && parent == Climb(p, id, n)
      invariant forall w :: w in marked <==> w in wrappers || (w in ids && AncestorWithin(p, w, id, n))
      decreases if parent.Some? then rank(parent.value) + 1 else 0
    {
      ClimbFurther(p, id, n, 1);
      forall w { WithinOneMore(p, w, id, n); }
      assert ParentIn(p, parent.value) == Climb(p, id, n + 1) by {
        assert ParentIn(p, parent.value) == Climb(p, parent.value, 1);
      }
      hide AncestorWithin, Climb;
      if parent.value in ids {
        marked := marked + {parent.value};
      }
      parent, n := ParentIn(p, parent.value), n + 1;
    }
    forall w ensures AncestorWithin(p, w, id, n) <==> IsAncestor(p, w, id) { WithinAll(p, w, id, n); }
  }

  method RemoveWrapperDuplicates(candidates: seq<Candidate>, spans: seq<Span>) returns (kept: seq<Candidate>)
    requires Acyclic(ParentsOf(spans))
    ensures kept == Survivors(candidates, spans)
  {
    var ids := IdsOf(candidates);
    var p := BuildParents(spans);
    var wrappers: set<Id>, todo := {}, ids;
    while todo != {}
      invariant todo <= ids
      invariant wrappers == set w | w in ids && exists c :: c in ids - todo && IsAncestor(p, w, c)
    {
      var id :| id in todo;
      wrappers := MarkAncestors(p, ids, id, wrappers);
      todo := todo - {id};
    }
    assert wrappers == WrappersOf(ids, p);
    kept := [];
    for i := 0 to |candidates|
      invariant kept == Without(candidates[..i], wrappers)
    {
      assert candidates[..i + 1][..i] == candidates[..i];
      if candidates[i].span.id !in wrappers {
        kept := kept + [candidates[i]];
      }
    }
    assert candidates[..|candidates|] == candidates;
  }

  // ---------------------------------------------------- choosing the cause

  ghost predicate IsDepth(p: Parents, id: Id, d: nat) {
    Climb(p, id, d).Some? && Climb(p, id, d + 1).None?
  }

  lemma {:induction false} DepthExists(p: Parents, rank: Id -> nat, id: Id)
    requires Ranked(p, rank)
    ensures exists d: nat :: IsDepth(p, id, d)
    decreases rank(id)
  {
    match ParentIn(p, id)
    case None => assert IsDepth(p, id, 0);
    case Some(up) =>
      DepthExists(p, rank, up);
      var d: nat :| IsDepth(p, up, d);
      assert IsDepth(p, id, d + 1);
  }

  lemma DepthIsUnique(p: Parents, id: Id, d: nat, e: nat)
    requires IsDepth(p, id, d) && IsDepth(p, id, e)
    ensures d == e
  {
    if d < e { ClimbEnds(p, id, d + 1, e); }
    if e < d { ClimbEnds(p, id, e + 1, d); }
  }

  ghost function DepthOf(p: Parents, id: Id): (d: nat)
    requires Acyclic(p)
    ensures IsDepth(p, id, d)
  {
    var rank: Id -> nat :| Ranked(p, rank);
    DepthExists(p, rank, id);
    var d: nat :| IsDepth(p, id, d);
    d
  }

  method Depth(span: Span, p: Parents) returns (depth: nat)
    requires Acyclic(p) && ParentIn(p, span.id) == span.parent
    ensures depth == DepthOf(p, span.id)
  {
    ghost var rank: Id -> nat :| Ranked(p, rank);
    depth := 0;
    var parent := span.parent;
    while parent.Some?
      invariant Climb(p, span.id, depth).Some? && parent == Climb(p, span.id, depth + 1)
      decreases if parent.Some? then rank(parent.value) + 1 else 0
    {
      depth := depth + 1;
      ClimbFurther(p, span.id, depth, 1);
      parent := ParentIn(p, parent.value);
    }
    DepthIsUnique(p, span.id, depth, DepthOf(p, span.id));
  }

  datatype Key = Key(sequence: Option<real>, start: int, depth: nat)

  /** Earlier step first (spans without a step index last), then earlier start, then deeper span. */
  predicate KeyLess(a: Key, b: Key) {
    || (a.sequence.Some? && (b.sequence.None? || a.sequence.value < b.sequence.value))
    || (a.sequence == b.sequence && (a.start < b.start || (a.start == b.start && a.depth > b.depth)))
  }

  ghost function KeyOf(c: Candidate, p: Parents): Key
    requires Acyclic(p)
  {
    Key(c.span.attrs.stepIndex, c.span.start, DepthOf(p, c.span.id))
  }

  /** The first candidate of the list that has the least key. */
  ghost predicate IsFirstLeast(cs: seq<Candidate>, p: Parents, k: nat)
    requires Acyclic(p)
  {
    && k < |cs|
    && (forall i :: 0 <= i < |cs| ==> !KeyLess(KeyOf(cs[i], p), KeyOf(cs[k], p)))
    && (forall i :: 0 <= i < k ==> KeyLess(KeyOf(cs[k], p), KeyOf(cs[i], p)))
  }

  ghost predicate KnownSpans(cs: seq<Candidate>, p: Parents) {
    forall i :: 0 <= i < |cs| ==> cs[i].span.id in p && p[cs[i].span.id] == cs[i].span.parent
  }

  lemma KeyOrder(a: Key, b: Key, c: Key)
    ensures !KeyLess(a, a) && (KeyLess(a, b) ==> !KeyLess(b, a))
    ensures KeyLess(a, b) && !KeyLess(c, b) ==> KeyLess(a, c)
    ensures !KeyLess(b, a) && !KeyLess(c, b) ==> !KeyLess(c, a)
  {
  }

  /** One more candidate: it takes over exactly if its key is less. */
  lemma FirstLeastExtends(cs: seq<Candidate>, p: Parents, k: nat, i: nat)
    requires Acyclic(p) && 0 < i < |cs| && IsFirstLeast(cs[..i], p, k)
    ensures IsFirstLeast(cs[..i + 1], p, if KeyLess(KeyOf(cs[i], p), KeyOf(cs[k], p)) then i else k)
  {
    hide KeyOf, KeyLess, Acyclic;
    var more := cs[..i + 1];
    assert forall j :: 0 <= j < i ==> cs[..i][j] == cs[j] == more[j];
    assert more[i] == cs[i];
    KeyOrder(KeyOf(cs[i], p), KeyOf(cs[i], p), KeyOf(cs[i], p));
    if KeyLess(KeyOf(cs[i], p), KeyOf(cs[k], p)) {
      forall j | 0 <= j < i ensures KeyLess(KeyOf(cs[i], p), KeyOf(cs[j], p)) && !KeyLess(KeyOf(cs[j], p), KeyOf(cs[i], p)) {
        KeyOrder(KeyOf(cs[i], p), KeyOf(cs[k], p), KeyOf(cs[j], p));
        KeyOrder(KeyOf(cs[i], p), KeyOf(cs[j], p), KeyOf(cs[k], p));
      }
    }
  }

  method SelectFirst(cs: seq<Candidate>, p: Parents) returns (k: nat)
    requires Acyclic(p) && cs != [] && KnownSpans(cs, p)
    ensures IsFirstLeast(cs, p, k)
  {
    k := 0;
    var depth := Depth(cs[0].span, p);
    var best := Key(cs[0].span.attrs.stepIndex, cs[0].span.start, depth);
    KeyOrder(best, best, best);
    assert IsFirstLeast(cs[..1], p, 0);
    hide IsFirstLeast, KeyLess, Acyclic;
    for i := 1 to |cs|
      invariant k < i && best == KeyOf(cs[k], p)
      invariant IsFirstLeast(cs[..i], p, k)
    {
      depth := Depth(cs[i].span, p);
      var key := Key(cs[i].span.attrs.stepIndex, cs[i].span.start, depth);
      FirstLeastExtends(cs, p, k, i);
      if KeyLess(key, best) {
        k, best := i, key;
      }
    }
    assert cs[..|cs|] == cs;
  }

  // ---------------------------------------------------------------- analyze

  predicate SpanLess(a: Span, b: Span) {
    a.start < b.start || (a.start == b.start && a.id < b.id)
  }

  ghost predicate UniqueIds(spans: seq<Span>) {
    forall i, j :: 0 <= i < j < |spans| ==> spans[i].id != spans[j].id
  }

  predicate OccursAt(text: string, part: string, i: nat) {
    i + |part| <= |text| && text[i..i + |part|] == part
  }

  predicate Contains(text: string, part: string) {
    exists i :: 0 <= i <= |text| && OccursAt(text, part, i)
  }

  function LastWhere(spans: seq<Span>, test: Span -> bool): Option<Span> {
    if spans == [] then None
    else if test(spans[|spans| - 1]) then Some(spans[|spans| - 1])
    else LastWhere(spans[..|spans| - 1], test)
  }

  const NO_ATTRIBUTES := Attributes(None, None, None, None, None, false, None, false, false)
  const MISSING_TRACE := Span(0, None, 0, "coremesh.forensics.missing_trace", false, NO_ATTRIBUTES)

  function FallbackSpan(spans: seq<Span>, trigger: Trigger): Span {
    var arbitration := LastWhere(spans, (s: Span) => Contains(s.name, "arbitration"));
    var failed := LastWhere(spans, (s: Span) => s.error);
    if spans == [] then MISSING_TRACE
    else if trigger == ArbitrationTrigger && arbitration.Some? then arbitration.value
    else if failed.Some? then failed.value
    else spans[|spans| - 1]
  }

  function CauseDiagnosis(c: Candidate): Diagnosis {
    Diagnosis(c.span.id, c.span.name, c.span.attrs.stepId, c.category,
              if c.span.error then 0.98 else 0.85, c.evidence, Deterministic)
  }

  function FallbackDiagnosis(spans: seq<Span>, trigger: Trigger): Diagnosis {
    var s := FallbackSpan(spans, trigger);
    Diagnosis(s.id, s.name, s.attrs.stepId,
              if trigger == ArbitrationTrigger then ArbitrationFailure else Unknown,
              0.35, [TerminalTrigger(trigger)], Deterministic)
  }

  /** The spans of a trace in the order in which they are analysed and stored. */
  function Ordered(spans: seq<Span>): seq<Span> {
    Sorting.Sort(SpanLess, spans)
  }

  /** The candidates left after wrapper removal, for spans already in order. */
  ghost function CausesOf(cfg: Config, ordered: seq<Span>): seq<Candidate> {
    Survivors(CandidatesAmong(cfg, ordered, |ordered|), ordered)
  }

  /** What it means for `d` to be the diagnosis of a trace. */
  ghost predicate Diagnoses(cfg: Config, judge: Option<Judge>, spans: seq<Span>, trigger: Trigger, d: Diagnosis)
    requires UniqueIds(spans) && Acyclic(ParentsOf(spans))
  {
    var ordered := Ordered(spans);
    OrderedKeepsParents(spans);
    var causes := CausesOf(cfg, ordered);
    if causes != [] then exists k: nat :: IsFirstLeast(causes, ParentsOf(ordered), k) && d == CauseDiagnosis(causes[k])
    else if judge.Some? && judge.value(ordered, trigger).Some?
    then d == judge.value(ordered, trigger).value.(analyzer := OptionalJudge)
    else d == FallbackDiagnosis(ordered, trigger)
  }

  lemma {:induction false} ParentsOfAt(spans: seq<Span>, i: nat)
    requires UniqueIds(spans) && i < |spans|
    ensures spans[i].id in ParentsOf(spans) && ParentsOf(spans)[spans[i].id] == spans[i].parent
    decreases |spans|
  {
    if i < |spans| - 1 { ParentsOfAt(spans[..|spans| - 1], i); }
  }

  lemma {:induction false} WithoutSelects(candidates: seq<Candidate>, ids: set<Id>, c: Candidate)
    ensures c in Without(candidates, ids) <==> c in candidates && c.span.id !in ids
    decreases |candidates|
  {
    if candidates != [] {
      WithoutSelects(candidates[..|candidates| - 1], ids, c);
      assert candidates == candidates[..|candidates| - 1] + [candidates[|candidates| - 1]];
    }
  }

  /** A span is a candidate exactly when it shows a degradation signal, and then under the category it deserves. */
  lemma {:induction false} CandidateIffDegraded(cfg: Config, spans: seq<Span>, n: nat, c: Candidate)
    requires n <= |spans|
    ensures c in CandidatesAmong(cfg, spans, n) <==>
            exists i :: 0 <= i < n && CandidateAt(cfg, spans, i, c)
    decreases n
  {
    if n > 0 {
      CandidateIffDegraded(cfg, spans, n - 1, c);
      var before := CandidatesAmong(cfg, spans, n - 1);
      assert forall x :: x in CandidatesAmong(cfg, spans, n) <==> x in before || CandidateAt(cfg, spans, n - 1, x);
    }
  }

  predicate CandidateAt(cfg: Config, spans: seq<Span>, i: nat, c: Candidate)
    requires i < |spans|
  {
    var previous := LastConfidence(spans, i);
    Degraded(cfg, spans[i], previous) && c == Candidate(spans[i], EvidenceOf(cfg, spans[i], previous), CategoryOf(cfg, spans[i], previous))
  }

  lemma CausesAreKnown(cfg: Config, spans: seq<Span>)
    requires UniqueIds(spans)
    ensures KnownSpans(CausesOf(cfg, spans), ParentsOf(spans))
    ensures KnownSpans(CandidatesAmong(cfg, spans, |spans|), ParentsOf(spans))
  {
    var all, p := CandidatesAmong(cfg, spans, |spans|), ParentsOf(spans);
    forall c | c in all ensures c.span.id in p && p[c.span.id] == c.span.parent {
      CandidateIffDegraded(cfg, spans, |spans|, c);
      var i :| 0 <= i < |spans| && CandidateAt(cfg, spans, i, c);
      ParentsOfAt(spans, i);
    }
    var causes := CausesOf(cfg, spans);
    forall i | 0 <= i < |causes| ensures causes[i] in all {
      WithoutSelects(all, WrappersOf(IdsOf(all), p), causes[i]);
    }
  }

  lemma OrderedKeepsIds(spans: seq<Span>)
    requires UniqueIds(spans)
    ensures Sorting.OrdersElements(SpanLess, spans) && UniqueIds(Ordered(spans))
    ensures multiset(Ordered(spans)) == multiset(spans)
  {
    Sorting.SortKeepsElements(SpanLess, spans);
    UniqueIdsOfPermutation(spans, Ordered(spans));
  }

  lemma UniqueIdsOfPermutation(spans: seq<Span>, q: seq<Span>)
    requires UniqueIds(spans) && multiset(spans) == multiset(q)
    ensures UniqueIds(q)
  {
    Sorting.PermutedStaysDistinct(spans, q);
    Sorting.SameElements(spans, q);
    forall i, j | 0 <= i < j < |q| ensures q[i].id != q[j].id {
      assert q[i] in spans && q[j] in spans && q[i] != q[j];
    }
  }

  lemma {:induction false} ParentsOfKeys(spans: seq<Span>, id: Id) returns (i: nat)
    requires id in ParentsOf(spans)
    ensures i < |spans| && spans[i].id == id
    decreases |spans|
  {
    if spans[|spans| - 1].id == id {
      i := |spans| - 1;
    } else {
      i := ParentsOfKeys(spans[..|spans| - 1], id);
    }
  }

  lemma ParentsIncluded(spans: seq<Span>, q: seq<Span>)
    requires UniqueIds(spans) && UniqueIds(q) && multiset(spans) == multiset(q)
    ensures forall id :: id in ParentsOf(spans) ==> id in ParentsOf(q) && ParentsOf(q)[id] == ParentsOf(spans)[id]
  {
    Sorting.SameElements(spans, q);
    forall id | id in ParentsOf(spans)
      ensures id in ParentsOf(q) && ParentsOf(q)[id] == ParentsOf(spans)[id]
    {
      var i := ParentsOfKeys(spans, id);
      ParentsOfAt(spans, i);
      assert spans[i] in q;
      var j :| 0 <= j < |q| && q[j] == spans[i];
      ParentsOfAt(q, j);
    }
  }

  lemma OrderedKeepsParents(spans: seq<Span>)
    requires UniqueIds(spans)
    ensures UniqueIds(Ordered(spans)) && ParentsOf(Ordered(spans)) == ParentsOf(spans)
  {
    OrderedKeepsIds(spans);
    ParentsIncluded(spans, Ordered(spans));
    ParentsIncluded(Ordered(spans), spans);
  }

  method Analyze(cfg: Config, judge: Option<Judge>, spans: seq<Span>, trigger: Trigger) returns (d: Diagnosis)
    requires UniqueIds(spans) && Acyclic(ParentsOf(spans))
    ensures Diagnoses(cfg, judge, spans, trigger, d)
  {
    var ordered := Ordered(spans);
    OrderedKeepsParents(spans);
    CausesAreKnown(cfg, ordered);
    var candidates := Candidates(cfg, ordered);
    candidates := RemoveWrapperDuplicates(candidates, ordered);
    if candidates != [] {
      var p := BuildParents(ordered);
      var k := SelectFirst(candidates, p);
      return CauseDiagnosis(candidates[k]);
    }
    if judge.Some? && judge.value(ordered, trigger).Some? {
      return judge.value(ordered, trigger).value.(analyzer := OptionalJudge);
    }
    d := FallbackDiagnosis(ordered, trigger);
  }

  // ------------------------------------------------------------ main results

  ghost function Deeper(ids: set<Id>, rank: Id -> nat, w: Id): set<Id> {
    set x | x in ids && rank(x) > rank(w)
  }

  /** The deepest candidate below `w`, or `w` itself, is no wrapper. */
  lemma {:induction false} UnwrappedBelow(ids: set<Id>, p: Parents, rank: Id -> nat, w: Id) returns (c: Id)
    requires Ranked(p, rank) && w in ids
    ensures c in ids && c !in WrappersOf(ids, p) && (c == w || IsAncestor(p, w, c))
    decreases Deeper(ids, rank, w)
  {
    c := w;
    if w in WrappersOf(ids, p) {
      var below :| below in ids && IsAncestor(p, w, below);
      var n: nat :| n >= 1 && Climb(p, below, n) == Some(w);
      ClimbLowersRank(p, rank, below, n);
      assert below in Deeper(ids, rank, w) && below !in Deeper(ids, rank, below);
      c := UnwrappedBelow(ids, p, rank, below);
      if c != below { AncestorsCompose(p, w, below, c); }
    }
  }

  /**
   Wrapper removal keeps candidates no one of which encloses another, and every candidate it drops encloses
   one it keeps; hence something is kept whenever there was a candidate.
   */
  lemma SurvivorsAreDeepest(candidates: seq<Candidate>, spans: seq<Span>)
    requires Acyclic(ParentsOf(spans))
    ensures forall c, d :: c in Survivors(candidates, spans) && d in Survivors(candidates, spans)
              ==> !IsAncestor(ParentsOf(spans), c.span.id, d.span.id)
    ensures forall c :: c in candidates && c !in Survivors(candidates, spans)
              ==> exists d :: d in Survivors(candidates, spans) && IsAncestor(ParentsOf(spans), c.span.id, d.span.id)
    ensures forall c :: c in Survivors(candidates, spans) ==> c in candidates
    ensures candidates != [] ==> Survivors(candidates, spans) != []
  {
    var ids, p := IdsOf(candidates), ParentsOf(spans);
    var rank: Id -> nat :| Ranked(p, rank);
    var kept := Survivors(candidates, spans);
    forall c ensures c in kept <==> c in candidates && c.span.id !in WrappersOf(ids, p) {
      WithoutSelects(candidates, WrappersOf(ids, p), c);
    }
    forall c | c in candidates && c !in kept
      ensures exists d :: d in kept && IsAncestor(p, c.span.id, d.span.id)
    {
      var below := UnwrappedBelow(ids, p, rank, c.span.id);
      var d :| d in candidates && d.span.id == below;
      assert d in kept;
    }
    if candidates != [] { assert candidates[0] in candidates; }
  }

  lemma FirstLeastIsUnique(cs: seq<Candidate>, p: Parents, k: nat, l: nat)
    requires Acyclic(p) && IsFirstLeast(cs, p, k) && IsFirstLeast(cs, p, l)
    ensures k == l
  {
    assert !KeyLess(KeyOf(cs[l], p), KeyOf(cs[k], p)) && !KeyLess(KeyOf(cs[k], p), KeyOf(cs[l], p));
  }

  /** Any two analyses of one trace agree, in whatever order its spans are given. */
  lemma DiagnosisIgnoresSpanOrder(cfg: Config, judge: Option<Judge>, spans: seq<Span>, shuffled: seq<Span>,
                                  trigger: Trigger, d: Diagnosis, e: Diagnosis)
    requires UniqueIds(spans) && UniqueIds(shuffled) && multiset(spans) == multiset(shuffled)
    requires Acyclic(ParentsOf(spans)) && Acyclic(ParentsOf(shuffled))
    requires Diagnoses(cfg, judge, spans, trigger, d) && Diagnoses(cfg, judge, shuffled, trigger, e)
    ensures d == e
  {
    OrderedKeepsIds(spans);
    Sorting.SortIsCanonical(SpanLess, spans, shuffled);
    SameOrderSameDiagnosis(cfg, judge, spans, shuffled, trigger, trigger, d, e);
  }

  lemma SameOrderSameDiagnosis(cfg: Config, judge: Option<Judge>, spans: seq<Span>, other: seq<Span>,
                               t: Trigger, u: Trigger, d: Diagnosis, e: Diagnosis)
    requires UniqueIds(spans) && UniqueIds(other) && Ordered(spans) == Ordered(other)
    requires Acyclic(ParentsOf(spans)) && Acyclic(ParentsOf(other))
    requires Diagnoses(cfg, judge, spans, t, d) && Diagnoses(cfg, judge, other, u, e)
    requires t == u || CausesOf(cfg, Ordered(spans)) != []
    ensures d == e
  {
    OrderedKeepsParents(spans);
    var ordered := Ordered(spans);
    var causes, p := CausesOf(cfg, ordered), ParentsOf(ordered);
    if causes != [] {
      var k: nat :| IsFirstLeast(causes, p, k) && d == CauseDiagnosis(causes[k]);
      var l: nat :| IsFirstLeast(causes, p, l) && e == CauseDiagnosis(causes[l]);
      FirstLeastIsUnique(causes, p, k, l);
    }
  }

  /** The trace, in its analysed order, shows some degradation signal. */
  ghost predicate ShowsDegradation(cfg: Config, ordered: seq<Span>) {
    exists i :: 0 <= i < |ordered| && Degraded(cfg, ordered[i], LastConfidence(ordered, i))
  }

  lemma DegradationHasCause(cfg: Config, ordered: seq<Span>)
    requires UniqueIds(ordered) && Acyclic(ParentsOf(ordered))
    ensures ShowsDegradation(cfg, ordered) <==> CausesOf(cfg, ordered) != []
  {
    var all := CandidatesAmong(cfg, ordered, |ordered|);
    SurvivorsAreDeepest(all, ordered);
    if ShowsDegradation(cfg, ordered) {
      var i :| 0 <= i < |ordered| && Degraded(cfg, ordered[i], LastConfidence(ordered, i));
      var previous := LastConfidence(ordered, i);
      var c := Candidate(ordered[i], EvidenceOf(cfg, ordered[i], previous), CategoryOf(cfg, ordered[i], previous));
      assert CandidateAt(cfg, ordered, i, c);
      CandidateIffDegraded(cfg, ordered, |ordered|, c);
    }
    if CausesOf(cfg, ordered) != [] {
      var c := CausesOf(cfg, ordered)[0];
      assert c in CausesOf(cfg, ordered);
      CandidateIffDegraded(cfg, ordered, |ordered|, c);
    }
  }

  lemma CausesAreDegraded(cfg: Config, ordered: seq<Span>, c: Candidate)
    requires c in CausesOf(cfg, ordered)
    ensures exists i :: 0 <= i < |ordered| && CandidateAt(cfg, ordered, i, c)
  {
    var all := CandidatesAmong(cfg, ordered, |ordered|);
    WithoutSelects(all, WrappersOf(IdsOf(all), ParentsOf(ordered)), c);
    CandidateIffDegraded(cfg, ordered, |ordered|, c);
  }

  /** Whenever some degradation signal exists, the diagnosed span is a degraded one, under its own evidence and category. */
  lemma DiagnosedSpanIsDegraded(cfg: Config, judge: Option<Judge>, spans: seq<Span>, trigger: Trigger, d: Diagnosis)
    requires UniqueIds(spans) && Acyclic(ParentsOf(spans)) && Diagnoses(cfg, judge, spans, trigger, d)
    requires ShowsDegradation(cfg, Ordered(spans))
    ensures exists i, c :: 0 <= i < |Ordered(spans)| && CandidateAt(cfg, Ordered(spans), i, c) && d == CauseDiagnosis(c)
  {
    var ordered := Ordered(spans);
    OrderedKeepsParents(spans);
    hide CandidateAt, ShowsDegradation, CausesOf, Ordered, CauseDiagnosis;
    DegradationHasCause(cfg, ordered);
    var causes := CausesOf(cfg, ordered);
    var k: nat :| IsFirstLeast(causes, ParentsOf(ordered), k) && d == CauseDiagnosis(causes[k]);
    CausesAreDegraded(cfg, ordered, causes[k]);
  }

  lemma OrderedTwice(spans: seq<Span>)
    requires UniqueIds(spans)
    ensures Ordered(Ordered(spans)) == Ordered(spans)
  {
    OrderedKeepsIds(spans);
    OrderedKeepsIds(Ordered(spans));
    Sorting.SortIsCanonical(SpanLess, Ordered(spans), spans);
  }

  /**
   Re-analysing the stored spans of a trace on negative feedback names the cause found before, under any
   trigger, whenever the trace shows a degradation signal at all.
   */
  lemma NegativeFeedbackKeepsDiagnosis(cfg: Config, judge: Option<Judge>, spans: seq<Span>, trigger: Trigger,
                                       d: Diagnosis, e: Diagnosis)
    requires UniqueIds(spans) && UniqueIds(Ordered(spans))
    requires Acyclic(ParentsOf(spans)) && Acyclic(ParentsOf(Ordered(spans)))
    requires Diagnoses(cfg, judge, spans, trigger, d) && Diagnoses(cfg, judge, Ordered(spans), NegativeFeedback, e)
    requires ShowsDegradation(cfg, Ordered(spans))
    ensures d == e
  {
    hide Diagnoses, CausesOf, ShowsDegradation;
    OrderedTwice(spans);
    DegradationHasCause(cfg, Ordered(spans));
    SameOrderSameDiagnosis(cfg, judge, spans, Ordered(spans), trigger, NegativeFeedback, d, e);
  }
}
