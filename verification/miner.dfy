/**
 One run of the log miner: eligible rows, embeddings, seeds, labelled candidates, persistence
 and purge.  Seeds are any function of the rows and their vectors, labels any function of a seed.
 */
module Miner {
  import opened Common
  import opened EmbeddingCache
  import opened MinerStore
  import Sorting
  import Strings

  datatype Seed = Seed(representative: LogRow, members: seq<LogRow>, tag: Tag)

  datatype Config = Config(
    settings: Settings,
    version: string,
    seedsOf: (seq<LogRow>, seq<Vec>) -> Option<seq<Seed>>,
    promotion: real,
    window: nat,
    retention: nat,
    threshold: int)

  // A generator that raises is one that answers `None`; otherwise it answers its confidence.
  type Generator = Seed -> Option<real>

  datatype RunStatus = Completed | Failed | Skipped
  datatype Summary = Summary(
    status: RunStatus, eligible: nat, embedded: nat, candidate: nat, promoted: nat, pending: nat,
    duplicate: nat, error: nat, purged: nat)

  // ------------------------------------------------------------ eligible rows

  predicate Blank(s: string) { forall c :: c in s ==> c == ' ' }

  predicate IsEligible(r: LogRow, start: int, end: int, threshold: int) {
    && start <= r.createdAt <= end && !Blank(r.scope) && !Blank(r.prompt)
    && (r.negative || (r.minScore.Some? && r.minScore.value < threshold))
  }

  predicate Earlier(a: LogRow, b: LogRow) {
    a.createdAt < b.createdAt || (a.createdAt == b.createdAt && Strings.Less(a.traceId, b.traceId))
  }

  function Filtered(logs: seq<LogRow>, start: int, end: int, threshold: int): seq<LogRow> {
    if logs == [] then []
    else
      var last := logs[|logs| - 1];
      Filtered(logs[..|logs| - 1], start, end, threshold) + if IsEligible(last, start, end, threshold) then [last] else []
  }

  function Eligible(cfg: Config, logs: seq<LogRow>, now: int): seq<LogRow> {
    Sorting.Sort(Earlier, Filtered(logs, now - cfg.window, now, cfg.threshold))
  }

  method FetchEligible(cfg: Config, logs: seq<LogRow>, now: int) returns (records: seq<LogRow>)
    ensures records == Eligible(cfg, logs, now)
  {
    records := [];
    for i := 0 to |logs|
      invariant records == Filtered(logs[..i], now - cfg.window, now, cfg.threshold)
    {
      assert logs[..i + 1][..i] == logs[..i];
      if IsEligible(logs[i], now - cfg.window, now, cfg.threshold) { records := records + [logs[i]]; }
    }
    assert logs[..|logs|] == logs;
    records := Sorting.Sort(Earlier, records);
  }

  lemma {:induction false} FilteredIn(logs: seq<LogRow>, start: int, end: int, threshold: int, r: LogRow)
    ensures r in Filtered(logs, start, end, threshold) <==> r in logs && IsEligible(r, start, end, threshold)
  {
    if logs != [] { FilteredIn(logs[..|logs| - 1], start, end, threshold, r); }
  }

  lemma EligibleIn(cfg: Config, logs: seq<LogRow>, now: int, r: LogRow)
    ensures r in Eligible(cfg, logs, now) <==> r in logs && IsEligible(r, now - cfg.window, now, cfg.threshold)
  {
    var filtered := Filtered(logs, now - cfg.window, now, cfg.threshold);
    FilteredIn(logs, now - cfg.window, now, cfg.threshold, r);
    Sorting.SortKeepsElements(Earlier, filtered);
    Sorting.SameElements(Sorting.Sort(Earlier, filtered), filtered);
  }

  ghost predicate UniqueTraces(records: seq<LogRow>) {
    forall i, j :: 0 <= i < j < |records| ==> records[i].traceId != records[j].traceId
  }

  lemma {:induction false} FilteredIsUnique(logs: seq<LogRow>, start: int, end: int, threshold: int)
    requires UniqueTraces(logs)
    ensures UniqueTraces(Filtered(logs, start, end, threshold))
  {
    hide IsEligible;
    if logs != [] {
      var front, last := logs[..|logs| - 1], logs[|logs| - 1];
      FilteredIsUnique(front, start, end, threshold);
      var kept := Filtered(front, start, end, threshold);
      forall i | 0 <= i < |kept| ensures kept[i].traceId != last.traceId {
        FilteredIn(front, start, end, threshold, kept[i]);
        assert kept[i] in front;
      }
    }
  }

  lemma EarlierOrders(rows: seq<LogRow>)
    requires UniqueTraces(rows)
    ensures Sorting.OrdersElements(Earlier, rows) && Distinct(rows)
  {
    hide Strings.Less;
    forall x ensures !Earlier(x, x) { Strings.LessIsIrreflexive(x.traceId); }
    forall x, y, z | Earlier(x, y) && Earlier(y, z) ensures Earlier(x, z) {
      if x.createdAt == y.createdAt == z.createdAt { Strings.LessIsTransitive(x.traceId, y.traceId, z.traceId); }
    }
    forall x, y | x in rows && y in rows ensures x == y || Earlier(x, y) || Earlier(y, x) {
      Strings.LessIsTotal(x.traceId, y.traceId);
    }
  }

  /** The eligible rows, each once, by time and then by trace. */
  lemma EligibleInOrder(cfg: Config, logs: seq<LogRow>, now: int)
    requires UniqueTraces(logs)
    ensures var rows := Eligible(cfg, logs, now);
            && UniqueTraces(rows)
            && forall i, j :: 0 <= i < j < |rows| ==>
                 rows[i].createdAt < rows[j].createdAt
                 || (rows[i].createdAt == rows[j].createdAt && Strings.Less(rows[i].traceId, rows[j].traceId))
  {
    var filtered, rows := Filtered(logs, now - cfg.window, now, cfg.threshold), Eligible(cfg, logs, now);
    FilteredIsUnique(logs, now - cfg.window, now, cfg.threshold);
    EarlierOrders(filtered);
    Sorting.SortsStrictly(Earlier, filtered);
    hide Filtered, Eligible, Strings.Less, Sorting.OrdersElements;
    forall i, j | 0 <= i < j < |rows| ensures rows[i].traceId != rows[j].traceId {
      assert Earlier(rows[i], rows[j]);
      if rows[i].createdAt == rows[j].createdAt { Strings.LessIsIrreflexive(rows[i].traceId); } else { SameTraceSameRow(filtered, rows[i], rows[j]); }
    }
  }

  lemma SameTraceSameRow(rows: seq<LogRow>, a: LogRow, b: LogRow)
    requires UniqueTraces(rows) && a in rows && b in rows && a != b
    ensures a.traceId != b.traceId
  {
  }

  function PromptsOf(records: seq<LogRow>): seq<string> {
    seq(|records|, i requires 0 <= i < |records| => records[i].prompt)
  }

  // -------------------------------------------------------------- candidates

  /** The fingerprint of a seed: of its feature scope and the normal form of its prompt. */
  function KeyOf(cfg: Config, seed: Seed): string {
    cfg.settings.hash(cfg.version + "\0" + seed.representative.scope + "\0" + cfg.settings.normalize(seed.representative.prompt))
  }

  function TraceIds(rows: seq<LogRow>): seq<string> {
    seq(|rows|, i requires 0 <= i < |rows| => rows[i].traceId)
  }

  function PreparedOf(cfg: Config, seed: Seed, confidence: real): Prepared {
    var r := seed.representative;
    Prepared(KeyOf(cfg, seed), r.scope, r.prompt, r.traceId, TraceIds(seed.members), seed.tag,
             if confidence >= cfg.promotion then Promoted else PendingReview)
  }

  /** The seeds whose fingerprint is stored already (or is not), in order. */
  function SeedsKnown(cfg: Config, db: Db, seeds: seq<Seed>, known: bool): seq<Seed> {
    if seeds == [] then []
    else
      var last := seeds[|seeds| - 1];
      SeedsKnown(cfg, db, seeds[..|seeds| - 1], known) + if Known(db, KeyOf(cfg, last)) == known then [last] else []
  }

  /** The candidates made of those seeds that could be labelled. */
  function Labelled(cfg: Config, generate: Generator, seeds: seq<Seed>): seq<Prepared> {
    if seeds == [] then []
    else
      var last := seeds[|seeds| - 1];
      Labelled(cfg, generate, seeds[..|seeds| - 1])
      + match generate(last) case None => [] case Some(confidence) => [PreparedOf(cfg, last, confidence)]
  }

  /** Sorts the seeds into known ones and labelled new ones; stops when the lease is lost. */
  method BuildCandidates(cfg: Config, repo: Repository, seeds: seq<Seed>, generate: Generator, active: nat -> bool, tick: nat)
    returns (ok: bool, merges: seq<Seed>, prepared: seq<Prepared>, duplicates: nat, errors: nat, next: nat)
    ensures ok ==> merges == SeedsKnown(cfg, repo.State(), seeds, true)
    ensures ok ==> prepared == Labelled(cfg, generate, SeedsKnown(cfg, repo.State(), seeds, false))
    ensures ok ==> duplicates == |merges| && duplicates + errors + |prepared| == |seeds|
    ensures duplicates + errors <= |seeds|
    ensures (forall k :: active(k)) ==> ok
  {
    hide KeyOf, PreparedOf;
    ok, merges, prepared, duplicates, errors, next := true, [], [], 0, 0, tick;
    ghost var db := repo.State();
    ghost var unknown := [];
    for i := 0 to |seeds|
      invariant ok && merges == SeedsKnown(cfg, db, seeds[..i], true) && unknown == SeedsKnown(cfg, db, seeds[..i], false)
      invariant prepared == Labelled(cfg, generate, unknown)
      invariant duplicates == |merges| && duplicates + errors + |prepared| == i
    {
      var seed := seeds[i];
      assert seeds[..i + 1][..i] == seeds[..i];
      var known := repo.SourceFingerprintExists(KeyOf(cfg, seed));
      if known {
        duplicates, merges := duplicates + 1, merges + [seed];
        continue;
      }
      assert (unknown + [seed])[..|unknown|] == unknown;
      unknown := unknown + [seed];
      if !active(next) { ok := false; return; }
      var generated := generate(seed);
      if generated.None? {
        errors, next := errors + 1, next + 1;
        continue;
      }
      if !active(next + 1) { ok := false; return; }
      next := next + 2;
      prepared := prepared + [PreparedOf(cfg, seed, generated.value)];
    }
    assert seeds[..|seeds|] == seeds;
  }

  // ------------------------------------------------------------- persistence

  function MergeSeed(cfg: Config, db: Db, seed: Seed): Db {
    if KeyOf(cfg, seed) in db.candidates then Merged(db, KeyOf(cfg, seed), Ids(TraceIds(seed.members)), seed.tag) else db
  }

  function MergeAll(cfg: Config, db: Db, seeds: seq<Seed>): Db {
    if seeds == [] then db else MergeSeed(cfg, MergeAll(cfg, db, seeds[..|seeds| - 1]), seeds[|seeds| - 1])
  }

  /** `clock(k)` is the database's time at the insertion of the `k`-th candidate. */
  function PersistAll(db: Db, runId: nat, prepared: seq<Prepared>, clock: nat -> int): Db {
    if prepared == [] then db
    else
      var k: nat := |prepared| - 1;
      Persisted(PersistAll(db, runId, prepared[..k], clock), runId, prepared[k], clock(k))
  }

  /** Those of the prepared candidates that are new when their turn comes. */
  function Created(db: Db, runId: nat, prepared: seq<Prepared>, clock: nat -> int): seq<Prepared> {
    if prepared == [] then []
    else
      var k: nat := |prepared| - 1;
      Created(db, runId, prepared[..k], clock)
      + if prepared[k].key in PersistAll(db, runId, prepared[..k], clock).candidates then [] else [prepared[k]]
  }

  function CountPromoted(prepared: seq<Prepared>): nat {
    if prepared == [] then 0
    else CountPromoted(prepared[..|prepared| - 1]) + if prepared[|prepared| - 1].status == Promoted then 1 else 0
  }

  lemma MergeSeedKeepsValid(cfg: Config, db: Db, seed: Seed)
    requires Valid(db)
    ensures var after := MergeSeed(cfg, db, seed);
            Valid(after) && Grew(db, after) && after.candidates.Keys == db.candidates.Keys && after.golden == db.golden
  {
    hide KeyOf, Ids, TraceIds;
    GrewReflexive(db);
    if KeyOf(cfg, seed) in db.candidates {
      MergedKeepsValid(db, KeyOf(cfg, seed), Ids(TraceIds(seed.members)), seed.tag);
      hide Valid, Grew;
    }
  }

  lemma {:induction false} MergeAllKeepsValid(cfg: Config, db: Db, seeds: seq<Seed>)
    requires Valid(db)
    ensures Valid(MergeAll(cfg, db, seeds)) && Grew(db, MergeAll(cfg, db, seeds))
    ensures MergeAll(cfg, db, seeds).candidates.Keys == db.candidates.Keys && MergeAll(cfg, db, seeds).golden == db.golden
  {
    hide Valid, Grew, MergeSeed;
    if seeds == [] {
      GrewReflexive(db);
    } else {
      var before, seed := MergeAll(cfg, db, seeds[..|seeds| - 1]), seeds[|seeds| - 1];
      MergeAllKeepsValid(cfg, db, seeds[..|seeds| - 1]);
      MergeSeedKeepsValid(cfg, before, seed);
      GrewTwice(db, before, MergeAll(cfg, db, seeds));
    }
  }

  lemma GrewReflexive(db: Db)
    ensures Grew(db, db)
  {
  }

  lemma GrewTwice(a: Db, b: Db, c: Db)
    requires Grew(a, b) && (Grew(b, c) || c == b)
    ensures Grew(a, c)
  {
    forall f | f in a.candidates ensures f in c.candidates && a.candidates[f].members <= c.candidates[f].members {
      assert f in b.candidates;
    }
  }

  lemma {:induction false} PersistAllKeepsValid(db: Db, runId: nat, prepared: seq<Prepared>, clock: nat -> int)
    requires Valid(db)
    ensures Valid(PersistAll(db, runId, prepared, clock)) && Grew(db, PersistAll(db, runId, prepared, clock))
  {
    hide Valid, Persisted, Grew;
    if prepared == [] {
      GrewReflexive(db);
    } else {
      var k: nat := |prepared| - 1;
      var before := PersistAll(db, runId, prepared[..k], clock);
      PersistAllKeepsValid(db, runId, prepared[..k], clock);
      PersistedKeepsValid(before, runId, prepared[k], clock(k));
      GrewTwice(db, before, PersistAll(db, runId, prepared, clock));
    }
  }

  /** Stops when the lease is lost; `done` seeds are merged by then. */
  method MergeKnown(cfg: Config, repo: Repository, merges: seq<Seed>, active: nat -> bool, tick: nat)
    returns (ok: bool, next: nat, ghost done: nat)
    requires Valid(repo.State())
    modifies repo`candidates, repo`members
    ensures Valid(repo.State()) && Grew(old(repo.State()), repo.State())
    ensures done <= |merges| && repo.State() == MergeAll(cfg, old(repo.State()), merges[..done])
    ensures ok ==> done == |merges|
    ensures (forall k :: active(k)) ==> ok
  {
    ghost var start := repo.State();
    next, done := tick, 0;
    for i := 0 to |merges|
      modifies repo`candidates, repo`members
      invariant done == i && repo.State() == MergeAll(cfg, start, merges[..i])
    {
      assert merges[..i + 1][..i] == merges[..i];
      MergeAllKeepsValid(cfg, start, merges[..i]);
      if !active(next) { return false, next, done; }
      var merged := repo.MergeCandidateMembers(active(next + 1), KeyOf(cfg, merges[i]), TraceIds(merges[i].members), merges[i].tag);
      if merged.None? { return false, next, done; }
      next, done := next + 2, done + 1;
    }
    assert merges[..|merges|] == merges;
    MergeAllKeepsValid(cfg, start, merges);
    ok := true;
  }

  /** The next candidate is created exactly if its fingerprint has no row yet. */
  lemma CreatedOneMore(db: Db, runId: nat, prepared: seq<Prepared>, clock: nat -> int, i: nat)
    requires i < |prepared|
    ensures PersistAll(db, runId, prepared[..i + 1], clock)
            == Persisted(PersistAll(db, runId, prepared[..i], clock), runId, prepared[i], clock(i))
    ensures var before, after := Created(db, runId, prepared[..i], clock), Created(db, runId, prepared[..i + 1], clock);
            if prepared[i].key in PersistAll(db, runId, prepared[..i], clock).candidates then after == before
            else |after| == |before| + 1
                 && CountPromoted(after) == CountPromoted(before) + if prepared[i].status == Promoted then 1 else 0
  {
    hide Persisted;
    assert prepared[..i + 1][..i] == prepared[..i];
    var before := Created(db, runId, prepared[..i], clock);
    assert (before + [prepared[i]])[..|before|] == before;
  }

  /** What has been counted when the first `i` candidates are persisted. */
  ghost predicate Counted(db: Db, runId: nat, prepared: seq<Prepared>, clock: nat -> int, i: nat,
                          duplicates: nat, candidate: nat, promoted: nat, pending: nat)
    requires i <= |prepared|
  {
    var created := Created(db, runId, prepared[..i], clock);
    && candidate == |created| && promoted == CountPromoted(created) && duplicates == i - candidate
    && candidate == promoted + pending
  }

  /** Stops when the lease is lost; `done` candidates are persisted and counted by then. */
  method PersistNew(repo: Repository, runId: nat, prepared: seq<Prepared>, clock: nat -> int, active: nat -> bool, tick: nat)
    returns (ok: bool, duplicates: nat, candidate: nat, promoted: nat, pending: nat, next: nat, ghost done: nat)
    requires Valid(repo.State())
    modifies repo`candidates, repo`members, repo`golden, repo`nextId
    ensures Valid(repo.State()) && Grew(old(repo.State()), repo.State())
    ensures done <= |prepared| && repo.State() == PersistAll(old(repo.State()), runId, prepared[..done], clock)
    ensures Counted(old(repo.State()), runId, prepared, clock, done, duplicates, candidate, promoted, pending)
    ensures ok ==> done == |prepared|
    ensures (forall k :: active(k)) ==> ok
  {
    hide *;
    ghost var start := repo.State();
    ok, duplicates, candidate, promoted, pending := true, 0, 0, 0, 0;
    NothingCounted(start, runId, prepared, clock);
    next, done := tick, 0;
    for i := 0 to |prepared|
      modifies repo`candidates, repo`members, repo`golden, repo`nextId
      invariant ok && done == i && repo.State() == PersistAll(start, runId, prepared[..i], clock)
      invariant Counted(start, runId, prepared, clock, i, duplicates, candidate, promoted, pending)
    {
      var p := prepared[i];
      PersistAllKeepsValid(start, runId, prepared[..i], clock);
      if !active(next) { ok := false; return; }
      var stored := repo.PersistCandidate(active(next + 1), runId, p, clock(i));
      if stored.None? { ok := false; return; }
      next, done := next + 2, done + 1;
      CountedOneMore(start, runId, prepared, clock, i, duplicates, candidate, promoted, pending);
      if !stored.value {
        duplicates := duplicates + 1;
        continue;
      }
      candidate := candidate + 1;
      if p.status == Promoted { promoted := promoted + 1; } else { pending := pending + 1; }
    }
    PersistAllKeepsValid(start, runId, prepared[..|prepared|], clock);
  }

  lemma CountedOneMore(db: Db, runId: nat, prepared: seq<Prepared>, clock: nat -> int, i: nat,
                       duplicates: nat, candidate: nat, promoted: nat, pending: nat)
    requires i < |prepared| && Counted(db, runId, prepared, clock, i, duplicates, candidate, promoted, pending)
    ensures PersistAll(db, runId, prepared[..i + 1], clock)
            == Persisted(PersistAll(db, runId, prepared[..i], clock), runId, prepared[i], clock(i))
    ensures if prepared[i].key in PersistAll(db, runId, prepared[..i], clock).candidates then
              Counted(db, runId, prepared, clock, i + 1, duplicates + 1, candidate, promoted, pending)
            else if prepared[i].status == Promoted then
              Counted(db, runId, prepared, clock, i + 1, duplicates, candidate + 1, promoted + 1, pending)
            else Counted(db, runId, prepared, clock, i + 1, duplicates, candidate + 1, promoted, pending + 1)
  {
    CreatedOneMore(db, runId, prepared, clock, i);
    hide Persisted, Created, CountPromoted, PersistAll;
  }

  // ---------------------------------------------------------------- the run

  datatype RunInput = RunInput(runId: nat, now: int, clock: nat -> int, generate: Generator)

  function SeedsOf(cfg: Config, records: seq<LogRow>, matrix: seq<Vec>): Option<seq<Seed>> {
    if records == [] then Some([]) else cfg.seedsOf(records, matrix)
  }

  /** The tables before the purge of a completed run. */
  function StoredBy(cfg: Config, run: RunInput, db: Db, seeds: seq<Seed>): Db {
    PersistAll(MergeAll(cfg, db, SeedsKnown(cfg, db, seeds, true)), run.runId,
               Labelled(cfg, run.generate, SeedsKnown(cfg, db, seeds, false)), run.clock)
  }

  /** A completed run from `before`, whose embedding step left the tables as `db`. */
  ghost predicate Completes(cfg: Config, run: RunInput, before: Db, db: Db, seeds: seq<Seed>, after: Db, summary: Summary) {
    var known := SeedsKnown(cfg, db, seeds, true);
    var prepared := Labelled(cfg, run.generate, SeedsKnown(cfg, db, seeds, false));
    var created := Created(MergeAll(cfg, db, known), run.runId, prepared, run.clock);
    && db == before.(cache := db.cache)
    && after == Finalized(StoredBy(cfg, run, db, seeds), run.now - cfg.retention)
    && summary.status == Completed && summary.eligible == |Eligible(cfg, before.logs, run.now)|
    && summary.candidate == |created| && summary.promoted == CountPromoted(created)
    && summary.pending == summary.candidate - summary.promoted
    && summary.duplicate == |known| + (|prepared| - |created|)
    && summary.error == |seeds| - |known| - |prepared|
    && summary.purged == Rows(StoredBy(cfg, run, db, seeds)) - Rows(after)
  }

  /** A run that stops before or in the middle of its persistence, with the counts of what it has done. */
  ghost predicate Stops(cfg: Config, run: RunInput, db: Db, seeds: seq<Seed>, after: Db, summary: Summary) {
    || (&& after == db && summary.candidate == summary.promoted == summary.pending == 0
        && 1 <= summary.error && summary.duplicate + summary.error <= |seeds| + 1)
    || exists m: nat, n: nat :: StopsAt(cfg, run, db, seeds, after, summary, m, n)
  }

  /** It has merged `m` of the known seeds and persisted `n` of the new candidates. */
  ghost predicate StopsAt(cfg: Config, run: RunInput, db: Db, seeds: seq<Seed>, after: Db, summary: Summary, m: nat, n: nat) {
    var known := SeedsKnown(cfg, db, seeds, true);
    var prepared := Labelled(cfg, run.generate, SeedsKnown(cfg, db, seeds, false));
    && m <= |known| && n <= |prepared| && (n > 0 ==> m == |known|)
    && var merged := MergeAll(cfg, db, known[..m]);
       var created := Created(merged, run.runId, prepared[..n], run.clock);
       && after == PersistAll(merged, run.runId, prepared[..n], run.clock)
       && summary.candidate == |created| && summary.promoted == CountPromoted(created)
       && summary.pending == summary.candidate - summary.promoted
       && summary.duplicate == |known| + (n - |created|)
       && summary.error == |seeds| - |known| - |prepared| + 1
  }

  /** What the embedding step of a run has done. */
  ghost predicate Embeds(cfg: Config, prompts: seq<string>, before: seq<CacheRow>, after: seq<CacheRow>, matrix: seq<Vec>, sent: seq<string>) {
    && (IsRoot(cfg.settings.root) ==> Cached(cfg.settings, after, prompts) && MatrixIsCached(cfg.settings, after, prompts, matrix))
    && (Cached(cfg.settings, before, prompts) ==> sent == [] && after == before)
  }

  /** A completed run: the tables before it, after its embedding step and after it, and what happened in between. */
  datatype History = History(
    run: RunInput, before: Db, embedded: Db, after: Db, matrix: seq<Vec>, sent: seq<string>, seeds: seq<Seed>, summary: Summary)

  function RecordsOf(cfg: Config, h: History): seq<LogRow> {
    Eligible(cfg, h.before.logs, h.run.now)
  }

  ghost predicate IsRun(cfg: Config, h: History) {
    && Valid(h.before)
    && Embeds(cfg, PromptsOf(RecordsOf(cfg, h)), h.before.cache, h.embedded.cache, h.matrix, h.sent)
    && SeedsOf(cfg, RecordsOf(cfg, h), h.matrix) == Some(h.seeds)
    && Completes(cfg, h.run, h.before, h.embedded, h.seeds, h.after, h.summary)
    && h.summary.embedded == |h.sent|
  }

  /** A failed run, and the counts it is recorded with. */
  ghost predicate IsFailure(cfg: Config, h: History) {
    && Valid(h.before) && h.embedded == h.before.(cache := h.embedded.cache)
    && h.summary.status == RunStatus.Failed && h.summary.purged == 0
    && h.summary.eligible in {0, |RecordsOf(cfg, h)|} && h.summary.embedded in {0, |h.sent|}
    && Stops(cfg, h.run, h.embedded, h.seeds, h.after, h.summary)
  }

  /** Merges, inserts and purges; returns the counts of the run, partial ones if it fails. */
  method Persist(cfg: Config, run: RunInput, repo: Repository, seeds: seq<Seed>, eligible: nat, embedded: nat, active: nat -> bool, ghost before: Db)
    returns (summary: Summary)
    requires Valid(repo.State())
    requires before == repo.State().(cache := before.cache) && eligible == |Eligible(cfg, before.logs, run.now)|
    modifies repo, repo.table
    ensures Valid(repo.State())
    ensures summary.status in {Completed, RunStatus.Failed} && summary.embedded == embedded && summary.eligible == eligible
    ensures summary.status == Completed ==> Completes(cfg, run, before, old(repo.State()), seeds, repo.State(), summary)
    ensures summary.status == RunStatus.Failed ==>
              Stops(cfg, run, old(repo.State()), seeds, repo.State(), summary) && summary.purged == 0 && Grew(old(repo.State()), repo.State())
    ensures (forall k :: active(k)) ==> summary.status == Completed
  {
    hide *;
    ghost var db := repo.State();
    GrewReflexive(db);
    var ok, merges, prepared, duplicates, errors, tick := BuildCandidates(cfg, repo, seeds, run.generate, active, 10);
    summary := Summary(RunStatus.Failed, eligible, embedded, 0, 0, 0, duplicates, errors + 1, 0);
    if !ok {
      StopsEarly(cfg, run, db, seeds, summary);
      return;
    }
    var merged, next, m := MergeKnown(cfg, repo, merges, active, tick);
    ghost var middle := repo.State();
    if !merged {
      NothingCounted(middle, run.runId, prepared, run.clock);
      StopsBy(cfg, run, db, seeds, repo.State(), summary, merges, prepared, m, 0, 0);
      return;
    }
    assert merges[..m] == merges;
    var stored, more, candidate, promoted, pending, last, n := PersistNew(repo, run.runId, prepared, run.clock, active, next);
    GrewTwice(db, middle, repo.State());
    summary := Summary(RunStatus.Failed, eligible, embedded, candidate, promoted, pending, duplicates + more, errors + 1, 0);
    CountedMeans(middle, run.runId, prepared, run.clock, n, more, candidate, promoted, pending);
    StopsBy(cfg, run, db, seeds, repo.State(), summary, merges, prepared, m, n, more);
    if !stored || !active(last) { return; }
    assert prepared[..n] == prepared;
    ghost var final := repo.State();
    var purged := repo.FinalizeRun(active(last + 1), run.now - cfg.retention);
    if purged.None? { return; }
    FinalizedKeepsValid(final, run.now - cfg.retention);
    summary := Summary(Completed, eligible, embedded, candidate, promoted, pending, duplicates + more, errors, purged.value);
    CompletesBy(cfg, run, before, db, seeds, final, repo.State(), summary, merges, prepared);
  }

  lemma StopsEarly(cfg: Config, run: RunInput, db: Db, seeds: seq<Seed>, summary: Summary)
    requires summary.candidate == summary.promoted == summary.pending == 0
    requires 1 <= summary.error && summary.duplicate + summary.error <= |seeds| + 1
    ensures Stops(cfg, run, db, seeds, db, summary)
  {
    hide StopsAt;
  }

  lemma StopsBy(cfg: Config, run: RunInput, db: Db, seeds: seq<Seed>, after: Db, summary: Summary,
                merges: seq<Seed>, prepared: seq<Prepared>, m: nat, n: nat, more: nat)
    requires merges == SeedsKnown(cfg, db, seeds, true)
    requires prepared == Labelled(cfg, run.generate, SeedsKnown(cfg, db, seeds, false))
    requires m <= |merges| && n <= |prepared| && (n > 0 ==> m == |merges|)
    requires after == PersistAll(MergeAll(cfg, db, merges[..m]), run.runId, prepared[..n], run.clock)
    requires var created := Created(MergeAll(cfg, db, merges[..m]), run.runId, prepared[..n], run.clock);
             && summary.candidate == |created| && summary.promoted == CountPromoted(created)
             && summary.pending == summary.candidate - summary.promoted && more == n - |created|
    requires summary.duplicate == |merges| + more && summary.error == |seeds| - |merges| - |prepared| + 1
    ensures Stops(cfg, run, db, seeds, after, summary)
  {
    hide SeedsKnown, Labelled, PersistAll, MergeAll, Created, CountPromoted;
    assert StopsAt(cfg, run, db, seeds, after, summary, m, n);
  }

  lemma NothingCounted(db: Db, runId: nat, prepared: seq<Prepared>, clock: nat -> int)
    ensures PersistAll(db, runId, prepared[..0], clock) == db
    ensures Created(db, runId, prepared[..0], clock) == [] && CountPromoted([]) == 0
    ensures Counted(db, runId, prepared, clock, 0, 0, 0, 0, 0)
  {
  }

  lemma CountedMeans(db: Db, runId: nat, prepared: seq<Prepared>, clock: nat -> int, n: nat,
                     duplicates: nat, candidate: nat, promoted: nat, pending: nat)
    requires n <= |prepared| && Counted(db, runId, prepared, clock, n, duplicates, candidate, promoted, pending)
    ensures var created := Created(db, runId, prepared[..n], clock);
            candidate == |created| && promoted == CountPromoted(created) && pending == candidate - promoted && duplicates == n - |created|
  {
  }

  lemma CompletesBy(cfg: Config, run: RunInput, before: Db, db: Db, seeds: seq<Seed>, stored: Db, after: Db, summary: Summary,
                    merges: seq<Seed>, prepared: seq<Prepared>)
    requires db == before.(cache := db.cache)
    requires merges == SeedsKnown(cfg, db, seeds, true)
    requires prepared == Labelled(cfg, run.generate, SeedsKnown(cfg, db, seeds, false))
    requires stored == PersistAll(MergeAll(cfg, db, merges), run.runId, prepared, run.clock)
    requires after == Finalized(stored, run.now - cfg.retention) && summary.purged == Rows(stored) - Rows(after)
    requires var created := Created(MergeAll(cfg, db, merges), run.runId, prepared, run.clock);
             && summary.status == Completed && summary.eligible == |Eligible(cfg, before.logs, run.now)|
             && summary.candidate == |created| && summary.promoted == CountPromoted(created)
             && summary.pending == summary.candidate - summary.promoted
             && summary.duplicate == |merges| + (|prepared| - |created|)
             && summary.error == |seeds| - |merges| - |prepared|
    ensures Completes(cfg, run, before, db, seeds, after, summary)
  {
    hide Rows, Finalized, Created, PersistAll, MergeAll, SeedsKnown, Labelled, CountPromoted, Eligible;
  }

  /**
   One run.  `claimed` tells whether the lease was free, and `active` gives the answers of the heartbeat
   and of the fence, in the order in which they are asked.
   */
  method RunPipeline(cfg: Config, run: RunInput, repo: Repository, claimed: bool, active: nat -> bool,
                     ghost embed: string -> Raw, ghost width: nat)
    returns (summary: Summary, sent: seq<string>, ghost history: History)
    requires Valid(repo.State())
    modifies repo, repo.table
    ensures Valid(repo.State())
    ensures summary.status == Skipped <==> !claimed
    ensures !claimed ==> summary == Summary(Skipped, 0, 0, 0, 0, 0, 0, 0, 0) && repo.State() == old(repo.State())
    ensures claimed ==>
              && history.run == run && history.before == old(repo.State()) && history.after == repo.State()
              && history.sent == sent && history.summary == summary
    ensures summary.status == Completed ==> IsRun(cfg, history)
    ensures summary.status == RunStatus.Failed ==> IsFailure(cfg, history) && repo.logs == old(repo.logs)
    ensures claimed && (forall k :: active(k)) && CanComplete(cfg, run, old(repo.State()), embed, width) ==> summary.status == Completed
  {
    hide Valid, Grew, Completes, Stops, Embeds, Sound, Cached, MatrixIsCached, Eligible, SeedsOf, Collision, CacheIsStale, CacheIsComplete;
    hide IsDirect, Select, Distinct, IsNormalFormOf, Prints, IsRoot, CanComplete;
    ghost var before := repo.State();
    GrewReflexive(before);
    sent := [];
    summary := Summary(RunStatus.Failed, 0, 0, 0, 0, 0, 0, 1, 0);
    StopsEarly(cfg, run, before, [], summary);
    history := History(run, before, before, before, [], [], [], summary);
    if !claimed {
      summary := summary.(status := Skipped, error := 0);
      return;
    }
    if !active(0) { return; }
    var records := FetchEligible(cfg, repo.logs, run.now);
    var prompts := PromptsOf(records);
    if CanComplete(cfg, run, before, embed, width) { CanCompleteMeans(cfg, run, before, embed, width); }
    var result, counted;
    result, sent, counted := EmbedRecords(cfg.settings, repo.table, prompts, (k: nat) => active(k + 1), active(7), embed, width);
    ValidIgnoresCache(before, repo.State());
    ghost var db := repo.State();
    summary := summary.(eligible := |records|, embedded := counted);
    StopsEarly(cfg, run, db, [], summary);
    history := History(run, before, db, db, [], sent, [], summary);
    if result.Failed? || !active(8) { return; }
    var seeds := SeedsOf(cfg, records, result.matrix);
    if seeds.None? || !active(9) { return; }
    EmbedsBy(cfg, prompts, before.cache, db.cache, result.matrix, sent);
    summary := Persist(cfg, run, repo, seeds.value, |records|, |sent|, active, before);
    if summary.status != Completed { GrewMeans(db, repo.State()); }
    history := History(run, before, db, repo.State(), result.matrix, sent, seeds.value, summary);
  }

  /** Nothing but the lease can stop such a run: the provider is faithful, no fingerprints collide, the clusterer answers. */
  ghost predicate CanComplete(cfg: Config, run: RunInput, db: Db, embed: string -> Raw, width: nat) {
    var records := Eligible(cfg, db.logs, run.now);
    && Sound(cfg.settings, db.cache, embed, width, PromptsOf(records)) && !Collision(cfg.settings, PromptsOf(records))
    && forall matrix :: SeedsOf(cfg, records, matrix).Some?
  }

  lemma CanCompleteMeans(cfg: Config, run: RunInput, db: Db, embed: string -> Raw, width: nat)
    requires CanComplete(cfg, run, db, embed, width)
    ensures var records := Eligible(cfg, db.logs, run.now);
            && Sound(cfg.settings, db.cache, embed, width, PromptsOf(records)) && !Collision(cfg.settings, PromptsOf(records))
            && forall matrix :: SeedsOf(cfg, records, matrix).Some?
  {
  }

  lemma ValidIgnoresCache(a: Db, b: Db)
    requires Valid(a) && b == a.(cache := b.cache)
    ensures Valid(b)
  {
  }

  lemma GrewMeans(a: Db, b: Db)
    requires Grew(a, b)
    ensures a.logs == b.logs
  {
  }

  lemma EmbedsBy(cfg: Config, prompts: seq<string>, before: seq<CacheRow>, after: seq<CacheRow>, matrix: seq<Vec>, sent: seq<string>)
    requires IsRoot(cfg.settings.root) ==> Cached(cfg.settings, after, prompts) && MatrixIsCached(cfg.settings, after, prompts, matrix)
    requires Cached(cfg.settings, before, prompts) ==> sent == [] && after == before
    ensures Embeds(cfg, prompts, before, after, matrix, sent)
  {
  }
}
