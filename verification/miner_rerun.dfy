/** What completed mining runs count, and what a second run over the same rows does. */
module MinerRerun {
  import opened Common
  import opened EmbeddingCache
  import opened MinerStore
  import opened Miner

  // ------------------------------------------------------------ conservation

  function PromotedKeys(db: Db): set<string> {
    set f | f in db.candidates && db.candidates[f].status == Promoted
  }

  lemma {:induction false} KnownOrNew(cfg: Config, db: Db, seeds: seq<Seed>)
    ensures |SeedsKnown(cfg, db, seeds, true)| + |SeedsKnown(cfg, db, seeds, false)| == |seeds|
  {
    if seeds != [] { KnownOrNew(cfg, db, seeds[..|seeds| - 1]); }
  }

  lemma {:induction false} KnownSubset(cfg: Config, db: Db, seeds: seq<Seed>, known: bool, seed: Seed)
    ensures seed in SeedsKnown(cfg, db, seeds, known) <==> seed in seeds && Known(db, KeyOf(cfg, seed)) == known
  {
    if seeds != [] { KnownSubset(cfg, db, seeds[..|seeds| - 1], known, seed); }
  }

  lemma {:induction false} LabelledAtMost(cfg: Config, generate: Generator, seeds: seq<Seed>)
    ensures |Labelled(cfg, generate, seeds)| <= |seeds|
    ensures |Labelled(cfg, generate, seeds)| == |seeds| ==> forall seed :: seed in seeds ==> generate(seed).Some?
  {
    if seeds != [] { LabelledAtMost(cfg, generate, seeds[..|seeds| - 1]); }
  }

  lemma MergedGrowth(db: Db, key: string, ids: set<string>, tag: Tag)
    requires key in db.candidates
    ensures |Merged(db, key, ids, tag).candidates| == |db.candidates|
    ensures PromotedKeys(Merged(db, key, ids, tag)) == PromotedKeys(db)
  {
    var after := Merged(db, key, ids, tag);
    assert after.candidates.Keys == db.candidates.Keys;
    assert |after.candidates| == |after.candidates.Keys| && |db.candidates| == |db.candidates.Keys|;
  }

  lemma NewRowPromoted(db: Db, after: Db, key: string, row: CandidateRow)
    requires key !in db.candidates && after.candidates == db.candidates[key := row]
    ensures PromotedKeys(after) == PromotedKeys(db) + (if row.status == Promoted then {key} else {})
    ensures key !in PromotedKeys(db)
  {
    forall f ensures f in PromotedKeys(after) <==> f in PromotedKeys(db) || (f == key && row.status == Promoted) {
      if f != key { assert f in after.candidates <==> f in db.candidates; }
    }
  }

  lemma NewRowGrowth(db: Db, after: Db, key: string, row: CandidateRow)
    requires key !in db.candidates && after.candidates == db.candidates[key := row]
    ensures |after.candidates| == |db.candidates| + 1
    ensures |PromotedKeys(after)| == |PromotedKeys(db)| + if row.status == Promoted then 1 else 0
  {
    NewRowPromoted(db, after, key, row);
    hide PromotedKeys;
    if row.status != Promoted { assert PromotedKeys(db) + {} == PromotedKeys(db); }
  }

  lemma PersistedGrowth(db: Db, runId: nat, p: Prepared, now: int)
    requires Valid(db)
    ensures var after := Persisted(db, runId, p, now);
            && |after.candidates| == |db.candidates| + (if p.key in db.candidates then 0 else 1)
            && |PromotedKeys(after)| == |PromotedKeys(db)| + (if p.key !in db.candidates && p.status == Promoted then 1 else 0)
  {
    if p.key in db.candidates {
      MergedGrowth(db, p.key, AllMembers(p), p.tag);
      hide Merged, AllMembers, PromotedKeys, Valid;
    } else {
      CreatesRow(db, runId, p, now);
      var row := CreatedRow(db, runId, p, now);
      assert row.status == p.status;
      hide Persisted, Valid, CreatedRow, PromotedKeys;
      NewRowGrowth(db, Persisted(db, runId, p, now), p.key, row);
    }
  }

  lemma {:induction false} PersistAllGrowth(db: Db, runId: nat, prepared: seq<Prepared>, clock: nat -> int)
    requires Valid(db)
    ensures var after, created := PersistAll(db, runId, prepared, clock), Created(db, runId, prepared, clock);
            && |after.candidates| == |db.candidates| + |created|
            && |PromotedKeys(after)| == |PromotedKeys(db)| + CountPromoted(created)
  {
    if prepared != [] {
      var k: nat := |prepared| - 1;
      assert prepared[..k + 1] == prepared;
      PersistAllGrowth(db, runId, prepared[..k], clock);
      PersistAllKeepsValid(db, runId, prepared[..k], clock);
      PersistedGrowth(PersistAll(db, runId, prepared[..k], clock), runId, prepared[k], clock(k));
      CreatedOneMore(db, runId, prepared, clock, k);
      hide Persisted, PersistAll, Created, CountPromoted, Valid;
    }
  }

  lemma MergeAllPromoted(cfg: Config, db: Db, seeds: seq<Seed>)
    requires Valid(db)
    ensures var after := MergeAll(cfg, db, seeds); |after.candidates| == |db.candidates| && PromotedKeys(after) == PromotedKeys(db)
  {
    MergeAllKeepsValid(cfg, db, seeds);
    var after := MergeAll(cfg, db, seeds);
    assert |after.candidates| == |after.candidates.Keys| && |db.candidates| == |db.candidates.Keys|;
  }

  /** Every seed is counted once, and the counts are what the tables gained before the purge. */
  lemma CountsAddUp(cfg: Config, h: History)
    requires IsRun(cfg, h)
    ensures h.summary.duplicate + h.summary.error + h.summary.candidate == |h.seeds|
    ensures h.summary.candidate == h.summary.promoted + h.summary.pending
    ensures var stored := StoredBy(cfg, h.run, h.embedded, h.seeds);
            && |stored.candidates| == |h.before.candidates| + h.summary.candidate
            && |PromotedKeys(stored)| == |PromotedKeys(h.before)| + h.summary.promoted
  {
    var db := h.embedded;
    ValidIgnoresCache(h.before, db);
    var known := SeedsKnown(cfg, db, h.seeds, true);
    var prepared := Labelled(cfg, h.run.generate, SeedsKnown(cfg, db, h.seeds, false));
    MergeAllKeepsValid(cfg, db, known);
    MergeAllPromoted(cfg, db, known);
    PersistAllGrowth(MergeAll(cfg, db, known), h.run.runId, prepared, h.run.clock);
  }

  /** A failed run is recorded with the counts of what it has done: its candidates are the rows the table gained. */
  lemma FailedCountsAddUp(cfg: Config, h: History)
    requires IsFailure(cfg, h)
    ensures h.summary.candidate == h.summary.promoted + h.summary.pending && h.summary.error >= 1
    ensures h.summary.duplicate + (h.summary.error - 1) + h.summary.candidate <= |h.seeds|
    ensures |h.after.candidates| == |h.before.candidates| + h.summary.candidate
    ensures |PromotedKeys(h.after)| == |PromotedKeys(h.before)| + h.summary.promoted
  {
    FailureMeans(cfg, h);
    hide *;
    StopsAddsUp(cfg, h.run, h.embedded, h.seeds, h.after, h.summary);
  }

  lemma FailureMeans(cfg: Config, h: History)
    requires IsFailure(cfg, h)
    ensures Valid(h.embedded) && Stops(cfg, h.run, h.embedded, h.seeds, h.after, h.summary)
    ensures h.embedded.candidates == h.before.candidates && PromotedKeys(h.embedded) == PromotedKeys(h.before)
  {
    hide Valid, Stops, Eligible;
    ValidIgnoresCache(h.before, h.embedded);
  }

  lemma StopsAddsUp(cfg: Config, run: RunInput, db: Db, seeds: seq<Seed>, after: Db, summary: Summary)
    requires Valid(db) && Stops(cfg, run, db, seeds, after, summary)
    ensures summary.candidate == summary.promoted + summary.pending && summary.error >= 1
    ensures summary.duplicate + (summary.error - 1) + summary.candidate <= |seeds|
    ensures |after.candidates| == |db.candidates| + summary.candidate
    ensures |PromotedKeys(after)| == |PromotedKeys(db)| + summary.promoted
  {
    hide Valid, StopsAt, PromotedKeys;
    if exists m: nat, n: nat :: StopsAt(cfg, run, db, seeds, after, summary, m, n) {
      var m: nat, n: nat :| StopsAt(cfg, run, db, seeds, after, summary, m, n);
      StoppedCountsAddUp(cfg, run, db, seeds, after, summary, m, n);
    }
  }

  lemma StoppedCountsAddUp(cfg: Config, run: RunInput, db: Db, seeds: seq<Seed>, after: Db, summary: Summary, m: nat, n: nat)
    requires Valid(db) && StopsAt(cfg, run, db, seeds, after, summary, m, n)
    ensures summary.candidate == summary.promoted + summary.pending && summary.error >= 1
    ensures summary.duplicate + (summary.error - 1) + summary.candidate <= |seeds|
    ensures |after.candidates| == |db.candidates| + summary.candidate
    ensures |PromotedKeys(after)| == |PromotedKeys(db)| + summary.promoted
  {
    var known := SeedsKnown(cfg, db, seeds, true);
    var prepared := Labelled(cfg, run.generate, SeedsKnown(cfg, db, seeds, false));
    KnownOrNew(cfg, db, seeds);
    LabelledAtMost(cfg, run.generate, SeedsKnown(cfg, db, seeds, false));
    MergeAllKeepsValid(cfg, db, known[..m]);
    MergeAllPromoted(cfg, db, known[..m]);
    PersistAllGrowth(MergeAll(cfg, db, known[..m]), run.runId, prepared[..n], run.clock);
    hide MergeAll, PersistAll, Created, CountPromoted, SeedsKnown, Labelled, Valid, PromotedKeys;
  }

  // ------------------------------------------------------------- last tags

  /** The tag that the last seed of a fingerprint gives, or `d` without such a seed. */
  function LastTag(cfg: Config, seeds: seq<Seed>, key: string, d: Tag): Tag {
    if seeds == [] then d
    else
      var last := seeds[|seeds| - 1];
      if KeyOf(cfg, last) == key then last.tag else LastTag(cfg, seeds[..|seeds| - 1], key, d)
  }

  function LastPreparedTag(prepared: seq<Prepared>, key: string, d: Tag): Tag {
    if prepared == [] then d
    else
      var last := prepared[|prepared| - 1];
      if last.key == key then last.tag else LastPreparedTag(prepared[..|prepared| - 1], key, d)
  }

  lemma {:induction false} LastTagTwice(cfg: Config, seeds: seq<Seed>, key: string, d: Tag)
    ensures LastTag(cfg, seeds, key, LastTag(cfg, seeds, key, d)) == LastTag(cfg, seeds, key, d)
  {
    if seeds != [] && KeyOf(cfg, seeds[|seeds| - 1]) != key { LastTagTwice(cfg, seeds[..|seeds| - 1], key, d); }
  }

  lemma LastTagAppended(cfg: Config, seeds: seq<Seed>, last: Seed, key: string, d: Tag)
    ensures LastTag(cfg, seeds + [last], key, d) == if KeyOf(cfg, last) == key then last.tag else LastTag(cfg, seeds, key, d)
  {
    assert (seeds + [last])[..|seeds|] == seeds;
  }

  lemma LastPreparedTagAppended(prepared: seq<Prepared>, last: Prepared, key: string, d: Tag)
    ensures LastPreparedTag(prepared + [last], key, d) == if last.key == key then last.tag else LastPreparedTag(prepared, key, d)
  {
    assert (prepared + [last])[..|prepared|] == prepared;
  }

  lemma {:induction false} LastTagOfKnown(cfg: Config, db: Db, seeds: seq<Seed>, known: bool, key: string, d: Tag)
    ensures LastTag(cfg, SeedsKnown(cfg, db, seeds, known), key, d)
            == if Known(db, key) == known then LastTag(cfg, seeds, key, d) else d
  {
    hide Known, KeyOf;
    if seeds != [] {
      var front, last := seeds[..|seeds| - 1], seeds[|seeds| - 1];
      LastTagOfKnown(cfg, db, front, known, key, d);
      var kept := SeedsKnown(cfg, db, front, known);
      assert kept + [] == kept;
      LastTagAppended(cfg, kept, last, key, d);
    }
  }

  lemma LabelledLast(cfg: Config, generate: Generator, seeds: seq<Seed>)
    requires seeds != [] && generate(seeds[|seeds| - 1]).Some?
    ensures var last := seeds[|seeds| - 1];
            Labelled(cfg, generate, seeds)
            == Labelled(cfg, generate, seeds[..|seeds| - 1]) + [PreparedOf(cfg, last, generate(last).value)]
  {
    hide PreparedOf;
  }

  lemma {:induction false} LastTagOfLabelled(cfg: Config, generate: Generator, seeds: seq<Seed>, key: string, d: Tag)
    requires forall seed :: seed in seeds ==> generate(seed).Some?
    ensures LastPreparedTag(Labelled(cfg, generate, seeds), key, d) == LastTag(cfg, seeds, key, d)
  {
    hide KeyOf;
    if seeds != [] {
      var front, last := seeds[..|seeds| - 1], seeds[|seeds| - 1];
      assert last in seeds && forall seed :: seed in front ==> seed in seeds;
      LastTagOfLabelled(cfg, generate, front, key, d);
      LabelledLast(cfg, generate, seeds);
      LastPreparedTagAppended(Labelled(cfg, generate, front), PreparedOf(cfg, last, generate(last).value), key, d);
      hide Labelled, LastPreparedTag;
    }
  }

  /** One merge: the tag of the merged candidate and its members change, nothing else. */
  lemma MergeSeedTags(cfg: Config, db: Db, seed: Seed, key: string)
    requires Valid(db) && key in db.candidates
    ensures var after := MergeSeed(cfg, db, seed);
            && key in after.candidates && db.candidates[key].members <= after.candidates[key].members
            && after.candidates[key].tag == (if KeyOf(cfg, seed) == key then seed.tag else db.candidates[key].tag)
            && (KeyOf(cfg, seed) == key ==> Ids(TraceIds(seed.members)) <= after.candidates[key].members)
  {
    hide KeyOf, Ids;
    if KeyOf(cfg, seed) in db.candidates { MergedKeepsValid(db, KeyOf(cfg, seed), Ids(TraceIds(seed.members)), seed.tag); }
  }

  /** A merge sequence leaves each candidate with the tag of its last seed and with the members of all its seeds. */
  lemma {:induction false} MergeAllTags(cfg: Config, db: Db, seeds: seq<Seed>, key: string)
    requires Valid(db) && key in db.candidates
    ensures key in MergeAll(cfg, db, seeds).candidates
    ensures MergeAll(cfg, db, seeds).candidates[key].tag == LastTag(cfg, seeds, key, db.candidates[key].tag)
    ensures HoldsMembers(cfg, MergeAll(cfg, db, seeds), seeds, key)
  {
    hide Valid, KeyOf, Ids, MergeSeed;
    if seeds != [] {
      var front, last := seeds[..|seeds| - 1], seeds[|seeds| - 1];
      MergeAllTags(cfg, db, front, key);
      MergeAllKeepsValid(cfg, db, front);
      MergeSeedTags(cfg, MergeAll(cfg, db, front), last, key);
    }
  }

  /** The candidate of a fingerprint holds the members of all its seeds. */
  ghost predicate HoldsMembers(cfg: Config, db: Db, seeds: seq<Seed>, key: string)
    requires key in db.candidates
  {
    forall i :: 0 <= i < |seeds| && KeyOf(cfg, seeds[i]) == key ==> Ids(TraceIds(seeds[i].members)) <= db.candidates[key].members
  }

  lemma MergedTags(db: Db, key: string, ids: set<string>, tag: Tag)
    requires key in db.candidates
    ensures var after := Merged(db, key, ids, tag);
            && key in after.candidates && after.candidates[key].tag == tag && ids <= after.candidates[key].members
            && after.candidates.Keys == db.candidates.Keys + {key}
            && forall f :: f in db.candidates && f != key ==> after.candidates[f] == db.candidates[f]
  {
  }

  lemma CreatedTags(db: Db, runId: nat, p: Prepared, now: int, after: Db)
    requires after.candidates == db.candidates[p.key := CreatedRow(db, runId, p, now)] && p.key !in db.candidates
    ensures p.key in after.candidates && after.candidates[p.key].tag == p.tag && AllMembers(p) <= after.candidates[p.key].members
    ensures after.candidates.Keys == db.candidates.Keys + {p.key}
    ensures forall f :: f in db.candidates && f != p.key ==> after.candidates[f] == db.candidates[f]
  {
    hide AllMembers;
  }

  lemma PersistedTags(db: Db, runId: nat, p: Prepared, now: int)
    requires Valid(db)
    ensures var after := Persisted(db, runId, p, now);
            && p.key in after.candidates && after.candidates[p.key].tag == p.tag
            && AllMembers(p) <= after.candidates[p.key].members
            && after.candidates.Keys == db.candidates.Keys + {p.key}
            && forall f :: f in db.candidates && f != p.key ==> after.candidates[f] == db.candidates[f]
  {
    hide Valid, AllMembers, Merged, CreatedRow, Inserted, Promote;
    if p.key in db.candidates {
      MergedTags(db, p.key, AllMembers(p), p.tag);
    } else {
      CreatesRow(db, runId, p, now);
      hide Persisted;
      CreatedTags(db, runId, p, now, Persisted(db, runId, p, now));
    }
  }

  /** What a persist sequence leaves of one fingerprint. */
  ghost predicate TagsPersisted(db: Db, prepared: seq<Prepared>, after: Db, key: string)
  {
    && (key in after.candidates <==> key in db.candidates || exists i :: 0 <= i < |prepared| && prepared[i].key == key)
    && (key in db.candidates ==> after.candidates[key].tag == LastPreparedTag(prepared, key, db.candidates[key].tag))
    && (key in after.candidates && key !in db.candidates ==>
          forall d :: after.candidates[key].tag == LastPreparedTag(prepared, key, d))
    && (key in after.candidates ==>
          forall i :: 0 <= i < |prepared| && prepared[i].key == key ==> AllMembers(prepared[i]) <= after.candidates[key].members)
  }

  lemma TagsPersistedOneMore(db: Db, prepared: seq<Prepared>, p: Prepared, before: Db, after: Db, key: string)
    requires TagsPersisted(db, prepared, before, key) && Grew(db, before) && Grew(before, after)
    requires p.key in after.candidates && after.candidates[p.key].tag == p.tag
    requires AllMembers(p) <= after.candidates[p.key].members
    requires after.candidates.Keys == before.candidates.Keys + {p.key}
    requires forall f :: f in before.candidates && f != p.key ==> after.candidates[f] == before.candidates[f]
    ensures TagsPersisted(db, prepared + [p], after, key)
  {
    var more := prepared + [p];
    assert more[|prepared|].key == p.key;
    assert forall i :: 0 <= i < |prepared| ==> more[i] == prepared[i];
    forall d ensures LastPreparedTag(more, key, d) == if p.key == key then p.tag else LastPreparedTag(prepared, key, d) {
      LastPreparedTagAppended(prepared, p, key, d);
    }
    hide LastPreparedTag, AllMembers;
    if key in after.candidates {
      forall i | 0 <= i < |more| && more[i].key == key ensures AllMembers(more[i]) <= after.candidates[key].members {
        if i < |prepared| {
          assert AllMembers(prepared[i]) <= before.candidates[key].members;
        }
      }
    }
  }

  lemma NothingPersisted(db: Db, key: string)
    ensures TagsPersisted(db, [], db, key)
  {
  }

  lemma {:induction false} PersistAllTags(db: Db, runId: nat, prepared: seq<Prepared>, clock: nat -> int, key: string)
    requires Valid(db)
    ensures TagsPersisted(db, prepared, PersistAll(db, runId, prepared, clock), key)
  {
    hide Persisted, Valid, Grew, AllMembers, TagsPersisted;
    if prepared == [] {
      NothingPersisted(db, key);
    } else {
      var k: nat := |prepared| - 1;
      var front, p := prepared[..k], prepared[k];
      PersistAllTags(db, runId, front, clock, key);
      PersistAllKeepsValid(db, runId, front, clock);
      var before := PersistAll(db, runId, front, clock);
      PersistedTags(before, runId, p, clock(k));
      PersistedKeepsValid(before, runId, p, clock(k));
      assert prepared == front + [p];
      TagsPersistedOneMore(db, front, p, before, PersistAll(db, runId, prepared, clock), key);
    }
  }

  // ------------------------------------------------------------- second run

  /** Merging these seeds would change nothing. */
  ghost predicate Settled(cfg: Config, db: Db, seeds: seq<Seed>) {
    forall f :: f in db.candidates ==>
      LastTag(cfg, seeds, f, db.candidates[f].tag) == db.candidates[f].tag && HoldsMembers(cfg, db, seeds, f)
  }

  function Retagged(cfg: Config, candidates: map<string, CandidateRow>, seeds: seq<Seed>): map<string, CandidateRow> {
    map f | f in candidates :: candidates[f].(tag := LastTag(cfg, seeds, f, candidates[f].tag))
  }

  lemma MergedHeldMembers(db: Db, held: Db, key: string, ids: set<string>, tag: Tag)
    requires Valid(db) && held == db.(candidates := held.candidates) && held.candidates.Keys == db.candidates.Keys
    requires key in db.candidates && held.candidates[key] == db.candidates[key].(tag := held.candidates[key].tag)
    requires ids <= db.candidates[key].members
    ensures Merged(held, key, ids, tag) == held.(candidates := held.candidates[key := held.candidates[key].(tag := tag)])
  {
    var c := held.candidates[key];
    assert MembersOf(held, c.id) + ids == c.members;
    assert held.members[c.id := c.members] == held.members;
  }

  lemma RetaggedOneMore(cfg: Config, candidates: map<string, CandidateRow>, front: seq<Seed>, last: Seed)
    ensures var key, before, after := KeyOf(cfg, last), Retagged(cfg, candidates, front), Retagged(cfg, candidates, front + [last]);
            after == if key in candidates then before[key := before[key].(tag := last.tag)] else before
  {
    hide KeyOf, LastTag;
    forall f, d { LastTagAppended(cfg, front, last, f, d); }
  }

  /** Merging one more seed whose members are there already changes its candidate's tag only. */
  lemma MergeHeldSeed(cfg: Config, db: Db, before: Db, front: seq<Seed>, last: Seed)
    requires Valid(db) && before == db.(candidates := Retagged(cfg, db.candidates, front))
    requires KeyOf(cfg, last) in db.candidates ==> Ids(TraceIds(last.members)) <= db.candidates[KeyOf(cfg, last)].members
    ensures MergeSeed(cfg, before, last) == db.(candidates := Retagged(cfg, db.candidates, front + [last]))
  {
    var key := KeyOf(cfg, last);
    RetaggedOneMore(cfg, db.candidates, front, last);
    hide KeyOf, Ids, LastTag, TraceIds;
    if key in db.candidates {
      MergedHeldMembers(db, before, key, Ids(TraceIds(last.members)), last.tag);
      hide Merged, Valid;
    }
  }

  /** Merging members that are there already changes tags only. */
  lemma {:induction false} MergingHeldMembers(cfg: Config, db: Db, seeds: seq<Seed>)
    requires Valid(db) && forall f :: f in db.candidates ==> HoldsMembers(cfg, db, seeds, f)
    ensures MergeAll(cfg, db, seeds) == db.(candidates := Retagged(cfg, db.candidates, seeds))
  {
    hide KeyOf, Ids, MergeSeed, Valid, TraceIds;
    if seeds == [] {
      assert Retagged(cfg, db.candidates, []) == db.candidates;
    } else {
      var front, last := seeds[..|seeds| - 1], seeds[|seeds| - 1];
      assert forall i :: 0 <= i < |front| ==> front[i] == seeds[i];
      MergingHeldMembers(cfg, db, front);
      var key := KeyOf(cfg, last);
      assert key in db.candidates ==> HoldsMembers(cfg, db, seeds, key) && seeds[|seeds| - 1] == last;
      hide Retagged;
      MergeHeldSeed(cfg, db, MergeAll(cfg, db, front), front, last);
      assert seeds == front + [last];
    }
  }

  lemma MergingSettledChangesNothing(cfg: Config, db: Db, seeds: seq<Seed>)
    requires Valid(db) && Settled(cfg, db, seeds)
    ensures MergeAll(cfg, db, seeds) == db
  {
    MergingHeldMembers(cfg, db, seeds);
    assert Retagged(cfg, db.candidates, seeds) == db.candidates;
  }

  lemma {:induction false} LabelledHas(cfg: Config, generate: Generator, seeds: seq<Seed>, seed: Seed) returns (p: Prepared)
    requires seed in seeds && generate(seed).Some?
    ensures p in Labelled(cfg, generate, seeds) && p == PreparedOf(cfg, seed, generate(seed).value)
  {
    hide PreparedOf;
    var front, last := seeds[..|seeds| - 1], seeds[|seeds| - 1];
    if seed == last {
      LabelledLast(cfg, generate, seeds);
      p := PreparedOf(cfg, seed, generate(seed).value);
    } else {
      p := LabelledHas(cfg, generate, front, seed);
    }
  }

  lemma {:induction false} LabelledFrom(cfg: Config, generate: Generator, seeds: seq<Seed>, p: Prepared) returns (seed: Seed)
    requires p in Labelled(cfg, generate, seeds)
    ensures seed in seeds && KeyOf(cfg, seed) == p.key
  {
    hide KeyOf;
    var front, last := seeds[..|seeds| - 1], seeds[|seeds| - 1];
    if p in Labelled(cfg, generate, front) {
      seed := LabelledFrom(cfg, generate, front, p);
    } else {
      seed := last;
    }
  }

  lemma PreparedMembers(cfg: Config, seed: Seed, confidence: real)
    ensures PreparedOf(cfg, seed, confidence).key == KeyOf(cfg, seed)
    ensures Ids(TraceIds(seed.members)) <= AllMembers(PreparedOf(cfg, seed, confidence))
  {
  }

  /** Every new seed could be labelled. */
  ghost predicate AllLabelled(cfg: Config, run: RunInput, db: Db, seeds: seq<Seed>) {
    forall seed :: seed in SeedsKnown(cfg, db, seeds, false) ==> run.generate(seed).Some?
  }

  /** The stages of a run, as far as one fingerprint is concerned. */
  ghost predicate Stages(db: Db, middle: Db, prepared: seq<Prepared>, stored: Db, f: string) {
    && (f in middle.candidates <==> f in db.candidates) && middle.golden == db.golden
    && (forall g :: g in middle.golden ==> g in stored.golden)
    && (f in middle.candidates && f in stored.candidates ==> middle.candidates[f].members <= stored.candidates[f].members)
    && TagsPersisted(middle, prepared, stored, f)
  }

  lemma StagesOf(cfg: Config, run: RunInput, db: Db, seeds: seq<Seed>, f: string)
    requires Valid(db)
    ensures Stages(db, MergeAll(cfg, db, SeedsKnown(cfg, db, seeds, true)),
                   Labelled(cfg, run.generate, SeedsKnown(cfg, db, seeds, false)), StoredBy(cfg, run, db, seeds), f)
  {
    var known, unknown := SeedsKnown(cfg, db, seeds, true), SeedsKnown(cfg, db, seeds, false);
    var middle, prepared := MergeAll(cfg, db, known), Labelled(cfg, run.generate, unknown);
    MergeAllKeepsValid(cfg, db, known);
    PersistAllKeepsValid(middle, run.runId, prepared, run.clock);
    PersistAllTags(middle, run.runId, prepared, run.clock, f);
    hide MergeAll, PersistAll, Labelled, SeedsKnown, TagsPersisted, Valid;
  }

  lemma KnownSeedIsStored(cfg: Config, db: Db, known: seq<Seed>, middle: Db, prepared: seq<Prepared>, stored: Db, seed: Seed)
    requires Stages(db, middle, prepared, stored, KeyOf(cfg, seed)) && Known(db, KeyOf(cfg, seed)) && seed in known
    requires forall i :: 0 <= i < |prepared| ==> prepared[i].key != KeyOf(cfg, seed)
    requires KeyOf(cfg, seed) in middle.candidates ==> HoldsMembers(cfg, middle, known, KeyOf(cfg, seed))
    ensures var f := KeyOf(cfg, seed);
            Known(stored, f) && (f in stored.candidates ==> Ids(TraceIds(seed.members)) <= stored.candidates[f].members)
  {
    hide KeyOf, Ids, LastPreparedTag, AllMembers;
    var j :| 0 <= j < |known| && known[j] == seed;
  }

  lemma NewSeedIsStored(cfg: Config, db: Db, middle: Db, prepared: seq<Prepared>, stored: Db, seed: Seed, p: Prepared)
    requires Stages(db, middle, prepared, stored, KeyOf(cfg, seed))
    requires p in prepared && p.key == KeyOf(cfg, seed) && Ids(TraceIds(seed.members)) <= AllMembers(p)
    ensures var f := KeyOf(cfg, seed);
            Known(stored, f) && (f in stored.candidates ==> Ids(TraceIds(seed.members)) <= stored.candidates[f].members)
  {
    hide KeyOf, Ids, LastPreparedTag, AllMembers;
    var j :| 0 <= j < |prepared| && prepared[j] == p;
  }

  /** The candidate of a seed after the run. */
  lemma SeedIsStored(cfg: Config, run: RunInput, db: Db, seeds: seq<Seed>, seed: Seed)
    requires Valid(db) && AllLabelled(cfg, run, db, seeds) && seed in seeds
    ensures var stored, f := StoredBy(cfg, run, db, seeds), KeyOf(cfg, seed);
            Known(stored, f) && (f in stored.candidates ==> Ids(TraceIds(seed.members)) <= stored.candidates[f].members)
  {
    var f, stored := KeyOf(cfg, seed), StoredBy(cfg, run, db, seeds);
    var known, unknown := SeedsKnown(cfg, db, seeds, true), SeedsKnown(cfg, db, seeds, false);
    var middle, prepared := MergeAll(cfg, db, known), Labelled(cfg, run.generate, unknown);
    StagesOf(cfg, run, db, seeds, f);
    KnownSubset(cfg, db, seeds, true, seed);
    KnownSubset(cfg, db, seeds, false, seed);
    MergeAllKeepsValid(cfg, db, known);
    assert run.generate(seed).Some? || Known(db, f);
    hide *;
    if Known(db, f) {
      NoPreparedIsKnown(cfg, run, db, seeds, f);
      if f in middle.candidates { MergeAllTags(cfg, db, known, f); }
      KnownSeedIsStored(cfg, db, known, middle, prepared, stored, seed);
    } else {
      var p := LabelledHas(cfg, run.generate, unknown, seed);
      PreparedMembers(cfg, seed, run.generate(seed).value);
      NewSeedIsStored(cfg, db, middle, prepared, stored, seed, p);
    }
  }

  /** A fingerprint that was known has no prepared candidate. */
  lemma NoPreparedIsKnown(cfg: Config, run: RunInput, db: Db, seeds: seq<Seed>, f: string)
    requires Known(db, f)
    ensures var prepared := Labelled(cfg, run.generate, SeedsKnown(cfg, db, seeds, false));
            forall i :: 0 <= i < |prepared| ==> prepared[i].key != f
  {
    hide KeyOf;
    var unknown := SeedsKnown(cfg, db, seeds, false);
    var prepared := Labelled(cfg, run.generate, unknown);
    forall i | 0 <= i < |prepared| ensures prepared[i].key != f {
      var seed := LabelledFrom(cfg, run.generate, unknown, prepared[i]);
      KnownSubset(cfg, db, seeds, false, seed);
    }
  }

  lemma StagesTag(db: Db, middle: Db, prepared: seq<Prepared>, stored: Db, f: string)
    requires Stages(db, middle, prepared, stored, f) && f in stored.candidates
    ensures f in middle.candidates ==> stored.candidates[f].tag == LastPreparedTag(prepared, f, middle.candidates[f].tag)
    ensures f !in middle.candidates ==> stored.candidates[f].tag == LastPreparedTag(prepared, f, stored.candidates[f].tag)
    ensures f in middle.candidates <==> f in db.candidates
    ensures Known(db, f) && (forall i :: 0 <= i < |prepared| ==> prepared[i].key != f) ==> f in middle.candidates
    ensures !Known(db, f) ==> f !in middle.candidates
  {
    hide LastPreparedTag, AllMembers;
  }

  /** After a run without labelling errors each candidate carries the tag of its last seed. */
  lemma TagIsStored(cfg: Config, run: RunInput, db: Db, seeds: seq<Seed>, f: string)
    requires Valid(db) && AllLabelled(cfg, run, db, seeds)
    requires f in StoredBy(cfg, run, db, seeds).candidates
    ensures var tag := StoredBy(cfg, run, db, seeds).candidates[f].tag; LastTag(cfg, seeds, f, tag) == tag
  {
    var known, unknown := SeedsKnown(cfg, db, seeds, true), SeedsKnown(cfg, db, seeds, false);
    var middle, prepared, stored := MergeAll(cfg, db, known), Labelled(cfg, run.generate, unknown), StoredBy(cfg, run, db, seeds);
    var tag := stored.candidates[f].tag;
    assert forall seed :: seed in unknown ==> run.generate(seed).Some?;
    StagesOf(cfg, run, db, seeds, f);
    hide *;
    StagesTag(db, middle, prepared, stored, f);
    if Known(db, f) {
      NoPreparedIsKnown(cfg, run, db, seeds, f);
      MergeAllTags(cfg, db, known, f);
      var d, m := db.candidates[f].tag, middle.candidates[f].tag;
      LastTagOfKnown(cfg, db, seeds, true, f, d);
      LastTagOfLabelled(cfg, run.generate, unknown, f, m);
      LastTagOfKnown(cfg, db, seeds, false, f, m);
      LastTagTwice(cfg, seeds, f, d);
    } else {
      LastTagOfLabelled(cfg, run.generate, unknown, f, tag);
      LastTagOfKnown(cfg, db, seeds, false, f, tag);
    }
  }

  lemma SettledAfter(cfg: Config, run: RunInput, db: Db, seeds: seq<Seed>)
    requires Valid(db) && AllLabelled(cfg, run, db, seeds)
    ensures Settled(cfg, StoredBy(cfg, run, db, seeds), seeds)
    ensures forall seed :: seed in seeds ==> Known(StoredBy(cfg, run, db, seeds), KeyOf(cfg, seed))
  {
    hide KeyOf, StoredBy, LastTag, Ids, Valid, Known;
    var stored := StoredBy(cfg, run, db, seeds);
    forall seed | seed in seeds ensures Known(stored, KeyOf(cfg, seed)) { SeedIsStored(cfg, run, db, seeds, seed); }
    forall f | f in stored.candidates
      ensures LastTag(cfg, seeds, f, stored.candidates[f].tag) == stored.candidates[f].tag && HoldsMembers(cfg, stored, seeds, f)
    {
      TagIsStored(cfg, run, db, seeds, f);
      forall i | 0 <= i < |seeds| && KeyOf(cfg, seeds[i]) == f
        ensures Ids(TraceIds(seeds[i].members)) <= stored.candidates[f].members
      {
        SeedIsStored(cfg, run, db, seeds, seeds[i]);
      }
    }
  }

  // ----------------------------------------------------------- main results

  lemma ErrorFreeLabelsAll(cfg: Config, h: History)
    requires IsRun(cfg, h) && h.summary.error == 0
    ensures AllLabelled(cfg, h.run, h.embedded, h.seeds)
  {
    KnownOrNew(cfg, h.embedded, h.seeds);
    LabelledAtMost(cfg, h.run.generate, SeedsKnown(cfg, h.embedded, h.seeds, false));
  }

  ghost predicate AllKnown(cfg: Config, db: Db, seeds: seq<Seed>) {
    forall seed :: seed in seeds ==> Known(db, KeyOf(cfg, seed))
  }

  lemma {:induction false} AllKnownSeeds(cfg: Config, db: Db, seeds: seq<Seed>)
    requires AllKnown(cfg, db, seeds)
    ensures SeedsKnown(cfg, db, seeds, true) == seeds && SeedsKnown(cfg, db, seeds, false) == []
  {
    hide KeyOf, Known;
    if seeds != [] {
      var front, last := seeds[..|seeds| - 1], seeds[|seeds| - 1];
      assert seeds == front + [last];
      assert last in seeds && forall seed :: seed in front ==> seed in seeds;
      AllKnownSeeds(cfg, db, front);
      hide AllKnown;
    }
  }

  lemma SomeUnknownSeed(cfg: Config, db: Db, seeds: seq<Seed>)
    requires !AllKnown(cfg, db, seeds)
    ensures SeedsKnown(cfg, db, seeds, false) != []
  {
    var seed :| seed in seeds && !Known(db, KeyOf(cfg, seed));
    KnownSubset(cfg, db, seeds, false, seed);
  }

  lemma StagesKey(db: Db, middle: Db, prepared: seq<Prepared>, stored: Db, p: Prepared)
    requires Stages(db, middle, prepared, stored, p.key) && p in prepared
    ensures p.key in stored.candidates
  {
    hide LastPreparedTag, AllMembers;
    var j :| 0 <= j < |prepared| && prepared[j] == p;
    assert prepared[j].key == p.key;
  }

  lemma OneKeyMore(a: map<string, CandidateRow>, b: map<string, CandidateRow>, f: string)
    requires a.Keys <= b.Keys && f in b && f !in a
    ensures |b| > |a|
  {
    SubsetIsSmaller(a.Keys + {f}, b.Keys);
    assert |a| == |a.Keys| && |b| == |b.Keys|;
  }

  lemma FirstPreparedIsCreated(cfg: Config, run: RunInput, db: Db, seeds: seq<Seed>)
    requires Valid(db) && Labelled(cfg, run.generate, SeedsKnown(cfg, db, seeds, false)) != []
    ensures |StoredBy(cfg, run, db, seeds).candidates| > |db.candidates|
  {
    var prepared := Labelled(cfg, run.generate, SeedsKnown(cfg, db, seeds, false));
    var middle, stored := MergeAll(cfg, db, SeedsKnown(cfg, db, seeds, true)), StoredBy(cfg, run, db, seeds);
    var f := prepared[0].key;
    StagesOf(cfg, run, db, seeds, f);
    var seed := LabelledFrom(cfg, run.generate, SeedsKnown(cfg, db, seeds, false), prepared[0]);
    KnownSubset(cfg, db, seeds, false, seed);
    assert f !in db.candidates by { hide *; NotKnown(db, KeyOf(cfg, seed)); }
    StoredKeepsKeys(cfg, run, db, seeds);
    hide *;
    StagesKey(db, middle, prepared, stored, prepared[0]);
    OneKeyMore(db.candidates, stored.candidates, f);
  }

  lemma NotKnown(db: Db, key: string)
    requires !Known(db, key)
    ensures key !in db.candidates
  {
  }

  lemma StoredKeepsKeys(cfg: Config, run: RunInput, db: Db, seeds: seq<Seed>)
    requires Valid(db)
    ensures var stored := StoredBy(cfg, run, db, seeds);
            && db.candidates.Keys <= stored.candidates.Keys && stored.logs == db.logs && stored.cache == db.cache
            && Valid(stored) && Grew(db, stored)
  {
    var known, unknown := SeedsKnown(cfg, db, seeds, true), SeedsKnown(cfg, db, seeds, false);
    MergeAllKeepsValid(cfg, db, known);
    PersistAllKeepsValid(MergeAll(cfg, db, known), run.runId, Labelled(cfg, run.generate, unknown), run.clock);
    GrewTwice(db, MergeAll(cfg, db, known), StoredBy(cfg, run, db, seeds));
    hide MergeAll, PersistAll, Labelled, SeedsKnown, Valid;
  }

  /** A run reports every seed as a duplicate exactly when every fingerprint was stored before it. */
  lemma AllDuplicatesIffAllKnown(cfg: Config, h: History)
    requires IsRun(cfg, h)
    ensures h.summary.duplicate == |h.seeds| <==> AllKnown(cfg, h.embedded, h.seeds)
    ensures h.summary.duplicate == |h.seeds| ==> h.summary.candidate == 0 && h.summary.error == 0
  {
    CountsAddUp(cfg, h);
    ValidIgnoresCache(h.before, h.embedded);
    var unknown := SeedsKnown(cfg, h.embedded, h.seeds, false);
    if AllKnown(cfg, h.embedded, h.seeds) {
      AllKnownSeeds(cfg, h.embedded, h.seeds);
    } else {
      SomeUnknownSeed(cfg, h.embedded, h.seeds);
      KnownOrNew(cfg, h.embedded, h.seeds);
      if Labelled(cfg, h.run.generate, unknown) != [] {
        FirstPreparedIsCreated(cfg, h.run, h.embedded, h.seeds);
      }
    }
  }

  /** What a later run over the same rows needs survives the purge: canonical source rows and the seeds' candidates. */
  ghost predicate NothingNeededPurged(cfg: Config, h: History) {
    var cutoff, stored := h.run.now - cfg.retention, StoredBy(cfg, h.run, h.embedded, h.seeds);
    && (forall r :: r in RecordsOf(cfg, h) ==> r.fingerprint == Some(PrintOf(cfg.settings, r.prompt)) && r.createdAt >= cutoff)
    && (forall seed :: seed in h.seeds && KeyOf(cfg, seed) in stored.candidates ==>
          Retained(stored.candidates[KeyOf(cfg, seed)], cutoff))
  }

  /** `later` starts from the tables that `h` left; source rows may have come or gone, but the eligible ones are the same. */
  ghost predicate SameRowsLater(cfg: Config, h: History, later: History) {
    && RecordsOf(cfg, later) == RecordsOf(cfg, h)
    && later.before == h.after.(logs := later.before.logs)
  }

  lemma PurgedCache(cfg: Config, h: History)
    requires IsRun(cfg, h)
    ensures h.after.cache == SourcedCache(h.embedded.cache, RecentLogs(h.before.logs, h.run.now - cfg.retention))
  {
    RunMeans(cfg, h);
    hide IsRun, Valid, StoredBy, SourcedCache, RecentLogs, RetainedCandidates;
    StoredKeepsKeys(cfg, h.run, h.embedded, h.seeds);
  }

  lemma PromptHasSource(cfg: Config, h: History, p: string)
    requires NothingNeededPurged(cfg, h) && p in PromptsOf(RecordsOf(cfg, h))
    ensures HasSource(RecentLogs(h.before.logs, h.run.now - cfg.retention), PrintOf(cfg.settings, p))
  {
    hide Eligible, RecentLogs, PrintOf, StoredBy, KeyOf;
    var records := RecordsOf(cfg, h);
    var i :| 0 <= i < |PromptsOf(records)| && PromptsOf(records)[i] == p;
    var r := records[i];
    assert r in records && r.prompt == p;
    EligibleIn(cfg, h.before.logs, h.run.now, r);
    RecentLogsIn(h.before.logs, h.run.now - cfg.retention, r);
  }

  lemma PurgeKeepsVectors(cfg: Config, h: History, p: string)
    requires IsRun(cfg, h) && NothingNeededPurged(cfg, h) && p in PromptsOf(RecordsOf(cfg, h))
    ensures ValidVector(cfg.settings, h.after.cache, PrintOf(cfg.settings, p))
            == ValidVector(cfg.settings, h.embedded.cache, PrintOf(cfg.settings, p))
  {
    var logs, f := RecentLogs(h.before.logs, h.run.now - cfg.retention), PrintOf(cfg.settings, p);
    PurgedCache(cfg, h);
    PromptHasSource(cfg, h, p);
    hide IsRun, NothingNeededPurged, HasSource, SourcedCache, RecentLogs, PrintOf, Unit, Select;
    SourcedSelect(h.embedded.cache, logs, f, cfg.settings.profile);
  }

  lemma SameVectorsSameMatrix(s: Settings, a: seq<CacheRow>, b: seq<CacheRow>, prompts: seq<string>, matrix: seq<Vec>)
    requires forall p :: p in prompts ==> ValidVector(s, a, PrintOf(s, p)) == ValidVector(s, b, PrintOf(s, p))
    requires Cached(s, a, prompts) && MatrixIsCached(s, a, prompts, matrix)
    ensures Cached(s, b, prompts) && MatrixIsCached(s, b, prompts, matrix)
  {
    hide ValidVector, PrintOf;
    var w: nat :| CachedAtWidth(s, a, w, prompts);
    assert CachedAtWidth(s, b, w, prompts);
  }

  lemma MatrixIsUnique(s: Settings, rows: seq<CacheRow>, prompts: seq<string>, m: seq<Vec>, n: seq<Vec>)
    requires MatrixIsCached(s, rows, prompts, m) && MatrixIsCached(s, rows, prompts, n)
    ensures m == n
  {
    hide ValidVector, PrintOf;
    forall i | 0 <= i < |m| ensures m[i] == n[i] {
      assert Some(m[i]) == ValidVector(s, rows, PrintOf(s, prompts[i]));
    }
  }

  /** The second run finds every vector in the cache, so it sees the same matrix and the same seeds. */
  lemma RerunEmbedsNothing(cfg: Config, h: History, later: History)
    requires IsRoot(cfg.settings.root) && IsRun(cfg, h) && IsRun(cfg, later)
    requires NothingNeededPurged(cfg, h) && SameRowsLater(cfg, h, later)
    ensures later.sent == [] && later.summary.embedded == 0 && later.embedded == later.before
    ensures later.matrix == h.matrix && later.seeds == h.seeds
  {
    var s, prompts := cfg.settings, PromptsOf(RecordsOf(cfg, h));
    forall p | p in prompts ensures ValidVector(s, h.embedded.cache, PrintOf(s, p)) == ValidVector(s, h.after.cache, PrintOf(s, p)) {
      PurgeKeepsVectors(cfg, h, p);
    }
    SameVectorsSameMatrix(s, h.embedded.cache, h.after.cache, prompts, h.matrix);
    MatrixIsUnique(s, h.after.cache, prompts, h.matrix, later.matrix);
  }

  lemma SettledSurvivesPurge(cfg: Config, h: History)
    requires IsRun(cfg, h) && Settled(cfg, StoredBy(cfg, h.run, h.embedded, h.seeds), h.seeds)
    ensures Settled(cfg, h.after, h.seeds)
  {
    hide LastTag, HoldsMembers, StoredBy;
    var stored := StoredBy(cfg, h.run, h.embedded, h.seeds);
    forall f | f in h.after.candidates
      ensures LastTag(cfg, h.seeds, f, h.after.candidates[f].tag) == h.after.candidates[f].tag && HoldsMembers(cfg, h.after, h.seeds, f)
    {
      assert f in stored.candidates && h.after.candidates[f] == stored.candidates[f];
      HoldsMembersOfRow(cfg, stored, h.after, h.seeds, f);
    }
  }

  lemma HoldsMembersOfRow(cfg: Config, a: Db, b: Db, seeds: seq<Seed>, f: string)
    requires f in a.candidates && f in b.candidates && a.candidates[f] == b.candidates[f] && HoldsMembers(cfg, a, seeds, f)
    ensures HoldsMembers(cfg, b, seeds, f)
  {
  }

  /** After the purge each seed's fingerprint is still stored. */
  lemma SeedsSurvivePurge(cfg: Config, h: History, seed: Seed)
    requires IsRun(cfg, h) && NothingNeededPurged(cfg, h) && seed in h.seeds
    requires Known(StoredBy(cfg, h.run, h.embedded, h.seeds), KeyOf(cfg, seed))
    ensures Known(h.after, KeyOf(cfg, seed))
  {
    hide StoredBy, KeyOf, Embeds, Valid, SourcedCache, RecentLogs;
  }

  lemma KnownIgnoresLogs(cfg: Config, a: Db, b: Db, seeds: seq<Seed>)
    requires AllKnown(cfg, a, seeds) && b == a.(logs := b.logs)
    ensures AllKnown(cfg, b, seeds)
  {
    hide KeyOf;
  }

  lemma ErrorFreeIsSettled(cfg: Config, h: History)
    requires IsRun(cfg, h) && h.summary.error == 0 && NothingNeededPurged(cfg, h)
    ensures Settled(cfg, h.after, h.seeds) && AllKnown(cfg, h.after, h.seeds)
  {
    ErrorFreeLabelsAll(cfg, h);
    ValidIgnoresCache(h.before, h.embedded);
    SettledAfter(cfg, h.run, h.embedded, h.seeds);
    hide *;
    SettledSurvivesPurge(cfg, h);
    forall seed | seed in h.seeds ensures Known(h.after, KeyOf(cfg, seed)) { SeedsSurvivePurge(cfg, h, seed); }
    AllKnownIs(cfg, h.after, h.seeds);
  }

  lemma AllKnownIs(cfg: Config, db: Db, seeds: seq<Seed>)
    requires forall seed :: seed in seeds ==> Known(db, KeyOf(cfg, seed))
    ensures AllKnown(cfg, db, seeds)
  {
  }

  /** What a run says of itself, for proofs that do not look into it. */
  lemma RunMeans(cfg: Config, h: History)
    requires IsRun(cfg, h)
    ensures Valid(h.embedded) && h.embedded == h.before.(cache := h.embedded.cache)
    ensures h.after == Finalized(StoredBy(cfg, h.run, h.embedded, h.seeds), h.run.now - cfg.retention)
  {
    hide Valid, Embeds, StoredBy, Finalized, Eligible, SeedsKnown, Labelled, Created, CountPromoted;
    ValidIgnoresCache(h.before, h.embedded);
  }

  /**
   Running again over the same rows, after an error-free run whose purge took nothing that is needed,
   asks the provider nothing, creates nothing, reports every seed as a duplicate and leaves all tables as
   they were up to its own purge.
   */
  lemma RerunIsIdempotent(cfg: Config, h: History, later: History)
    requires IsRoot(cfg.settings.root) && IsRun(cfg, h) && IsRun(cfg, later)
    requires h.summary.error == 0 && NothingNeededPurged(cfg, h) && SameRowsLater(cfg, h, later)
    ensures later.sent == [] && later.summary.embedded == 0
    ensures later.summary.candidate == 0 && later.summary.error == 0 && later.summary.duplicate == |later.seeds|
    ensures later.after == Finalized(later.before, later.run.now - cfg.retention)
  {
    assert later.before == h.after.(logs := later.before.logs);
    RerunEmbedsNothing(cfg, h, later);
    hide *;
    RunMeans(cfg, later);
    ErrorFreeIsSettled(cfg, h);
    KnownIgnoresLogs(cfg, h.after, later.embedded, later.seeds);
    SettledIgnoresLogs(cfg, h.after, later.embedded, later.seeds);
    AllDuplicatesIffAllKnown(cfg, later);
    SettledRunChangesNothing(cfg, later.run, later.embedded, later.seeds);
  }

  lemma SettledIgnoresLogs(cfg: Config, a: Db, b: Db, seeds: seq<Seed>)
    requires Settled(cfg, a, seeds) && b == a.(logs := b.logs)
    ensures Settled(cfg, b, seeds)
  {
    hide LastTag, HoldsMembers;
    forall f | f in b.candidates ensures HoldsMembers(cfg, b, seeds, f) { HoldsMembersOfRow(cfg, a, b, seeds, f); }
  }

  lemma SettledRunChangesNothing(cfg: Config, run: RunInput, db: Db, seeds: seq<Seed>)
    requires Valid(db) && Settled(cfg, db, seeds) && AllKnown(cfg, db, seeds)
    ensures StoredBy(cfg, run, db, seeds) == db
  {
    AllKnownSeeds(cfg, db, seeds);
    MergingSettledChangesNothing(cfg, db, seeds);
  }

  // ---------------------------------------------------------- after a purge

  /** After a run, a stored fingerprint is still known exactly if its candidate is kept or it has a golden case. */
  lemma KnownAfterPurge(cfg: Config, h: History, f: string)
    requires IsRun(cfg, h) && f in StoredBy(cfg, h.run, h.embedded, h.seeds).candidates
    ensures var stored, cutoff := StoredBy(cfg, h.run, h.embedded, h.seeds), h.run.now - cfg.retention;
            Known(h.after, f) <==> Retained(stored.candidates[f], cutoff) || f in stored.golden
  {
    RunMeans(cfg, h);
    hide IsRun, StoredBy, Valid, RecentLogs, SourcedCache, Retained;
  }

  /**
   A later run whose seeds have the fingerprint of a stored candidate, and label it, creates it again exactly if
   the purge has taken that candidate and no golden case has its fingerprint.
   */
  lemma PurgedIsCreatedAgain(cfg: Config, h: History, later: History, seed: Seed)
    requires IsRun(cfg, h) && IsRun(cfg, later) && later.before == h.after.(logs := later.before.logs)
    requires seed in later.seeds && later.run.generate(seed).Some?
    requires KeyOf(cfg, seed) in StoredBy(cfg, h.run, h.embedded, h.seeds).candidates
    ensures var f, stored, cutoff := KeyOf(cfg, seed), StoredBy(cfg, h.run, h.embedded, h.seeds), h.run.now - cfg.retention;
            (!Retained(stored.candidates[f], cutoff) && f !in stored.golden) <==> CreatedBy(cfg, later, f)
    ensures CreatedBy(cfg, later, KeyOf(cfg, seed)) ==> later.summary.candidate > 0
  {
    var f := KeyOf(cfg, seed);
    KnownAfterPurge(cfg, h, f);
    RunMeans(cfg, later);
    CountsAddUp(cfg, later);
    CreatedIffUnknown(cfg, later.run, later.embedded, later.seeds, seed);
    assert Known(later.embedded, f) <==> Known(h.after, f);
    hide IsRun, StoredBy, Valid, KeyOf, Retained, Known;
    if CreatedBy(cfg, later, f) {
      KeysGrew(later.embedded, StoredBy(cfg, later.run, later.embedded, later.seeds), f);
    }
  }

  /** The run has inserted a candidate of this fingerprint. */
  ghost predicate CreatedBy(cfg: Config, h: History, f: string) {
    f !in h.embedded.candidates && f in StoredBy(cfg, h.run, h.embedded, h.seeds).candidates
  }

  lemma KeysGrew(a: Db, b: Db, f: string)
    requires a.candidates.Keys <= b.candidates.Keys && f in b.candidates && f !in a.candidates
    ensures |b.candidates| > |a.candidates|
  {
    OneKeyMore(a.candidates, b.candidates, f);
  }

  lemma CreatedIffUnknown(cfg: Config, run: RunInput, db: Db, seeds: seq<Seed>, seed: Seed)
    requires Valid(db) && seed in seeds && run.generate(seed).Some?
    ensures var f, stored := KeyOf(cfg, seed), StoredBy(cfg, run, db, seeds);
            && (!Known(db, f) <==> f !in db.candidates && f in stored.candidates)
            && db.candidates.Keys <= stored.candidates.Keys
  {
    var f, stored := KeyOf(cfg, seed), StoredBy(cfg, run, db, seeds);
    var middle, prepared := MergeAll(cfg, db, SeedsKnown(cfg, db, seeds, true)), Labelled(cfg, run.generate, SeedsKnown(cfg, db, seeds, false));
    StoredKeepsKeys(cfg, run, db, seeds);
    StagesOf(cfg, run, db, seeds, f);
    KnownSubset(cfg, db, seeds, false, seed);
    hide StoredBy, MergeAll, SeedsKnown, Labelled, Valid, Stages, KeyOf;
    if Known(db, f) {
      NoPreparedIsKnown(cfg, run, db, seeds, f);
      NotPreparedNotStored(db, middle, prepared, stored, f);
    } else {
      var p := LabelledHas(cfg, run.generate, SeedsKnown(cfg, db, seeds, false), seed);
      PreparedMembers(cfg, seed, run.generate(seed).value);
      StagesKey(db, middle, prepared, stored, p);
    }
  }

  lemma NotPreparedNotStored(db: Db, middle: Db, prepared: seq<Prepared>, stored: Db, f: string)
    requires Stages(db, middle, prepared, stored, f) && forall i :: 0 <= i < |prepared| ==> prepared[i].key != f
    ensures f in stored.candidates ==> f in db.candidates
  {
    hide LastPreparedTag, AllMembers;
  }

  // ------------------------------------------- a candidate that comes back

  lemma {:induction false} CreatedAtMost(db: Db, runId: nat, prepared: seq<Prepared>, clock: nat -> int)
    ensures CountPromoted(Created(db, runId, prepared, clock)) <= |Created(db, runId, prepared, clock)| <= |prepared|
  {
    if prepared != [] {
      var k: nat := |prepared| - 1;
      CreatedAtMost(db, runId, prepared[..k], clock);
      var before := Created(db, runId, prepared[..k], clock);
      hide PersistAll;
      assert before + [] == before && (before + [prepared[k]])[..|before|] == before;
    }
  }

  /** From any tables, with any embedding and seeds, there is a completed run. */
  lemma RunFrom(cfg: Config, run: RunInput, before: Db, cache: seq<CacheRow>, matrix: seq<Vec>, sent: seq<string>, seeds: seq<Seed>)
    returns (h: History)
    requires Valid(before) && SeedsOf(cfg, Eligible(cfg, before.logs, run.now), matrix) == Some(seeds)
    requires Embeds(cfg, PromptsOf(Eligible(cfg, before.logs, run.now)), before.cache, cache, matrix, sent)
    ensures IsRun(cfg, h) && h.run == run && h.before == before && h.seeds == seeds && h.embedded == before.(cache := cache)
  {
    var db := before.(cache := cache);
    var known, unknown := SeedsKnown(cfg, db, seeds, true), SeedsKnown(cfg, db, seeds, false);
    var prepared, stored := Labelled(cfg, run.generate, unknown), StoredBy(cfg, run, db, seeds);
    var created := Created(MergeAll(cfg, db, known), run.runId, prepared, run.clock);
    var after := Finalized(stored, run.now - cfg.retention);
    CreatedAtMost(MergeAll(cfg, db, known), run.runId, prepared, run.clock);
    KnownOrNew(cfg, db, seeds);
    LabelledAtMost(cfg, run.generate, unknown);
    PurgeCounts(stored, run.now - cfg.retention);
    hide SeedsKnown, Labelled, StoredBy, Created, CountPromoted, Finalized, Eligible, Valid, Embeds, SeedsOf, MergeAll;
    var summary := Summary(Completed, |Eligible(cfg, before.logs, run.now)|, |sent|, |created|, CountPromoted(created),
                           |created| - CountPromoted(created), |known| + (|prepared| - |created|), |seeds| - |known| - |prepared|,
                           Rows(stored) - Rows(after));
    h := History(run, before, db, after, matrix, sent, seeds, summary);
  }

  const WHOLE := Tag(Some(0), false, None, 1)

  /** Window and retention of ten; whatever is eligible forms one cluster; labels are never confident enough. */
  function OneCluster(root: Root, profile: Profile): Config {
    Config(Settings(root, p => p, p => p, prompts => Some(seq(|prompts|, _ => [Finite(1.0)])), profile), "v",
           (records, _) => Some(if records == [] then [] else [Seed(records[0], records, WHOLE)]), 1.0, 10, 10, 0)
  }

  // A negative answer to one question, and the same a hundred later.
  const EARLY := LogRow("a", "s", "p", Some("p"), None, true, 100)
  const LATE := LogRow("b", "s", "p", Some("p"), None, true, 200)

  predicate Complaint(r: LogRow) {
    r in {EARLY, LATE}
  }

  function SeedOf(r: LogRow): Seed {
    Seed(r, [r], WHOLE)
  }

  lemma ComplaintIsEligible(r: LogRow, start: int, end: int, threshold: int)
    requires Complaint(r)
    ensures IsEligible(r, start, end, threshold) <==> start <= r.createdAt <= end
  {
    assert r.scope == "s" && r.prompt == "p";
    assert r.scope[0] in r.scope && r.prompt[0] in r.prompt;
  }

  lemma FilteredOneMore(logs: seq<LogRow>, r: LogRow, start: int, end: int, threshold: int)
    ensures Filtered(logs + [r], start, end, threshold)
            == Filtered(logs, start, end, threshold) + if IsEligible(r, start, end, threshold) then [r] else []
  {
    hide IsEligible;
    assert (logs + [r])[..|logs|] == logs;
  }

  lemma OneSorted(r: LogRow)
    ensures Sorting.Sort(Earlier, [r]) == [r]
  {
    hide Earlier;
    assert [r][1..] == [];
  }

  /** Only the last of these rows is recent. */
  ghost predicate OneRecent(logs: seq<LogRow>, r: LogRow) {
    logs == [r] || (logs == [EARLY, r] && r == LATE)
  }

  lemma OneEligible(cfg: Config, logs: seq<LogRow>, r: LogRow, now: int)
    requires Complaint(r) && OneRecent(logs, r) && cfg.window == 10 && r.createdAt <= now <= r.createdAt + 10
    ensures Eligible(cfg, logs, now) == [r]
  {
    var start := now - cfg.window;
    ComplaintIsEligible(r, start, now, cfg.threshold);
    ComplaintIsEligible(EARLY, start, now, cfg.threshold);
    hide IsEligible;
    assert [] + [r] == [r] && [] + [EARLY] == [EARLY] && [EARLY] + [r] == [EARLY, r];
    FilteredOneMore([], r, start, now, cfg.threshold);
    FilteredOneMore([], EARLY, start, now, cfg.threshold);
    FilteredOneMore([EARLY], r, start, now, cfg.threshold);
    assert Filtered([], start, now, cfg.threshold) == [];
    hide Filtered, Sorting.Sort, Earlier;
    OneSorted(r);
  }

  /** The embedding step of such a run: the first one asks the provider, the later ones find the vector. */
  lemma OneEmbeds(cfg: Config, before: seq<CacheRow>) returns (sent: seq<string>)
    requires IsRoot(cfg.settings.root) && cfg.settings.normalize("p") == "p" && cfg.settings.hash("p") == "p"
    requires before in {[], [NewRow("p", cfg.settings.profile, [1.0])]}
    ensures Embeds(cfg, ["p"], before, [NewRow("p", cfg.settings.profile, [1.0])], [[1.0]], sent)
  {
    OneRowIsCached(cfg.settings);
    sent := if before == [] then ["p"] else [];
    if before == [] { NothingIsCached(cfg.settings); }
  }

  lemma NothingIsCached(s: Settings)
    ensures !Cached(s, [], ["p"])
  {
    assert Select([], PrintOf(s, "p"), s.profile) == [];
    assert ValidVector(s, [], PrintOf(s, "p")) == None;
    hide ValidVector, PrintOf;
    assert "p" in ["p"];
  }

  /** A run over one complaint, from the given tables. */
  lemma RunOverComplaint(cfg: Config, run: RunInput, before: Db, r: LogRow, root: Root, profile: Profile) returns (h: History)
    requires IsRoot(root) && cfg == OneCluster(root, profile) && Complaint(r) && OneRecent(before.logs, r)
    requires r.createdAt <= run.now <= r.createdAt + 10
    requires Valid(before) && before.cache in {[], [NewRow("p", profile, [1.0])]}
    ensures IsRun(cfg, h) && h.run == run && h.before == before && h.seeds == [SeedOf(r)]
    ensures h.embedded == before.(cache := [NewRow("p", profile, [1.0])]) && RecordsOf(cfg, h) == [r]
  {
    OneEligible(cfg, before.logs, r, run.now);
    hide Valid, Eligible, IsRoot, Embeds, IsRun, OneRecent;
    assert PromptsOf([r]) == ["p"];
    var sent := OneEmbeds(cfg, before.cache);
    h := RunFrom(cfg, run, before, [NewRow("p", profile, [1.0])], [[1.0]], sent, [SeedOf(r)]);
  }

  lemma RecentOneMore(logs: seq<LogRow>, r: LogRow, cutoff: int)
    ensures RecentLogs(logs + [r], cutoff) == RecentLogs(logs, cutoff) + if r.createdAt >= cutoff then [r] else []
  {
    assert (logs + [r])[..|logs|] == logs;
  }

  lemma VectorSurvives(r: LogRow, profile: Profile)
    requires Complaint(r)
    ensures SourcedCache([NewRow("p", profile, [1.0])], [r]) == [NewRow("p", profile, [1.0])]
  {
    assert [NewRow("p", profile, [1.0])][..0] == [];
    assert r in [r];
    assert HasSource([r], "p");
  }

  /** The purge leaves the complaint and its vector. */
  lemma ComplaintSurvives(logs: seq<LogRow>, r: LogRow, cutoff: int, profile: Profile)
    requires Complaint(r) && OneRecent(logs, r) && r.createdAt - 10 <= cutoff <= r.createdAt
    ensures RecentLogs(logs, cutoff) == [r]
    ensures SourcedCache([NewRow("p", profile, [1.0])], [r]) == [NewRow("p", profile, [1.0])]
  {
    VectorSurvives(r, profile);
    assert RecentLogs([], cutoff) == [];
    hide RecentLogs, SourcedCache;
    assert [] + [r] == [r] && [] + [EARLY] == [EARLY] && [EARLY] + [r] == [EARLY, r];
    RecentOneMore([], r, cutoff);
    RecentOneMore([], EARLY, cutoff);
    RecentOneMore([EARLY], r, cutoff);
  }

  /** The candidate of the question, unreviewed since 100, and no golden case. */
  ghost predicate Waiting(cfg: Config, db: Db) {
    var f := KeyOf(cfg, SeedOf(LATE));
    && Valid(db) && db.golden == map[]
    && f in db.candidates && db.candidates[f].status == PendingReview && db.candidates[f].createdAt == 100
  }

  lemma WaitingIsNotRetained(cfg: Config, db: Db)
    requires Waiting(cfg, db)
    ensures var f := KeyOf(cfg, SeedOf(LATE)); f in db.candidates && !Retained(db.candidates[f], 190) && f !in db.golden
  {
    hide KeyOf, Valid;
  }

  lemma OneKey(cfg: Config)
    requires cfg.settings.normalize("p") == "p"
    ensures KeyOf(cfg, SeedOf(EARLY)) == KeyOf(cfg, SeedOf(LATE))
  {
  }

  lemma OneSeedOfEmpty(cfg: Config, db: Db, seed: Seed, generate: Generator)
    requires !Known(db, KeyOf(cfg, seed)) && generate(seed) == Some(0.5)
    ensures SeedsKnown(cfg, db, [seed], true) == [] && SeedsKnown(cfg, db, [seed], false) == [seed]
    ensures Labelled(cfg, generate, [seed]) == [PreparedOf(cfg, seed, 0.5)]
  {
    hide KeyOf, PreparedOf, Known;
    assert [seed][..0] == [];
  }

  /** The first run inserts the candidate. */
  lemma FirstRunStores(cfg: Config, run: RunInput, db: Db)
    requires Valid(db) && db.candidates == map[] && db.golden == map[] && cfg.promotion == 1.0 && cfg.settings.normalize("p") == "p"
    requires run.clock(0) == 100 && run.generate(SeedOf(EARLY)) == Some(0.5)
    ensures Waiting(cfg, StoredBy(cfg, run, db, [SeedOf(EARLY)]))
    ensures StoredBy(cfg, run, db, [SeedOf(EARLY)]).logs == db.logs && StoredBy(cfg, run, db, [SeedOf(EARLY)]).cache == db.cache
  {
    var seed := SeedOf(EARLY);
    var p := PreparedOf(cfg, seed, 0.5);
    assert p.key == KeyOf(cfg, seed) && p.status == PendingReview;
    assert !Known(db, KeyOf(cfg, seed));
    OneKey(cfg);
    OneSeedOfEmpty(cfg, db, seed, run.generate);
    CreatesRow(db, run.runId, p, 100);
    CreatedKeepsValid(db, run.runId, p, 100, Persisted(db, run.runId, p, 100));
    assert CreatedRow(db, run.runId, p, 100).status == PendingReview && CreatedRow(db, run.runId, p, 100).createdAt == 100;
    hide KeyOf, PreparedOf, Known, Persisted, CreatedRow, SeedsKnown, Labelled, Valid;
    assert [p][..0] == [] && PersistAll(db, run.runId, [], run.clock) == db;
    assert MergeAll(cfg, db, []) == db;
    assert PersistAll(db, run.runId, [p], run.clock) == Persisted(db, run.runId, p, run.clock(0));
  }

  /** A purge with a cutoff up to 100 keeps it. */
  lemma WaitingIsKept(cfg: Config, db: Db, cutoff: int)
    requires Waiting(cfg, db) && cutoff <= 100
    ensures Waiting(cfg, Finalized(db, cutoff))
  {
    FinalizedKeepsValid(db, cutoff);
    hide KeyOf, Valid, RecentLogs, SourcedCache;
  }

  lemma WaitingIgnoresLogs(cfg: Config, a: Db, b: Db)
    requires Waiting(cfg, a) && b == a.(logs := b.logs, cache := b.cache)
    ensures Waiting(cfg, b)
  {
    hide KeyOf;
  }

  /** A later run merges the new complaint into the candidate. */
  lemma WaitingIsMerged(cfg: Config, run: RunInput, db: Db)
    requires Waiting(cfg, db)
    ensures Known(db, KeyOf(cfg, SeedOf(LATE)))
    ensures var stored := StoredBy(cfg, run, db, [SeedOf(LATE)]);
            Waiting(cfg, stored) && stored.logs == db.logs && stored.cache == db.cache
  {
    var f, seed := KeyOf(cfg, SeedOf(LATE)), SeedOf(LATE);
    assert Known(db, f);
    hide KeyOf;
    AllKnownSeeds(cfg, db, [seed]);
    MergeAllKeepsValid(cfg, db, [seed]);
    hide Valid, MergeAll, SeedsKnown;
  }

  /** From empty tables and one complaint, the candidate that the first run leaves. */
  lemma FirstRun(root: Root, profile: Profile) returns (cfg: Config, first: History)
    requires IsRoot(root)
    ensures cfg == OneCluster(root, profile) && cfg.retention == 10 && IsRun(cfg, first) && first.seeds == [SeedOf(EARLY)]
    ensures first.before == Db([EARLY], map[], map[], map[], [], 0)
    ensures Waiting(cfg, first.after) && first.after.logs == [EARLY] && first.after.cache == [NewRow("p", profile, [1.0])]
  {
    cfg := OneCluster(root, profile);
    var before := Db([EARLY], map[], map[], map[], [], 0);
    assert Valid(before);
    first := RunOverComplaint(cfg, RunInput(1, 100, _ => 100, _ => Some(0.5)), before, EARLY, root, profile);
    hide IsRun, Eligible, IsRoot;
    RunMeans(cfg, first);
    FirstRunStores(cfg, first.run, first.embedded);
    var stored := StoredBy(cfg, first.run, first.embedded, first.seeds);
    hide StoredBy, Valid, Waiting, RecentLogs, SourcedCache;
    WaitingIsKept(cfg, stored, 90);
    ComplaintSurvives([EARLY], EARLY, 90, profile);
  }

  /** The second run reports a duplicate and purges the candidate. */
  lemma SecondRun(cfg: Config, before: Db, root: Root, profile: Profile) returns (h: History)
    requires IsRoot(root) && cfg == OneCluster(root, profile) && Waiting(cfg, before) && before.logs == [EARLY, LATE]
    requires before.cache == [NewRow("p", profile, [1.0])]
    ensures IsRun(cfg, h) && h.before == before && h.seeds == [SeedOf(LATE)] && RecordsOf(cfg, h) == [LATE]
    ensures h.run.now == 200 && Known(h.embedded, KeyOf(cfg, SeedOf(LATE)))
    ensures Waiting(cfg, StoredBy(cfg, h.run, h.embedded, h.seeds))
    ensures Valid(h.after) && h.after.logs == [LATE] && h.after.cache == before.cache
  {
    h := RunOverComplaint(cfg, RunInput(2, 200, _ => 200, _ => Some(0.5)), before, LATE, root, profile);
    hide IsRun, Eligible, IsRoot;
    RunMeans(cfg, h);
    WaitingIgnoresLogs(cfg, before, h.embedded);
    WaitingIsMerged(cfg, h.run, h.embedded);
    var stored := StoredBy(cfg, h.run, h.embedded, h.seeds);
    assert Valid(stored);
    hide StoredBy, Valid, Waiting, RecentLogs, SourcedCache, KeyOf;
    FinalizedKeepsValid(stored, 190);
    ComplaintSurvives([EARLY, LATE], LATE, 190, profile);
  }

  /** The third run sees the row that the second one has seen, and can label its seed. */
  lemma ThirdRun(cfg: Config, before: Db, root: Root, profile: Profile) returns (h: History)
    requires IsRoot(root) && cfg == OneCluster(root, profile) && Valid(before) && before.logs == [LATE]
    requires before.cache == [NewRow("p", profile, [1.0])]
    ensures IsRun(cfg, h) && h.before == before && h.seeds == [SeedOf(LATE)] && RecordsOf(cfg, h) == [LATE]
    ensures h.run.generate(SeedOf(LATE)).Some?
  {
    h := RunOverComplaint(cfg, RunInput(3, 201, _ => 201, _ => Some(0.5)), before, LATE, root, profile);
    hide IsRun, Eligible, IsRoot, Valid;
  }

  /**
   The promise that a second run over the same rows creates nothing fails once a purge comes in between.  From empty
   tables: the run at 100 creates a candidate, which nobody reviews; the run at 200 reports the same question as a
   duplicate and purges that candidate; the run at 201, over the same row as that one, creates it again.
   */
  lemma PurgedCandidateComesBack(root: Root, profile: Profile) returns (cfg: Config, first: History, h: History, later: History)
    requires IsRoot(root)
    ensures IsRun(cfg, first) && IsRun(cfg, h) && IsRun(cfg, later)
    ensures first.before == Db([EARLY], map[], map[], map[], [], 0)
    ensures h.before == first.after.(logs := first.after.logs + [LATE]) && later.before == h.after
    ensures RecordsOf(cfg, later) == RecordsOf(cfg, h) && later.seeds == h.seeds
    ensures h.summary.error == 0 && h.summary.duplicate == |h.seeds| == 1
    ensures later.summary.candidate > 0
  {
    hide *;
    cfg, first := FirstRun(root, profile);
    var before := first.after.(logs := first.after.logs + [LATE]);
    assert before.logs == [EARLY, LATE];
    WaitingIgnoresLogs(cfg, first.after, before);
    h := SecondRun(cfg, before, root, profile);
    later := ThirdRun(cfg, h.after, root, profile);
    WaitingIsNotRetained(cfg, StoredBy(cfg, h.run, h.embedded, h.seeds));
    AllKnownIs(cfg, h.embedded, h.seeds);
    AllDuplicatesIffAllKnown(cfg, h);
    PurgedIsCreatedAgain(cfg, h, later, SeedOf(LATE));
  }
}
