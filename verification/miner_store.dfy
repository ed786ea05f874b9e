/** The tables that a mining run writes, and the transactions on them. */
module MinerStore {
  import opened Common
  import opened EmbeddingCache

  datatype LogRow = LogRow(
    traceId: string, scope: string, prompt: string, fingerprint: Option<string>,
    minScore: Option<int>, negative: bool, createdAt: int)

  /** What a run says about a cluster: its label, whether it is noise, its outlier score, its number of examples. */
  datatype Tag = Tag(cluster: Option<int>, noise: bool, score: Option<real>, examples: nat)

  datatype Status = Promoted | PendingReview

  /** `memberCount` and `tag` are the provenance keys that a merge rewrites. */
  datatype CandidateRow = CandidateRow(
    id: nat, runId: nat, scope: string, userInput: string, representative: string,
    members: set<string>, memberCount: nat, tag: Tag, status: Status, goldenCase: Option<nat>, createdAt: int)

  /** A labelled seed that is not stored yet. */
  datatype Prepared = Prepared(
    key: string, scope: string, userInput: string, representative: string, members: seq<string>, tag: Tag, status: Status)

  /** Candidates and golden cases are unique by source fingerprint; the member table is keyed by candidate id. */
  datatype Db = Db(
    logs: seq<LogRow>, candidates: map<string, CandidateRow>, members: map<nat, set<string>>,
    golden: map<string, nat>, cache: seq<CacheRow>, nextId: nat)

  function MembersOf(db: Db, id: nat): set<string> {
    if id in db.members then db.members[id] else {}
  }

  predicate Known(db: Db, key: string) {
    key in db.candidates || key in db.golden
  }

  /** Ids are unique and the listing of a candidate is its part of the member table. */
  ghost predicate Valid(db: Db) {
    && (forall f :: f in db.candidates ==> db.candidates[f].id < db.nextId)
    && (forall f, g :: f in db.candidates && g in db.candidates && f != g ==> db.candidates[f].id != db.candidates[g].id)
    && (forall f :: f in db.candidates ==>
          var c := db.candidates[f]; c.id in db.members && c.members == MembersOf(db, c.id) && c.memberCount == |c.members|)
    && (forall id :: id in db.members ==> id < db.nextId)
    && (forall f :: f in db.candidates && db.candidates[f].status == Promoted ==>
          f in db.golden && db.candidates[f].goldenCase == Some(db.golden[f]))
  }

  function Ids(s: seq<string>): set<string> {
    set x | x in s
  }

  // ----------------------------------------------------------- transactions

  function Merged(db: Db, key: string, ids: set<string>, tag: Tag): Db
    requires key in db.candidates
  {
    var c := db.candidates[key];
    var m := MembersOf(db, c.id) + ids;
    db.(members := db.members[c.id := m],
        candidates := db.candidates[key := c.(members := m, memberCount := |m|, tag := tag)])
  }

  function Inserted(db: Db, runId: nat, p: Prepared, now: int): Db {
    var row := CandidateRow(db.nextId, runId, p.scope, p.userInput, p.representative, Ids(p.members), |p.members|, p.tag,
                            p.status, None, now);
    db.(candidates := db.candidates[p.key := row], nextId := db.nextId + 1)
  }

  /** The golden case of a promoted candidate: the one of its fingerprint, created if need be. */
  function Promote(db: Db, key: string): Db
    requires key in db.candidates
  {
    var golden := if key in db.golden then db.golden else db.golden[key := db.nextId];
    db.(golden := golden, nextId := db.nextId + 1,
        candidates := db.candidates[key := db.candidates[key].(goldenCase := Some(golden[key]))])
  }

  function AllMembers(p: Prepared): set<string> {
    {p.representative} + Ids(p.members)
  }

  function Persisted(db: Db, runId: nat, p: Prepared, now: int): Db {
    if p.key in db.candidates then Merged(db, p.key, AllMembers(p), p.tag)
    else
      var merged := Merged(Inserted(db, runId, p, now), p.key, AllMembers(p), p.tag);
      if p.status == Promoted then Promote(merged, p.key) else merged
  }

  predicate Retained(c: CandidateRow, cutoff: int) {
    c.status == Promoted || c.createdAt >= cutoff
  }

  function RecentLogs(logs: seq<LogRow>, cutoff: int): seq<LogRow> {
    if logs == [] then []
    else
      var last := logs[|logs| - 1];
      RecentLogs(logs[..|logs| - 1], cutoff) + if last.createdAt >= cutoff then [last] else []
  }

  predicate HasSource(logs: seq<LogRow>, fingerprint: string) {
    exists r :: r in logs && r.fingerprint == Some(fingerprint)
  }

  function SourcedCache(cache: seq<CacheRow>, logs: seq<LogRow>): seq<CacheRow> {
    if cache == [] then []
    else
      var last := cache[|cache| - 1];
      SourcedCache(cache[..|cache| - 1], logs) + if HasSource(logs, last.fingerprint) then [last] else []
  }

  function RetainedCandidates(candidates: map<string, CandidateRow>, cutoff: int): map<string, CandidateRow> {
    map f | f in candidates && Retained(candidates[f], cutoff) :: candidates[f]
  }

  /** Old source rows, old unreviewed candidates with their members, and cache rows without a source go. */
  function Finalized(db: Db, cutoff: int): Db {
    var logs := RecentLogs(db.logs, cutoff);
    var gone := set f | f in db.candidates && !Retained(db.candidates[f], cutoff) :: db.candidates[f].id;
    db.(logs := logs, candidates := RetainedCandidates(db.candidates, cutoff), members := db.members - gone,
        cache := SourcedCache(db.cache, logs))
  }

  /** What a purge counts: source rows, candidates and cached vectors. */
  function Rows(db: Db): nat {
    |db.logs| + |db.candidates| + |db.cache|
  }

  class Repository {
    const table: Table
    var logs: seq<LogRow>
    var candidates: map<string, CandidateRow>
    var members: map<nat, set<string>>
    var golden: map<string, nat>
    var nextId: nat

    ghost function State(): Db
      reads this, table
    {
      Db(logs, candidates, members, golden, table.rows, nextId)
    }

    constructor (table: Table)
      ensures this.table == table && State() == Db([], map[], map[], map[], table.rows, 0) && Valid(State())
    {
      this.table := table;
      logs, candidates, members, golden, nextId := [], map[], map[], map[], 0;
    }

    method SourceFingerprintExists(key: string) returns (known: bool)
      ensures known == Known(State(), key)
    {
      known := key in candidates || key in golden;
    }

    /** Inserts the members that are missing, one at a time. */
    method InsertMembers(id: nat, ids: seq<string>)
      modifies this`members
      ensures members == old(members)[id := old(MembersOf(State(), id)) + Ids(ids)]
    {
      var present := if id in members then members[id] else {};
      ghost var start := present;
      members := members[id := present];
      for i := 0 to |ids|
        modifies this`members
        invariant members == old(members)[id := present]
        invariant present == start + Ids(ids[..i])
      {
        assert ids[..i + 1] == ids[..i] + [ids[i]];
        if ids[i] !in present {
          present := present + {ids[i]};
          members := members[id := present];
        }
      }
      assert ids[..|ids|] == ids;
    }

    /** Inserts the missing members, then rewrites the candidate's listing and provenance from the table. */
    method MergeMembersOnConnection(key: string, ids: seq<string>, tag: Tag)
      requires key in candidates
      modifies this`candidates, this`members
      ensures State() == Merged(old(State()), key, Ids(ids), tag)
    {
      var id := candidates[key].id;
      InsertMembers(id, ids);
      var all := members[id];
      candidates := candidates[key := candidates[key].(members := all, memberCount := |all|, tag := tag)];
    }

    /** Adds members to a known candidate; `None` when the claim is lost, `Some(false)` without such a candidate. */
    method MergeCandidateMembers(claimHeld: bool, key: string, ids: seq<string>, tag: Tag) returns (merged: Option<bool>)
      modifies this`candidates, this`members
      ensures merged == if claimHeld then Some(key in old(candidates)) else None
      ensures State() == if merged == Some(true) then Merged(old(State()), key, Ids(ids), tag) else old(State())
    {
      if !claimHeld { return None; }
      if key !in candidates { return Some(false); }
      MergeMembersOnConnection(key, ids, tag);
      merged := Some(true);
    }

    method InsertCandidate(runId: nat, p: Prepared, now: int)
      modifies this`candidates, this`nextId
      ensures State() == Inserted(old(State()), runId, p, now)
    {
      candidates := candidates[p.key := CandidateRow(nextId, runId, p.scope, p.userInput, p.representative,
                                                     Ids(p.members), |p.members|, p.tag, p.status, None, now)];
      nextId := nextId + 1;
    }

    method PromoteCandidate(key: string)
      requires key in candidates
      modifies this`candidates, this`golden, this`nextId
      ensures State() == Promote(old(State()), key)
    {
      if key !in golden { golden := golden[key := nextId]; }
      nextId := nextId + 1;
      candidates := candidates[key := candidates[key].(goldenCase := Some(golden[key]))];
    }

    /** Inserts a candidate, or merges into the one of the same fingerprint; a promoted one gets a golden case. */
    method PersistCandidate(claimHeld: bool, runId: nat, p: Prepared, now: int) returns (created: Option<bool>)
      modifies this`candidates, this`members, this`golden, this`nextId
      ensures created == if claimHeld then Some(p.key !in old(State()).candidates) else None
      ensures State() == if claimHeld then Persisted(old(State()), runId, p, now) else old(State())
    {
      if !claimHeld { return None; }
      var ids := [p.representative] + p.members;
      assert Ids(ids) == AllMembers(p);
      if p.key in candidates {
        MergeMembersOnConnection(p.key, ids, p.tag);
        return Some(false);
      }
      InsertCandidate(runId, p, now);
      MergeMembersOnConnection(p.key, ids, p.tag);
      if p.status == Promoted {
        PromoteCandidate(p.key);
      }
      created := Some(true);
    }

    method FinalizeRun(claimHeld: bool, cutoff: int) returns (purged: Option<nat>)
      modifies this`logs, this`candidates, this`members, table
      ensures purged.Some? <==> claimHeld
      ensures State() == if claimHeld then Finalized(old(State()), cutoff) else old(State())
      ensures claimHeld ==> Some(Rows(old(State())) - Rows(State())) == purged
    {
      if !claimHeld { return None; }
      var logCount, candidateCount, cacheCount := |logs|, |candidates|, |table.rows|;
      PurgeCounts(State(), cutoff);
      logs := RecentLogs(logs, cutoff);
      var gone := set f | f in candidates && !Retained(candidates[f], cutoff) :: candidates[f].id;
      candidates := RetainedCandidates(candidates, cutoff);
      members := members - gone;
      table.rows := SourcedCache(table.rows, logs);
      purged := Some((logCount - |logs|) + (candidateCount - |candidates|) + (cacheCount - |table.rows|));
    }
  }

  lemma {:induction false} RecentLogsIn(logs: seq<LogRow>, cutoff: int, r: LogRow)
    ensures |RecentLogs(logs, cutoff)| <= |logs|
    ensures r in RecentLogs(logs, cutoff) <==> r in logs && r.createdAt >= cutoff
  {
    if logs != [] { RecentLogsIn(logs[..|logs| - 1], cutoff, r); }
  }

  lemma {:induction false} SourcedCacheShorter(cache: seq<CacheRow>, logs: seq<LogRow>)
    ensures |SourcedCache(cache, logs)| <= |cache|
  {
    if cache != [] { SourcedCacheShorter(cache[..|cache| - 1], logs); }
  }

  lemma PurgeCounts(db: Db, cutoff: int)
    ensures var after := Finalized(db, cutoff);
            |after.logs| <= |db.logs| && |after.candidates| <= |db.candidates| && |after.cache| <= |db.cache|
  {
    if db.logs != [] { RecentLogsIn(db.logs, cutoff, db.logs[0]); }
    SourcedCacheShorter(db.cache, RecentLogs(db.logs, cutoff));
    var kept := RetainedCandidates(db.candidates, cutoff);
    assert kept.Keys <= db.candidates.Keys;
    SubsetIsSmaller(kept.Keys, db.candidates.Keys);
    assert |kept| == |kept.Keys| && |db.candidates| == |db.candidates.Keys|;
  }

  // ----------------------------------------------------- what they all keep

  /** Nothing that was stored about a candidate is lost, except the tag, which the last merge decides. */
  ghost predicate Grew(before: Db, after: Db) {
    && (forall f :: f in before.candidates ==>
          && f in after.candidates
          && before.candidates[f].members <= after.candidates[f].members
          && SameIdentity(before.candidates[f], after.candidates[f]))
    && (forall f :: f in before.golden ==> f in after.golden && after.golden[f] == before.golden[f])
    && before.logs == after.logs && before.nextId <= after.nextId && before.cache == after.cache
  }

  predicate SameIdentity(a: CandidateRow, b: CandidateRow) {
    && a.id == b.id && a.runId == b.runId && a.scope == b.scope && a.userInput == b.userInput
    && a.representative == b.representative && a.status == b.status && a.goldenCase == b.goldenCase
    && a.createdAt == b.createdAt
  }

  /** The row of a fingerprint is what the member table says. */
  ghost predicate Listed(db: Db, f: string)
    requires f in db.candidates
  {
    var c := db.candidates[f];
    c.id in db.members && c.members == MembersOf(db, c.id) && c.memberCount == |c.members|
  }

  lemma MergedListed(db: Db, key: string, ids: set<string>, tag: Tag, f: string)
    requires key in db.candidates && f in db.candidates && Listed(db, f)
    requires f != key ==> db.candidates[f].id != db.candidates[key].id
    ensures Listed(Merged(db, key, ids, tag), f)
  {
  }

  lemma MergedKeepsIdentity(db: Db, key: string, ids: set<string>, tag: Tag)
    requires key in db.candidates
    ensures var after := Merged(db, key, ids, tag);
            && after.candidates.Keys == db.candidates.Keys && after.golden == db.golden && after.nextId == db.nextId
            && (forall f :: f in db.candidates ==> SameIdentity(db.candidates[f], after.candidates[f]))
            && forall id :: id in after.members ==> id in db.members || id == db.candidates[key].id
  {
  }

  lemma ValidIsListed(db: Db)
    requires Valid(db)
    ensures forall f :: f in db.candidates ==> Listed(db, f)
  {
  }

  lemma MergedKeepsListed(db: Db, key: string, ids: set<string>, tag: Tag)
    requires Valid(db) && key in db.candidates
    ensures forall f :: f in Merged(db, key, ids, tag).candidates ==> Listed(Merged(db, key, ids, tag), f)
  {
    ValidIsListed(db);
    MergedKeepsIdentity(db, key, ids, tag);
    hide Listed, Merged, SameIdentity;
    forall f | f in db.candidates ensures Listed(Merged(db, key, ids, tag), f) {
      assert f != key ==> db.candidates[f].id != db.candidates[key].id;
      MergedListed(db, key, ids, tag, f);
    }
  }

  lemma MergedKeepsValid(db: Db, key: string, ids: set<string>, tag: Tag)
    requires Valid(db) && key in db.candidates
    ensures Valid(Merged(db, key, ids, tag)) && Grew(db, Merged(db, key, ids, tag))
  {
    ValidIsListed(db);
    MergedKeepsListed(db, key, ids, tag);
    MergedKeepsIdentity(db, key, ids, tag);
    MergedGrows(db, key, ids, tag);
    hide Listed, Grew, Merged;
    ValidFromListed(Merged(db, key, ids, tag));
  }

  lemma MergedGrows(db: Db, key: string, ids: set<string>, tag: Tag)
    requires key in db.candidates && Listed(db, key)
    ensures Grew(db, Merged(db, key, ids, tag))
  {
  }

  lemma ValidFromListed(db: Db)
    requires forall f :: f in db.candidates ==> db.candidates[f].id < db.nextId
    requires forall f, g :: f in db.candidates && g in db.candidates && f != g ==> db.candidates[f].id != db.candidates[g].id
    requires forall f :: f in db.candidates ==> Listed(db, f)
    requires forall id :: id in db.members ==> id < db.nextId
    requires forall f :: f in db.candidates && db.candidates[f].status == Promoted ==>
               f in db.golden && db.candidates[f].goldenCase == Some(db.golden[f])
    ensures Valid(db)
  {
  }

  /** The row a candidate of a new fingerprint gets. */
  function CreatedRow(db: Db, runId: nat, p: Prepared, now: int): CandidateRow {
    var golden := if p.key in db.golden then db.golden[p.key] else db.nextId + 1;
    CandidateRow(db.nextId, runId, p.scope, p.userInput, p.representative, AllMembers(p), |AllMembers(p)|, p.tag,
                 p.status, if p.status == Promoted then Some(golden) else None, now)
  }

  lemma CreatesRow(db: Db, runId: nat, p: Prepared, now: int)
    requires Valid(db) && p.key !in db.candidates
    ensures var after, row := Persisted(db, runId, p, now), CreatedRow(db, runId, p, now);
            && after.candidates == db.candidates[p.key := row]
            && after.members == db.members[row.id := row.members]
            && after.golden == (if p.status == Promoted && p.key !in db.golden then db.golden[p.key := db.nextId + 1] else db.golden)
            && after.nextId > db.nextId && after.logs == db.logs && after.cache == db.cache
  {
    var inserted := Inserted(db, runId, p, now);
    assert MembersOf(inserted, db.nextId) == {};
    var merged := Merged(inserted, p.key, AllMembers(p), p.tag);
    assert merged.candidates == db.candidates[p.key := merged.candidates[p.key]];
    var after := Persisted(db, runId, p, now);
    assert after.candidates == db.candidates[p.key := after.candidates[p.key]];
  }

  /** A row of a fresh id for a new fingerprint keeps the tables valid. */
  lemma NewRowKeepsValid(db: Db, after: Db, key: string, row: CandidateRow)
    requires Valid(db) && key !in db.candidates
    requires row.id == db.nextId < after.nextId && row.memberCount == |row.members|
    requires after.candidates == db.candidates[key := row] && after.members == db.members[row.id := row.members]
    requires forall f :: f in db.golden ==> f in after.golden && after.golden[f] == db.golden[f]
    requires row.status == Promoted ==> key in after.golden && row.goldenCase == Some(after.golden[key])
    ensures Valid(after)
  {
    forall f | f in after.candidates
      ensures var c := after.candidates[f]; c.id in after.members && c.members == MembersOf(after, c.id) && c.memberCount == |c.members|
    {
      if f != key { assert after.candidates[f] == db.candidates[f] && db.candidates[f].id != db.nextId; }
    }
    forall f | f in after.candidates && after.candidates[f].status == Promoted
      ensures f in after.golden && after.candidates[f].goldenCase == Some(after.golden[f])
    {
      if f != key { assert after.candidates[f] == db.candidates[f]; }
    }
  }

  lemma NewRowGrows(db: Db, after: Db, key: string, row: CandidateRow)
    requires key !in db.candidates && after.candidates == db.candidates[key := row]
    requires forall f :: f in db.golden ==> f in after.golden && after.golden[f] == db.golden[f]
    requires after.nextId > db.nextId && after.logs == db.logs && after.cache == db.cache
    ensures Grew(db, after)
  {
    assert forall f :: f in db.candidates ==> after.candidates[f] == db.candidates[f];
  }

  lemma CreatedKeepsValid(db: Db, runId: nat, p: Prepared, now: int, after: Db)
    requires Valid(db) && p.key !in db.candidates && after == Persisted(db, runId, p, now)
    ensures Valid(after) && Grew(db, after)
  {
    CreatesRow(db, runId, p, now);
    var row := CreatedRow(db, runId, p, now);
    assert row.id == db.nextId && row.memberCount == |row.members|;
    assert row.status == Promoted ==> p.key in after.golden && row.goldenCase == Some(after.golden[p.key]);
    hide Persisted, Valid, Grew, AllMembers, CreatedRow;
    NewRowKeepsValid(db, after, p.key, row);
    NewRowGrows(db, after, p.key, row);
  }

  lemma PersistedKeepsValid(db: Db, runId: nat, p: Prepared, now: int)
    requires Valid(db)
    ensures Valid(Persisted(db, runId, p, now)) && Grew(db, Persisted(db, runId, p, now))
  {
    if p.key in db.candidates {
      MergedKeepsValid(db, p.key, AllMembers(p), p.tag);
    } else {
      CreatedKeepsValid(db, runId, p, now, Persisted(db, runId, p, now));
    }
  }

  lemma FinalizedKeepsValid(db: Db, cutoff: int)
    requires Valid(db)
    ensures Valid(Finalized(db, cutoff))
  {
    var after := Finalized(db, cutoff);
    forall f | f in after.candidates
      ensures var c := after.candidates[f]; c.id in after.members && c.members == MembersOf(after, c.id) && c.memberCount == |c.members|
    {
      assert forall g :: g in db.candidates && g != f ==> db.candidates[g].id != db.candidates[f].id;
      assert after.candidates[f] == db.candidates[f];
    }
  }

  /** Finalizing removes exactly the old pending candidates and the old rows. */
  lemma FinalizedRemovesExactly(db: Db, cutoff: int, key: string, r: LogRow)
    ensures key in Finalized(db, cutoff).candidates <==> key in db.candidates && Retained(db.candidates[key], cutoff)
    ensures r in Finalized(db, cutoff).logs <==> r in db.logs && r.createdAt >= cutoff
    ensures Finalized(db, cutoff).golden == db.golden
  {
    RecentLogsIn(db.logs, cutoff, r);
  }

  /** A cache row survives with the source row of its fingerprint: all rows of a fingerprint go or stay together. */
  lemma {:induction false} SourcedSelect(cache: seq<CacheRow>, logs: seq<LogRow>, fingerprint: string, profile: Profile)
    ensures Select(SourcedCache(cache, logs), fingerprint, profile) ==
            if HasSource(logs, fingerprint) then Select(cache, fingerprint, profile) else []
  {
    if cache != [] {
      var front, last := cache[..|cache| - 1], cache[|cache| - 1];
      SourcedSelect(front, logs, fingerprint, profile);
      SelectAppended(SourcedCache(front, logs), last, fingerprint, profile);
      assert SourcedCache(front, logs) + [] == SourcedCache(front, logs);
    }
  }
}
