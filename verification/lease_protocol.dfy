/**
 The renewable lease that fences every database effect of the log miner.

 Workers are anonymous: a worker is whoever issues a transaction that carries a
 claim.  A transaction is not one step.  It begins, evaluates its predicate on
 the committed lease row, takes the row lock, writes, and commits or aborts, and
 any other action, including the passing of time, may come in between.  The
 predicate is evaluated again only if the lease row was updated while the
 transaction waited for the lock.
 */
module LeaseProtocol {
  import opened Common

  // Microseconds, the resolution of the database clock.
  type Time = int
  const MICROS := 1_000_000

  datatype Claim = Claim(name: string, token: nat, run: nat)

  // Every update of a lease row makes a new version of it, even one that writes the same values.
  datatype LeaseRow = Free(version: nat) | Held(version: nat, token: nat, run: nat, expires: Time)
  datatype RunStatus = Running | Completed | Failed | Skipped
  datatype Run = Run(status: RunStatus, errors: nat)

  // One row-level effect of a fenced transaction; `None` deletes the row.
  datatype RowWrite = RowWrite(cell: (string, string), value: Option<string>)

  // `closing` is the audit row a finalising or failing transaction installs.
  datatype Body =
    | ClaimRun(name: string, ttl: nat)
    | Renew(claim: Claim, ttl: nat)
    | Fenced(claim: Claim, closing: Option<Run>)

  datatype Tx =
    | Began(body: Body)
    | Evaluated(body: Body, seen: LeaseRow, since: Time)
    | Locked(body: Body, since: Time, writes: seq<RowWrite>)

  // The history of committed lease and fenced transactions.
  datatype Event =
    | Claimed(claim: Claim)
    | Renewed(claim: Claim)
    | Wrote(claim: Claim, writes: seq<RowWrite>)
    | Closed(claim: Claim, writes: seq<RowWrite>)

  datatype State = State(
    now: Time,
    leases: map<string, LeaseRow>,
    runs: map<nat, Run>,
    tables: map<(string, string), string>,
    log: seq<Event>,
    locks: map<string, nat>,
    txs: map<nat, Tx>)

  datatype Action =
    | Tick(d: nat)
    | Begin(t: nat, body: Body)
    | Evaluate(t: nat)
    | Acquire(t: nat)
    | Write(t: nat, w: RowWrite)
    | Commit(t: nat, stamp: Time, token: nat, run: nat)
    | Abort(t: nat)
    | RecordSkipped(run: nat)

  function NameOf(b: Body): string {
    match b
    case ClaimRun(name, _) => name
    case Renew(c, _) => c.name
    case Fenced(c, _) => c.name
  }

  function RowOf(s: State, name: string): LeaseRow {
    if name in s.leases then s.leases[name] else Free(0)
  }

  predicate HeldBy(row: LeaseRow, c: Claim) {
    row.Held? && row.token == c.token && row.run == c.run
  }

  /** The condition a statement tests on the lease row at time `now`. */
  predicate Passes(b: Body, row: LeaseRow, now: Time) {
    match b
    case ClaimRun(_, _) => !(row.Held? && row.expires > now)
    case Renew(c, _) => HeldBy(row, c) && row.expires > now
    case Fenced(c, _) => HeldBy(row, c) && row.expires > now
  }

  predicate FreshToken(log: seq<Event>, token: nat) {
    forall i :: 0 <= i < |log| ==> log[i].claim.token != token
  }

  predicate ValidBody(b: Body) {
    match b
    case ClaimRun(name, ttl) => name != "" && ttl >= 1
    case Renew(_, ttl) => ttl >= 1
    case Fenced(_, closing) => closing.Some? ==> closing.value.status in {Completed, Failed}
  }

  predicate Enabled(s: State, a: Action) {
    match a
    case Tick(_) => true
    case Begin(t, b) => t !in s.txs && ValidBody(b)
    case Evaluate(t) => t in s.txs && s.txs[t].Began?
    case Acquire(t) => t in s.txs && s.txs[t].Evaluated? && NameOf(s.txs[t].body) !in s.locks
    case Write(t, _) => t in s.txs && s.txs[t].Locked? && s.txs[t].body.Fenced?
    case Commit(t, stamp, token, run) =>
      && t in s.txs && s.txs[t].Locked? && s.txs[t].since <= stamp <= s.now
      && (s.txs[t].body.ClaimRun? ==> FreshToken(s.log, token) && run !in s.runs)
    case Abort(t) => t in s.txs
    case RecordSkipped(run) => run !in s.runs
  }

  /** The end of a transaction, whatever its outcome: its lock is released. */
  function Drop(s: State, t: nat): State
    requires t in s.txs
  {
    var name := NameOf(s.txs[t].body);
    s.(txs := s.txs - {t},
       locks := if name in s.locks && s.locks[name] == t then s.locks - {name} else s.locks)
  }

  function ApplyWrites(tables: map<(string, string), string>, ws: seq<RowWrite>): map<(string, string), string> {
    if ws == [] then tables
    else
      var before := ApplyWrites(tables, ws[..|ws| - 1]);
      var w := ws[|ws| - 1];
      if w.value.Some? then before[w.cell := w.value.value] else before - {w.cell}
  }

  /** An overtaken run that is still marked running is failed by the claim that replaces it. */
  function FailOvertaken(runs: map<nat, Run>, row: LeaseRow): map<nat, Run> {
    if row.Held? && row.run in runs && runs[row.run].status == Running
    then runs[row.run := Run(Failed, runs[row.run].errors + 1)]
    else runs
  }

  /** A version no row has had: every commit that updates a lease row is recorded in the history. */
  function NextVersion(s: State): nat {
    |s.log| + 1
  }

  function CommitEffect(s: State, t: nat, stamp: Time, token: nat, run: nat): State
    requires t in s.txs && s.txs[t].Locked?
  {
    var tx := s.txs[t];
    match tx.body
    case ClaimRun(name, ttl) =>
      s.(runs := FailOvertaken(s.runs, RowOf(s, name))[run := Run(Running, 0)],
         leases := s.leases[name := Held(NextVersion(s), token, run, stamp + ttl * MICROS)],
         log := s.log + [Claimed(Claim(name, token, run))])
    case Renew(c, ttl) =>
      s.(leases := s.leases[c.name := Held(NextVersion(s), c.token, c.run, stamp + ttl * MICROS)],
         log := s.log + [Renewed(c)])
    case Fenced(c, None) =>
      s.(tables := ApplyWrites(s.tables, tx.writes), log := s.log + [Wrote(c, tx.writes)])
    case Fenced(c, Some(r)) =>
      if c.run !in s.runs then s      // the missing audit row rolls the transaction back
      else s.(tables := ApplyWrites(s.tables, tx.writes),
              runs := s.runs[c.run := r],
              leases := if HeldBy(RowOf(s, c.name), c) then s.leases[c.name := Free(NextVersion(s))] else s.leases,
              log := s.log + [Closed(c, tx.writes)])
  }

  function Apply(s: State, a: Action): State
    requires Enabled(s, a)
  {
    match a
    case Tick(d) => s.(now := s.now + d)
    case Begin(t, b) => s.(txs := s.txs[t := Began(b)])
    case Evaluate(t) =>
      var b := s.txs[t].body;
      var row := RowOf(s, NameOf(b));
      if b.ClaimRun? || Passes(b, row, s.now)
      then s.(txs := s.txs[t := Evaluated(b, row, s.now)])
      else Drop(s, t)
    case Acquire(t) =>
      var tx := s.txs[t];
      var row := RowOf(s, NameOf(tx.body));
      var at := if row == tx.seen then tx.since else s.now;
      if Passes(tx.body, row, at)
      then s.(txs := s.txs[t := Locked(tx.body, at, [])], locks := s.locks[NameOf(tx.body) := t])
      else Drop(s, t)
    case Write(t, w) => s.(txs := s.txs[t := s.txs[t].(writes := s.txs[t].writes + [w])])
    case Commit(t, stamp, token, run) => Drop(CommitEffect(s, t, stamp, token, run), t)
    case Abort(t) => Drop(s, t)
    case RecordSkipped(run) => s.(runs := s.runs[run := Run(Skipped, 0)])
  }

  predicate Legal(s: State, acts: seq<Action>)
    decreases |acts|
  {
    acts == [] || (Enabled(s, acts[0]) && Legal(Apply(s, acts[0]), acts[1..]))
  }

  function Exec(s: State, acts: seq<Action>): State
    requires Legal(s, acts)
    decreases |acts|
  {
    if acts == [] then s else Exec(Apply(s, acts[0]), acts[1..])
  }

  const INIT := State(0, map[], map[], map[], [], map[], map[])

  // ---------------------------------------------------------------- history

  function LastClaim(log: seq<Event>, name: string): Option<Claim> {
    if log == [] then None
    else if log[|log| - 1].claim.name == name then Some(log[|log| - 1].claim)
    else LastClaim(log[..|log| - 1], name)
  }

  /** Between two committed transactions of one claim no other claim of that lease commits. */
  ghost predicate Contiguous(log: seq<Event>) {
    forall i, j, k :: 0 <= i < j < k < |log| && log[i].claim == log[k].claim && log[j].claim.name == log[i].claim.name
      ==> log[j].claim == log[i].claim
  }

  // -------------------------------------------------------------- invariant

  ghost predicate LocksOk(s: State) {
    && (forall n :: n in s.locks ==> s.locks[n] in s.txs && s.txs[s.locks[n]].Locked? && NameOf(s.txs[s.locks[n]].body) == n)
    && (forall t :: t in s.txs && s.txs[t].Locked? ==> NameOf(s.txs[t].body) in s.locks && s.locks[NameOf(s.txs[t].body)] == t)
  }

  ghost predicate TxOk(s: State, tx: Tx) {
    && ValidBody(tx.body)
    && (!tx.Began? ==> tx.since <= s.now)
    && (tx.Evaluated? && !tx.body.ClaimRun? ==> Passes(tx.body, tx.seen, tx.since))
    && (tx.Locked? && !tx.body.ClaimRun? ==> HeldBy(RowOf(s, tx.body.claim.name), tx.body.claim))
  }

  ghost predicate TxsOk(s: State) {
    forall t :: t in s.txs ==> TxOk(s, s.txs[t])
  }

  ghost predicate OwnersOk(s: State) {
    forall n :: n in s.leases && s.leases[n].Held? ==> LastClaim(s.log, n) == Some(Claim(n, s.leases[n].token, s.leases[n].run))
  }

  predicate NamesRun(row: LeaseRow, r: nat) {
    row.Held? && row.run == r
  }

  /** A run row is `running` exactly when a lease row names it, and no two lease rows name one run. */
  ghost predicate AuditOk(s: State) {
    && (forall r :: r in s.runs ==> (s.runs[r].status == Running <==> exists n :: n in s.leases && NamesRun(s.leases[n], r)))
    && (forall n :: n in s.leases && s.leases[n].Held? ==> s.leases[n].run in s.runs)
    && (forall n, m :: n in s.leases && m in s.leases && s.leases[n].Held? && s.leases[m].Held? && s.leases[n].run == s.leases[m].run ==> n == m)
  }

  /** Every committed claim has its own audit row. */
  ghost predicate RunsOk(s: State) {
    && (forall i :: 0 <= i < |s.log| ==> s.log[i].claim.run in s.runs)
    && (forall i, j :: 0 <= i < j < |s.log| && s.log[i].claim.run == s.log[j].claim.run ==> s.log[i].claim == s.log[j].claim)
  }

  ghost predicate Inv(s: State) {
    LocksOk(s) && TxsOk(s) && OwnersOk(s) && AuditOk(s) && RunsOk(s) && Contiguous(s.log)
  }

  lemma DropKeepsTransactions(s: State, s0: State, t: nat)
    requires t in s.txs && LocksOk(s) && TxsOk(s)
    requires s0.txs == s.txs && s0.locks == s.locks && s0.now == s.now
    requires forall n :: n != NameOf(s.txs[t].body) ==> RowOf(s0, n) == RowOf(s, n)
    requires s.txs[t].Locked? || s0.leases == s.leases
    ensures LocksOk(Drop(s0, t)) && TxsOk(Drop(s0, t))
  {
    var next := Drop(s0, t);
    forall u | u in next.txs
      ensures TxOk(next, next.txs[u])
    {
      assert TxOk(s, s.txs[u]);
      if s.txs[u].Locked? && s.txs[t].Locked? {
        assert NameOf(s.txs[u].body) != NameOf(s.txs[t].body);
      }
    }
  }

  lemma CommitTouchesOneRow(s: State, t: nat, stamp: Time, token: nat, run: nat, n: string)
    requires t in s.txs && s.txs[t].Locked? && n != NameOf(s.txs[t].body)
    ensures RowOf(CommitEffect(s, t, stamp, token, run), n) == RowOf(s, n)
  {
  }

  lemma LockTaken(s: State, next: State, t: nat, tx: Tx)
    requires LocksOk(s) && tx.Locked? && (t in s.txs ==> !s.txs[t].Locked?) && next.txs == s.txs[t := tx]
    requires NameOf(tx.body) !in s.locks && next.locks == s.locks[NameOf(tx.body) := t]
    ensures LocksOk(next)
  {
    hide NameOf;
  }

  lemma LockUnchanged(s: State, next: State, t: nat, tx: Tx)
    requires LocksOk(s) && (tx.Locked? <==> t in s.txs && s.txs[t].Locked?) && next.txs == s.txs[t := tx]
    requires (t in s.txs ==> NameOf(s.txs[t].body) == NameOf(tx.body)) && next.locks == s.locks
    ensures LocksOk(next)
  {
    hide NameOf;
  }

  /** Replacing one transaction by a later stage of itself, with its lock taken when that stage is `Locked`. */
  lemma AdvanceKeepsTransactions(s: State, next: State, t: nat, tx: Tx)
    requires LocksOk(s) && TxsOk(s)
    requires next.leases == s.leases && next.now == s.now && next.txs == s.txs[t := tx] && TxOk(s, tx)
    requires t in s.txs ==> NameOf(s.txs[t].body) == NameOf(tx.body)
    requires if tx.Locked? && !(t in s.txs && s.txs[t].Locked?)
             then NameOf(tx.body) !in s.locks && next.locks == s.locks[NameOf(tx.body) := t]
             else next.locks == s.locks && (t in s.txs && s.txs[t].Locked? ==> tx.Locked?)
    ensures LocksOk(next) && TxsOk(next)
  {
    AdvanceKeepsTxs(s, next, t, tx);
    hide *;
    if tx.Locked? && !(t in s.txs && s.txs[t].Locked?) {
      LockTaken(s, next, t, tx);
    } else {
      LockUnchanged(s, next, t, tx);
    }
  }

  lemma AdvanceKeepsTxs(s: State, next: State, t: nat, tx: Tx)
    requires TxsOk(s) && next.leases == s.leases && next.now == s.now && next.txs == s.txs[t := tx] && TxOk(s, tx)
    ensures TxsOk(next)
  {
    forall u | u in next.txs ensures TxOk(next, next.txs[u]) {
      assert TxOk(s, if u != t then s.txs[u] else tx);
    }
  }

  lemma EvaluateKeepsTransactions(s: State, t: nat)
    requires LocksOk(s) && TxsOk(s) && Enabled(s, Evaluate(t))
    ensures LocksOk(Apply(s, Evaluate(t))) && TxsOk(Apply(s, Evaluate(t)))
  {
    var after := Apply(s, Evaluate(t));
    assert TxOk(s, s.txs[t]);
    if t in after.txs {
      assert TxOk(s, after.txs[t]);
      hide LocksOk, TxsOk, TxOk;
      AdvanceKeepsTransactions(s, after, t, after.txs[t]);
    } else {
      hide LocksOk, TxsOk, TxOk;
      DropKeepsTransactions(s, s, t);
    }
  }

  lemma AcquireKeepsTransactions(s: State, t: nat)
    requires LocksOk(s) && TxsOk(s) && Enabled(s, Acquire(t))
    ensures LocksOk(Apply(s, Acquire(t))) && TxsOk(Apply(s, Acquire(t)))
  {
    var after := Apply(s, Acquire(t));
    assert TxOk(s, s.txs[t]);
    if t in after.txs {
      assert TxOk(s, after.txs[t]);
      hide LocksOk, TxsOk, TxOk;
      AdvanceKeepsTransactions(s, after, t, after.txs[t]);
    } else {
      hide LocksOk, TxsOk, TxOk;
      DropKeepsTransactions(s, s, t);
    }
  }

  lemma CommitKeepsTransactions(s: State, a: Action)
    requires LocksOk(s) && TxsOk(s) && Enabled(s, a) && a.Commit?
    ensures LocksOk(Apply(s, a)) && TxsOk(Apply(s, a))
  {
    var s0 := CommitEffect(s, a.t, a.stamp, a.token, a.run);
    hide LocksOk, TxsOk, TxOk, RowOf;
    forall n | n != NameOf(s.txs[a.t].body) ensures RowOf(s0, n) == RowOf(s, n) {
      CommitTouchesOneRow(s, a.t, a.stamp, a.token, a.run, n);
    }
    DropKeepsTransactions(s, s0, a.t);
  }

  lemma QuietKeepsTransactions(s: State, next: State)
    requires LocksOk(s) && TxsOk(s)
    requires next.txs == s.txs && next.locks == s.locks && next.leases == s.leases && s.now <= next.now
    ensures LocksOk(next) && TxsOk(next)
  {
    forall u | u in next.txs ensures TxOk(next, next.txs[u]) { assert TxOk(s, s.txs[u]); }
  }

  lemma WriteKeepsTransactions(s: State, a: Action)
    requires LocksOk(s) && TxsOk(s) && Enabled(s, a) && (a.Write? || a.Begin?)
    ensures LocksOk(Apply(s, a)) && TxsOk(Apply(s, a))
  {
    var tx := Apply(s, a).txs[a.t];
    assert a.t in s.txs ==> TxOk(s, s.txs[a.t]);
    assert TxOk(s, tx);
    hide LocksOk, TxsOk, TxOk;
    AdvanceKeepsTransactions(s, Apply(s, a), a.t, tx);
  }

  lemma TransactionsStep(s: State, a: Action)
    requires LocksOk(s) && TxsOk(s) && Enabled(s, a)
    ensures LocksOk(Apply(s, a)) && TxsOk(Apply(s, a))
  {
    hide LocksOk, TxsOk, Drop;
    match a
    case Tick(_) => QuietKeepsTransactions(s, Apply(s, a));
    case RecordSkipped(_) => QuietKeepsTransactions(s, Apply(s, a));
    case Begin(_, _) => WriteKeepsTransactions(s, a);
    case Write(_, _) => WriteKeepsTransactions(s, a);
    case Evaluate(t) => EvaluateKeepsTransactions(s, t);
    case Acquire(t) => AcquireKeepsTransactions(s, t);
    case Commit(_, _, _, _) => CommitKeepsTransactions(s, a);
    case Abort(t) => DropKeepsTransactions(s, s, t);
  }

  // ------------------------------------------------------- history and audit

  /** The last transaction of a lease really is the last one. */
  lemma {:induction false} LastClaimIsLast(log: seq<Event>, name: string) returns (l: nat)
    requires LastClaim(log, name).Some?
    ensures l < |log| && log[l].claim == LastClaim(log, name).value && log[l].claim.name == name
    ensures forall j :: l < j < |log| ==> log[j].claim.name != name
  {
    if log[|log| - 1].claim.name == name {
      l := |log| - 1;
    } else {
      l := LastClaimIsLast(log[..|log| - 1], name);
    }
  }

  lemma {:induction false} NoLastClaim(log: seq<Event>, name: string)
    requires LastClaim(log, name).None?
    ensures forall j :: 0 <= j < |log| ==> log[j].claim.name != name
  {
    if log != [] {
      NoLastClaim(log[..|log| - 1], name);
    }
  }

  lemma LastClaimOfExtension(log: seq<Event>, e: Event, name: string)
    ensures LastClaim(log + [e], name) == if e.claim.name == name then Some(e.claim) else LastClaim(log, name)
  {
    assert (log + [e])[..|log|] == log;
  }

  lemma OwnerExtends(log: seq<Event>, e: Event)
    requires Contiguous(log) && LastClaim(log, e.claim.name) == Some(e.claim)
    ensures Contiguous(log + [e])
  {
    var longer := log + [e];
    var l := LastClaimIsLast(log, e.claim.name);
    forall i, j, k | 0 <= i < j < k < |longer| && longer[i].claim == longer[k].claim && longer[j].claim.name == longer[i].claim.name
      ensures longer[j].claim == longer[i].claim
    {
      if k == |log| {
        assert j <= l;
        if j < l { assert log[i].claim == log[l].claim && log[j].claim.name == log[i].claim.name; }
      }
    }
  }

  lemma FreshClaimExtends(log: seq<Event>, e: Event)
    requires Contiguous(log) && FreshToken(log, e.claim.token)
    ensures Contiguous(log + [e])
  {
    var longer := log + [e];
    assert forall i :: 0 <= i < |log| ==> longer[i].claim.token != e.claim.token;
  }

  /** The transaction that commits is either a claim with a fresh token or the lease's present owner. */
  lemma CommitterOwns(s: State, t: nat)
    requires OwnersOk(s) && TxsOk(s) && t in s.txs && s.txs[t].Locked? && !s.txs[t].body.ClaimRun?
    ensures LastClaim(s.log, s.txs[t].body.claim.name) == Some(s.txs[t].body.claim)
    ensures s.txs[t].body.claim.name in s.leases && HeldBy(s.leases[s.txs[t].body.claim.name], s.txs[t].body.claim)
  {
    assert TxOk(s, s.txs[t]);
  }

  /** What one action does to the history and to the lease row of one name. */
  lemma OnlyCommitsMatter(s: State, a: Action)
    requires Enabled(s, a)
    ensures !a.Commit? ==> Apply(s, a).leases == s.leases && Apply(s, a).log == s.log && Apply(s, a).tables == s.tables
  {
  }

  /** A commit appends one event of the committing transaction's lease and touches that lease row only. */
  lemma CommitShape(s: State, t: nat, stamp: Time, token: nat, run: nat)
    requires t in s.txs && s.txs[t].Locked?
    ensures var s0, b := CommitEffect(s, t, stamp, token, run), s.txs[t].body;
            || (s0.log == s.log && s0.leases == s.leases && b.Fenced?)
            || (&& |s0.log| == |s.log| + 1 && s0.log == s.log + [s0.log[|s.log|]]
                && s0.log[|s.log|].claim == (if b.ClaimRun? then Claim(b.name, token, run) else b.claim)
                && (forall n :: n != NameOf(b) ==> RowOf(s0, n) == RowOf(s, n) && (n in s0.leases <==> n in s.leases))
                && (RowOf(s0, NameOf(b)).Held? ==>
                      || HeldBy(RowOf(s0, NameOf(b)), s0.log[|s.log|].claim)
                      || (b.Fenced? && RowOf(s0, NameOf(b)) == RowOf(s, NameOf(b)))))
  {
    forall n | n != NameOf(s.txs[t].body)
      ensures RowOf(CommitEffect(s, t, stamp, token, run), n) == RowOf(s, n)
    {
      CommitTouchesOneRow(s, t, stamp, token, run, n);
    }
  }

  lemma HistoryStep(s: State, a: Action)
    requires OwnersOk(s) && TxsOk(s) && Contiguous(s.log) && Enabled(s, a)
    ensures Contiguous(Apply(s, a).log) && OwnersOk(Apply(s, a))
    ensures s.log <= Apply(s, a).log && |Apply(s, a).log| <= |s.log| + 1
  {
    var next := Apply(s, a);
    if !a.Commit? {
      OnlyCommitsMatter(s, a);
    } else {
      CommitShape(s, a.t, a.stamp, a.token, a.run);
      if next.log != s.log {
        CommitHistory(s, a);
      }
    }
  }

  lemma CommitHistory(s: State, a: Action)
    requires OwnersOk(s) && TxsOk(s) && Contiguous(s.log) && a.Commit? && Enabled(s, a)
    requires Apply(s, a).log != s.log
    ensures Contiguous(Apply(s, a).log) && OwnersOk(Apply(s, a))
  {
    var next := Apply(s, a);
    var b := s.txs[a.t].body;
    CommitShape(s, a.t, a.stamp, a.token, a.run);
    var e := next.log[|s.log|];
    if b.ClaimRun? {
      FreshClaimExtends(s.log, e);
    } else {
      CommitterOwns(s, a.t);
      OwnerExtends(s.log, e);
    }
    forall n | n in next.leases && next.leases[n].Held?
      ensures LastClaim(next.log, n) == Some(Claim(n, next.leases[n].token, next.leases[n].run))
    {
      LastClaimOfExtension(s.log, e, n);
    }
  }

  /** A committed claim: its own run is running and named, an overtaken one failed, all others as before. */
  lemma AuditAfterClaim(s: State, t: nat, stamp: Time, token: nat, run: nat)
    requires AuditOk(s) && t in s.txs && s.txs[t].Locked? && s.txs[t].body.ClaimRun? && run !in s.runs
    ensures AuditOk(CommitEffect(s, t, stamp, token, run))
  {
    var next := CommitEffect(s, t, stamp, token, run);
    var name := s.txs[t].body.name;
    forall r | r in next.runs
      ensures next.runs[r].status == Running <==> exists n :: n in next.leases && NamesRun(next.leases[n], r)
    {
      if r == run {
        assert NamesRun(next.leases[name], r);
      } else {
        assert r in s.runs;
        assert forall n :: n in next.leases && NamesRun(next.leases[n], r) ==> n != name && n in s.leases && NamesRun(s.leases[n], r);
        if NamesRun(RowOf(s, name), r) {
          assert next.runs[r].status == Failed;
        } else if s.runs[r].status == Running {
          var n :| n in s.leases && NamesRun(s.leases[n], r);
          assert n in next.leases && NamesRun(next.leases[n], r);
        }
      }
    }
  }

  /** What a commit of the owner may do to leases and runs: renew the lease, or free it and end the run. */
  ghost predicate OwnerChange(s: State, next: State, c: Claim) {
    && c.name in s.leases && HeldBy(s.leases[c.name], c)
    && next.leases.Keys == s.leases.Keys && (forall n :: n in s.leases && n != c.name ==> next.leases[n] == s.leases[n])
    && if next.leases[c.name].Held? then HeldBy(next.leases[c.name], c) && next.runs == s.runs
       else c.run in s.runs && next.runs.Keys == s.runs.Keys && next.runs[c.run].status != Running
            && forall r :: r in s.runs && r != c.run ==> next.runs[r] == s.runs[r]
  }

  lemma RenewChange(s: State, t: nat, stamp: Time)
    requires t in s.txs && s.txs[t].Locked? && s.txs[t].body.Renew?
    requires s.txs[t].body.claim.name in s.leases && HeldBy(s.leases[s.txs[t].body.claim.name], s.txs[t].body.claim)
    ensures OwnerChange(s, CommitEffect(s, t, stamp, 0, 0), s.txs[t].body.claim)
  {
  }

  lemma FencedChange(s: State, t: nat, stamp: Time)
    requires t in s.txs && s.txs[t].Locked? && s.txs[t].body.Fenced? && ValidBody(s.txs[t].body)
    requires s.txs[t].body.claim.name in s.leases && HeldBy(s.leases[s.txs[t].body.claim.name], s.txs[t].body.claim)
    ensures OwnerChange(s, CommitEffect(s, t, stamp, 0, 0), s.txs[t].body.claim)
  {
    hide ApplyWrites;
  }

  lemma OwnerCommitChange(s: State, t: nat, stamp: Time)
    requires OwnersOk(s) && TxsOk(s) && t in s.txs && s.txs[t].Locked? && !s.txs[t].body.ClaimRun?
    ensures OwnerChange(s, CommitEffect(s, t, stamp, 0, 0), s.txs[t].body.claim)
  {
    CommitterOwns(s, t);
    assert TxOk(s, s.txs[t]);
    hide OwnersOk, TxsOk, OwnerChange, CommitEffect, HeldBy;
    if s.txs[t].body.Renew? { RenewChange(s, t, stamp); } else { FencedChange(s, t, stamp); }
  }

  lemma AuditAfterOwnerChange(s: State, next: State, c: Claim)
    requires AuditOk(s) && OwnerChange(s, next, c)
    ensures AuditOk(next)
  {
    assert NamesRun(s.leases[c.name], c.run);
    forall r | r in next.runs
      ensures next.runs[r].status == Running <==> exists n :: n in next.leases && NamesRun(next.leases[n], r)
    {
      if r == c.run {
        if next.leases[c.name].Held? { assert NamesRun(next.leases[c.name], r); }
      } else if s.runs[r].status == Running {
        var n :| n in s.leases && NamesRun(s.leases[n], r);
        assert n != c.name && n in next.leases && NamesRun(next.leases[n], r);
      } else {
        assert forall n :: n in next.leases && NamesRun(next.leases[n], r) ==> n in s.leases && NamesRun(s.leases[n], r);
      }
    }
  }

  lemma AuditAfterSkip(s: State, run: nat)
    requires AuditOk(s) && run !in s.runs
    ensures AuditOk(Apply(s, RecordSkipped(run)))
  {
    var next := Apply(s, RecordSkipped(run));
    forall r | r in next.runs
      ensures next.runs[r].status == Running <==> exists n :: n in next.leases && NamesRun(next.leases[n], r)
    {
      if r != run { assert next.runs[r] == s.runs[r]; }
    }
  }

  lemma AuditIgnoresRest(s: State, next: State)
    requires AuditOk(s) && next.leases == s.leases && next.runs == s.runs
    ensures AuditOk(next)
  {
  }

  lemma AuditAfterCommit(s: State, a: Action)
    requires AuditOk(s) && OwnersOk(s) && TxsOk(s) && Enabled(s, a) && a.Commit?
    ensures AuditOk(Apply(s, a))
  {
    hide AuditOk, OwnersOk, TxsOk, OwnerChange;
    var s0 := CommitEffect(s, a.t, a.stamp, a.token, a.run);
    if s.txs[a.t].body.ClaimRun? {
      AuditAfterClaim(s, a.t, a.stamp, a.token, a.run);
    } else {
      assert s0 == CommitEffect(s, a.t, a.stamp, 0, 0);
      OwnerCommitChange(s, a.t, a.stamp);
      AuditAfterOwnerChange(s, s0, s.txs[a.t].body.claim);
    }
    hide CommitEffect;
    AuditIgnoresRest(s0, Apply(s, a));
  }

  lemma AuditStep(s: State, a: Action)
    requires AuditOk(s) && OwnersOk(s) && TxsOk(s) && Enabled(s, a)
    ensures AuditOk(Apply(s, a))
  {
    hide AuditOk, OwnersOk, TxsOk;
    match a
    case Commit(_, _, _, _) => AuditAfterCommit(s, a);
    case RecordSkipped(run) => AuditAfterSkip(s, run);
    case _ => AuditIgnoresRest(s, Apply(s, a));
  }

  lemma RunsExtend(s: State, next: State, e: Event)
    requires RunsOk(s) && next.log == s.log + [e] && e.claim.run in next.runs && forall r :: r in s.runs ==> r in next.runs
    requires e.claim.run !in s.runs || exists l :: 0 <= l < |s.log| && s.log[l].claim == e.claim
    ensures RunsOk(next)
  {
    forall i, j | 0 <= i < j < |next.log| && next.log[i].claim.run == next.log[j].claim.run ensures next.log[i].claim == next.log[j].claim {
      if j == |s.log| && e.claim.run in s.runs {
        var l :| 0 <= l < |s.log| && s.log[l].claim == e.claim;
        assert s.log[i].claim.run == s.log[l].claim.run;
      }
    }
  }

  lemma CommitRuns(s: State, a: Action)
    requires Enabled(s, a)
    ensures forall r :: r in s.runs ==> r in Apply(s, a).runs
    ensures a.Commit? && s.txs[a.t].body.ClaimRun? ==> a.run in Apply(s, a).runs
    ensures a.Commit? && s.txs[a.t].body.ClaimRun? ==>
              Apply(s, a).log == s.log + [Claimed(Claim(s.txs[a.t].body.name, a.token, a.run))]
  {
    hide ApplyWrites;
  }

  lemma RunsStep(s: State, a: Action)
    requires RunsOk(s) && OwnersOk(s) && TxsOk(s) && Enabled(s, a)
    ensures RunsOk(Apply(s, a))
  {
    var next := Apply(s, a);
    CommitRuns(s, a);
    if a.Commit? {
      var b := s.txs[a.t].body;
      CommitShape(s, a.t, a.stamp, a.token, a.run);
      if next.log != s.log {
        var e := next.log[|s.log|];
        if !b.ClaimRun? {
          CommitterOwns(s, a.t);
          hide Apply, CommitEffect;
          var l := LastClaimIsLast(s.log, e.claim.name);
          assert s.log[l].claim == e.claim;
        }
        hide RunsOk, OwnersOk, TxsOk, Enabled;
        RunsExtend(s, next, e) by { assert e.claim.run in next.runs by { RunOfEvent(s, a, e); } }
      }
    } else {
      OnlyCommitsMatter(s, a);
    }
  }

  lemma RunOfEvent(s: State, a: Action, e: Event)
    requires RunsOk(s) && OwnersOk(s) && TxsOk(s) && Enabled(s, a) && a.Commit?
    requires Apply(s, a).log == s.log + [e]
    ensures e.claim.run in Apply(s, a).runs
  {
    var next := Apply(s, a);
    CommitRuns(s, a);
    CommitShape(s, a.t, a.stamp, a.token, a.run);
    assert e == next.log[|s.log|];
    if s.txs[a.t].body.ClaimRun? {
      assert e == Claimed(Claim(s.txs[a.t].body.name, a.token, a.run));
    } else {
      CommitterOwns(s, a.t);
      assert e.claim == s.txs[a.t].body.claim;
      hide Apply, CommitEffect, OwnersOk, TxsOk;
      var l := LastClaimIsLast(s.log, e.claim.name);
      assert s.log[l].claim == e.claim;
      assert e.claim.run in s.runs;
    }
  }

  lemma InvStep(s: State, a: Action)
    requires Inv(s) && Enabled(s, a)
    ensures Inv(Apply(s, a))
  {
    hide LocksOk, TxsOk, OwnersOk, AuditOk, RunsOk, Contiguous, Apply, Enabled;
    TransactionsStep(s, a);
    HistoryStep(s, a);
    AuditStep(s, a);
    RunsStep(s, a);
  }

  lemma {:induction false} InvRun(s: State, acts: seq<Action>)
    requires Inv(s) && Legal(s, acts)
    ensures Inv(Exec(s, acts)) && s.log <= Exec(s, acts).log
    decreases |acts|
  {
    if acts != [] {
      InvStep(s, acts[0]);
      HistoryStep(s, acts[0]);
      InvRun(Apply(s, acts[0]), acts[1..]);
    }
  }

  ghost predicate VersionsOk(s: State) {
    forall n :: n in s.leases ==> s.leases[n].version <= |s.log|
  }

  lemma CommitVersions(s: State, t: nat, stamp: Time, token: nat, run: nat)
    requires t in s.txs && s.txs[t].Locked?
    ensures var s0 := CommitEffect(s, t, stamp, token, run);
            || (s0.leases == s.leases && |s0.log| >= |s.log| && s.txs[t].body.Fenced?)
            || exists row: LeaseRow ::
                 s0.leases == s.leases[NameOf(s.txs[t].body) := row] && row.version == |s.log| + 1 == |s0.log|
  {
    hide ApplyWrites, HeldBy, FailOvertaken;
  }

  lemma NewVersion(s: State, next: State, name: string, row: LeaseRow)
    requires VersionsOk(s) && next.leases == s.leases[name := row] && row.version == |s.log| + 1 == |next.log|
    ensures VersionsOk(next)
    ensures forall n :: RowOf(next, n) != RowOf(s, n) ==> RowOf(next, n).version > RowOf(s, n).version
    ensures RowOf(next, name).version > RowOf(s, name).version
  {
  }

  /** An updated lease row has a version that it has never had; a claim and a renewal always update it. */
  lemma UpdatesMakeVersions(s: State, a: Action)
    requires VersionsOk(s) && Enabled(s, a)
    ensures VersionsOk(Apply(s, a))
    ensures a.Commit? && !s.txs[a.t].body.Fenced? ==>
              var name := NameOf(s.txs[a.t].body); RowOf(Apply(s, a), name).version > RowOf(s, name).version
    ensures forall n :: RowOf(Apply(s, a), n) != RowOf(s, n) ==> RowOf(Apply(s, a), n).version > RowOf(s, n).version
  {
    OnlyCommitsMatter(s, a);
    if a.Commit? {
      CommitVersions(s, a.t, a.stamp, a.token, a.run);
      var s0 := CommitEffect(s, a.t, a.stamp, a.token, a.run);
      hide CommitEffect;
      if s0.leases != s.leases || !s.txs[a.t].body.Fenced? {
        var row: LeaseRow :| s0.leases == s.leases[NameOf(s.txs[a.t].body) := row] && row.version == |s.log| + 1 == |s0.log|;
        NewVersion(s, Apply(s, a), NameOf(s.txs[a.t].body), row);
      }
    }
  }

  // ------------------------------------------------------------ main results

  /**
   In every interleaving, the committed transactions of one claim precede all those of any later claim on
   the same lease: after the newer claim's first commit at `h2` nothing of the older claim is committed.
   */
  lemma FencedWritesNeverInterleave(acts: seq<Action>, h1: nat, h2: nat, k: nat)
    requires Legal(INIT, acts)
    requires h1 < h2 <= k < |Exec(INIT, acts).log|
    requires var log := Exec(INIT, acts).log;
             log[h1].claim.name == log[h2].claim.name && log[h1].claim != log[h2].claim
    ensures Exec(INIT, acts).log[k].claim != Exec(INIT, acts).log[h1].claim
  {
    InvRun(INIT, acts);
  }

  lemma OvertakenOnLog(log: seq<Event>, longer: seq<Event>, stale: Claim, i: nat)
    requires Contiguous(longer) && log <= longer && i < |log| && log[i].claim == stale
    requires LastClaim(log, stale.name) != Some(stale)
    ensures forall k :: |log| <= k < |longer| ==> longer[k].claim != stale
  {
    if LastClaim(log, stale.name).None? {
      NoLastClaim(log, stale.name);
    } else {
      var l := LastClaimIsLast(log, stale.name);
      hide LastClaim;
      forall k | |log| <= k < |longer| ensures longer[k].claim != stale {
        assert longer[i] == log[i] && longer[l] == log[l];
      }
    }
  }

  /** Once a newer claim of the lease has committed, the older one never commits again, in any continuation. */
  lemma OvertakenClaimNeverCommits(before: seq<Action>, after: seq<Action>, stale: Claim, i: nat)
    requires Legal(INIT, before) && Legal(Exec(INIT, before), after)
    requires i < |Exec(INIT, before).log| && Exec(INIT, before).log[i].claim == stale
    requires LastClaim(Exec(INIT, before).log, stale.name) != Some(stale)
    ensures forall k :: |Exec(INIT, before).log| <= k < |Exec(Exec(INIT, before), after).log|
              ==> Exec(Exec(INIT, before), after).log[k].claim != stale
  {
    InvRun(INIT, before);
    InvRun(Exec(INIT, before), after);
    assert Contiguous(Exec(Exec(INIT, before), after).log);
    hide Inv, Legal, Exec, LastClaim, Contiguous;
    OvertakenOnLog(Exec(INIT, before).log, Exec(Exec(INIT, before), after).log, stale, i);
  }

  /** A claim still has a future: its lease is live, or one of its transactions saw the present row live. */
  ghost predicate Alive(s: State, c: Claim) {
    var row := RowOf(s, c.name);
    HeldBy(row, c) && (row.expires > s.now || exists t :: t in s.txs && SawLive(s.txs[t], row, c))
  }

  predicate SawLive(tx: Tx, row: LeaseRow, c: Claim) {
    !tx.Began? && !tx.body.ClaimRun? && tx.body.claim == c && (tx.Evaluated? ==> tx.seen == row)
  }

  ghost predicate Issued(s: State, c: Claim) {
    exists i :: 0 <= i < |s.log| && s.log[i].claim == c
  }

  ghost predicate CommitsAfter(s: State, acts: seq<Action>, c: Claim) {
    Legal(s, acts) && exists k :: |s.log| <= k < |Exec(s, acts).log| && Exec(s, acts).log[k].claim == c
  }

  lemma DeadCommit(s: State, a: Action, c: Claim)
    requires OwnersOk(s) && TxsOk(s) && a.Commit? && Enabled(s, a) && Issued(s, c) && !Alive(s, c)
    ensures |Apply(s, a).log| > |s.log| ==> Apply(s, a).log[|s.log|].claim != c
    ensures HeldBy(RowOf(Apply(s, a), c.name), c) ==> RowOf(Apply(s, a), c.name) == RowOf(s, c.name)
  {
    var b := s.txs[a.t].body;
    CommitShape(s, a.t, a.stamp, a.token, a.run);
    if b.ClaimRun? {
      var i :| 0 <= i < |s.log| && s.log[i].claim == c;
      assert a.token != c.token;
    } else {
      CommitterOwns(s, a.t);
      if b.claim == c { assert SawLive(s.txs[a.t], RowOf(s, c.name), c); }
    }
  }

  lemma DeadElsewhere(s: State, a: Action, c: Claim, t: nat)
    requires TxsOk(s) && Enabled(s, a) && !Alive(s, c)
    requires var row := RowOf(s, c.name); RowOf(Apply(s, a), c.name) == row && HeldBy(row, c)
    requires t in Apply(s, a).txs
    ensures !SawLive(Apply(s, a).txs[t], RowOf(s, c.name), c)
  {
    var row := RowOf(s, c.name);
    hide CommitEffect;
    CommitKeepsTxs(s, a, t);
    if t in s.txs {
      assert !SawLive(s.txs[t], row, c);
      assert TxOk(s, s.txs[t]);
    }
  }

  lemma CommitKeepsTxs(s: State, a: Action, t: nat)
    requires Enabled(s, a) && t in Apply(s, a).txs
    ensures a.Commit? ==> t in s.txs && Apply(s, a).txs[t] == s.txs[t]
  {
    hide ApplyWrites;
  }

  lemma DeadStaysDead(s: State, a: Action, c: Claim)
    requires TxsOk(s) && Enabled(s, a) && !Alive(s, c)
    requires HeldBy(RowOf(Apply(s, a), c.name), c) ==> RowOf(Apply(s, a), c.name) == RowOf(s, c.name)
    requires s.now <= Apply(s, a).now
    ensures !Alive(Apply(s, a), c)
  {
    var next := Apply(s, a);
    hide Apply, TxsOk, SawLive;
    if HeldBy(RowOf(next, c.name), c) {
      forall t | t in next.txs ensures !SawLive(next.txs[t], RowOf(next, c.name), c) {
        DeadElsewhere(s, a, c, t);
      }
    }
  }

  lemma ClockAdvances(s: State, a: Action)
    requires Enabled(s, a)
    ensures s.now <= Apply(s, a).now
  {
    hide ApplyWrites;
  }

  lemma StaysIssued(s: State, next: State, c: Claim)
    requires Issued(s, c) && s.log <= next.log
    ensures Issued(next, c)
  {
    var i :| 0 <= i < |s.log| && s.log[i].claim == c;
    assert next.log[i].claim == c;
  }

  lemma DeadStep(s: State, a: Action, c: Claim)
    requires Inv(s) && Enabled(s, a) && Issued(s, c) && !Alive(s, c)
    ensures !Alive(Apply(s, a), c) && Issued(Apply(s, a), c)
    ensures |Apply(s, a).log| > |s.log| ==> Apply(s, a).log[|s.log|].claim != c
  {
    hide Apply, LocksOk, TxsOk, OwnersOk, AuditOk, RunsOk, Contiguous, Alive, Issued, Enabled;
    HistoryStep(s, a);
    StaysIssued(s, Apply(s, a), c);
    if a.Commit? { DeadCommit(s, a, c); } else { OnlyCommitsMatter(s, a); }
    ClockAdvances(s, a);
    DeadStaysDead(s, a, c);
  }

  lemma AtMostOneLonger(log: seq<Event>, longer: seq<Event>, c: Claim)
    requires log <= longer && |longer| <= |log| + 1 && (|longer| > |log| ==> longer[|log|].claim != c)
    ensures longer == log || exists e :: longer == log + [e] && e.claim != c
  {
    if longer != log { assert longer == log + [longer[|log|]]; }
  }

  lemma InvDeadStep(s: State, a: Action, c: Claim) returns (s1: State)
    requires Inv(s) && Enabled(s, a) && Issued(s, c) && !Alive(s, c)
    ensures s1 == Apply(s, a) && Inv(s1) && Issued(s1, c) && !Alive(s1, c)
    ensures s1.log == s.log || exists e :: s1.log == s.log + [e] && e.claim != c
  {
    s1 := Apply(s, a);
    InvMeans(s);
    hide *;
    InvStep(s, a);
    HistoryStep(s, a);
    DeadStep(s, a, c);
    AtMostOneLonger(s.log, s1.log, c);
  }

  lemma {:induction false} DeadRun(s: State, acts: seq<Action>, c: Claim)
    requires Inv(s) && Legal(s, acts) && Issued(s, c) && !Alive(s, c)
    ensures |s.log| <= |Exec(s, acts).log|
    ensures forall k :: |s.log| <= k < |Exec(s, acts).log| ==> Exec(s, acts).log[k].claim != c
    decreases |acts|
  {
    if acts != [] {
      var s1 := InvDeadStep(s, acts[0], c);
      DeadRun(s1, acts[1..], c);
      InvRun(s1, acts[1..]);
    }
  }

  ghost function UnusedTx(s: State): (t: nat)
    ensures t !in s.txs
  {
    MoreIdsThanTransactions(s.txs.Keys);
    var t: nat :| t !in s.txs; t
  }

  lemma {:induction false} MoreIdsThanTransactions(used: set<nat>)
    ensures exists t: nat :: t !in used
  {
    if used == {} {
      assert 0 !in used;
    } else {
      var top := MaxOf(used);
      assert top + 1 !in used;
    }
  }

  lemma {:induction false} MaxOf(used: set<nat>) returns (m: nat)
    requires used != {}
    ensures m in used && forall x :: x in used ==> x <= m
  {
    var x :| x in used;
    m := x;
    if used - {x} != {} {
      var y := MaxOf(used - {x});
      m := if y > x then y else x;
    }
    assert forall z :: z in used ==> z == x || z in used - {x};
  }

  /** Whoever holds the row lock may be aborted, which touches neither the row nor a waiting transaction. */
  lemma LockCanBeFreed(s: State, name: string) returns (acts: seq<Action>)
    requires Inv(s)
    ensures Legal(s, acts) && Inv(Exec(s, acts)) && name !in Exec(s, acts).locks
    ensures Exec(s, acts).leases == s.leases && Exec(s, acts).now == s.now && Exec(s, acts).log == s.log
    ensures forall t :: t in s.txs && !s.txs[t].Locked? ==> t in Exec(s, acts).txs && Exec(s, acts).txs[t] == s.txs[t]
  {
    if name in s.locks {
      acts := [Abort(s.locks[name])];
      InvStep(s, acts[0]);
      assert Exec(Apply(s, acts[0]), acts[1..]) == Apply(s, acts[0]);
    } else {
      acts := [];
    }
  }

  lemma {:induction false} LegalConcat(s: State, xs: seq<Action>, ys: seq<Action>)
    requires Legal(s, xs) && Legal(Exec(s, xs), ys)
    ensures Legal(s, xs + ys) && Exec(s, xs + ys) == Exec(Exec(s, xs), ys)
    decreases |xs|
  {
    if xs == [] {
      assert xs + ys == ys;
    } else {
      LegalConcat(Apply(s, xs[0]), xs[1..], ys);
      assert (xs + ys)[0] == xs[0] && (xs + ys)[1..] == xs[1..] + ys;
    }
  }

  /** One more action, appended to a continuation under construction. */
  lemma Then(s: State, acts: seq<Action>, a: Action) returns (longer: seq<Action>)
    requires Inv(s) && Legal(s, acts) && Enabled(Exec(s, acts), a)
    ensures Legal(s, longer) && Exec(s, longer) == Apply(Exec(s, acts), a)
  {
    longer := acts + [a];
    var s1 := Exec(s, acts);
    assert Legal(Apply(s1, a), [a][1..]);
    assert Legal(s1, [a]) && Exec(s1, [a]) == Apply(s1, a);
    LegalConcat(s, acts, [a]);
  }

  lemma AcquiredIsLocked(s: State, t: nat)
    requires TxsOk(s) && Enabled(s, Acquire(t)) && !s.txs[t].body.ClaimRun? && RowOf(s, NameOf(s.txs[t].body)) == s.txs[t].seen
    ensures var s1 := Apply(s, Acquire(t));
            t in s1.txs && s1.txs[t].Locked? && s1.txs[t].body == s.txs[t].body && s1.log == s.log && s1.leases == s.leases
            && s1.txs[t].since <= s1.now
  {
    assert TxOk(s, s.txs[t]);
  }

  lemma LockedCommits(s: State, t: nat, c: Claim)
    requires Inv(s) && t in s.txs && s.txs[t].Locked? && !s.txs[t].body.ClaimRun? && s.txs[t].body.claim == c
    ensures Enabled(s, Commit(t, s.now, 0, 0))
    ensures var log := Apply(s, Commit(t, s.now, 0, 0)).log; |log| == |s.log| + 1 && log[|s.log|].claim == c
  {
    assert TxOk(s, s.txs[t]);
    CommitterOwns(s, t);
    RunOfOwner(s, t, c);
    hide ApplyWrites, Inv;
  }

  lemma RunOfOwner(s: State, t: nat, c: Claim)
    requires Inv(s) && c.name in s.leases && HeldBy(s.leases[c.name], c)
    ensures c.run in s.runs
  {
  }

  lemma EvaluatedCanCommit(s: State, c: Claim, t: nat) returns (acts: seq<Action>)
    requires Inv(s) && t in s.txs && s.txs[t].Evaluated? && SawLive(s.txs[t], RowOf(s, c.name), c)
    ensures CommitsAfter(s, acts, c)
  {
    hide Inv, Apply, Exec, Legal, TxsOk;
    acts := LockCanBeFreed(s, c.name);
    var s0 := Exec(s, acts);
    assert TxsOk(s0) by { InvMeans(s0); }
    assert RowOf(s0, c.name) == RowOf(s, c.name);
    AcquiredIsLocked(s0, t);
    acts := Then(s, acts, Acquire(t));
    var s1 := Exec(s, acts);
    InvRun(s, acts);
    LockedCommits(s1, t, c);
    acts := Then(s, acts, Commit(t, s1.now, 0, 0));
    assert Exec(s, acts).log[|s.log|].claim == c;
  }

  lemma InvMeans(s: State)
    requires Inv(s)
    ensures LocksOk(s) && TxsOk(s) && OwnersOk(s) && AuditOk(s) && RunsOk(s) && Contiguous(s.log)
  {
  }

  lemma LockedCanCommit(s: State, c: Claim, t: nat) returns (acts: seq<Action>)
    requires Inv(s) && t in s.txs && s.txs[t].Locked? && SawLive(s.txs[t], RowOf(s, c.name), c)
    ensures CommitsAfter(s, acts, c)
  {
    LockedCommits(s, t, c);
    assert Exec(s, []) == s;
    hide Inv, Apply;
    acts := Then(s, [], Commit(t, s.now, 0, 0));
    assert Exec(s, acts).log[|s.log|].claim == c;
  }

  lemma LiveCanCommit(s: State, c: Claim) returns (acts: seq<Action>)
    requires Inv(s) && HeldBy(RowOf(s, c.name), c) && RowOf(s, c.name).expires > s.now
    ensures CommitsAfter(s, acts, c)
  {
    var t := UnusedTx(s);
    var prefix := Then(s, [], Begin(t, Renew(c, 1)));
    prefix := Then(s, prefix, Evaluate(t));
    InvRun(s, prefix);
    var s2 := Exec(s, prefix);
    assert RowOf(s2, c.name) == RowOf(s, c.name);
    var rest := EvaluatedCanCommit(s2, c, t);
    LegalConcat(s, prefix, rest);
    acts := prefix + rest;
  }

  /**
   Exactly when an issued claim can still commit anything: while its lease has not expired, or while a
   transaction of it that saw the present lease row live is still in flight.  An expired claim without such
   a transaction is neither renewed nor written under again, whatever the workers do.
   */
  lemma ClaimCommitsAgainIffAlive(before: seq<Action>, c: Claim)
    requires Legal(INIT, before) && Issued(Exec(INIT, before), c)
    ensures (exists acts :: CommitsAfter(Exec(INIT, before), acts, c)) <==> Alive(Exec(INIT, before), c)
  {
    InvRun(INIT, before);
    var s := Exec(INIT, before);
    if Alive(s, c) {
      var acts: seq<Action>;
      if RowOf(s, c.name).expires > s.now {
        acts := LiveCanCommit(s, c);
      } else {
        var t :| t in s.txs && SawLive(s.txs[t], RowOf(s, c.name), c);
        if s.txs[t].Locked? { acts := LockedCanCommit(s, c, t); } else { acts := EvaluatedCanCommit(s, c, t); }
      }
      assert CommitsAfter(s, acts, c);
    } else {
      forall acts | Legal(s, acts) ensures !CommitsAfter(s, acts, c) {
        DeadRun(s, acts, c);
      }
    }
  }

  /**
   A claim whose lease is over can still commit: the transaction checked and locked the row in time, and the
   clock moved on before it committed.
   */
  lemma ExpiredClaimStillCommits() returns (before: seq<Action>, after: seq<Action>, c: Claim)
    ensures Legal(INIT, before) && Issued(Exec(INIT, before), c)
    ensures var s := Exec(INIT, before); HeldBy(RowOf(s, c.name), c) && RowOf(s, c.name).expires < s.now
    ensures CommitsAfter(Exec(INIT, before), after, c)
  {
    c := Claim("m", 7, 1);
    before := TraceOfClaim(c);
    var s1 := Exec(INIT, before);
    InvRun(INIT, before);
    var more := TraceOfLateWriter(s1, c);
    var s := Exec(s1, more);
    LegalConcat(INIT, before, more);
    InvRun(s1, more);
    before := before + more;
    hide *;
    ClaimInLog(s, c);
    LateWriter(s, c);
    after := LockedCanCommit(s, c, 1);
  }

  lemma TraceOfClaim(c: Claim) returns (acts: seq<Action>)
    requires c == Claim("m", 7, 1)
    ensures Legal(INIT, acts)
    ensures Exec(INIT, acts) == State(0, map["m" := Held(1, 7, 1, MICROS)], map[1 := Run(Running, 0)], map[], [Claimed(c)], map[], map[])
  {
    var b := ClaimRun("m", 1);
    var s1 := Apply(INIT, Begin(0, b));
    assert s1 == INIT.(txs := map[0 := Began(b)]);
    var s2 := Apply(s1, Evaluate(0));
    assert s2 == INIT.(txs := map[0 := Evaluated(b, Free(0), 0)]);
    var s3 := Apply(s2, Acquire(0));
    assert s3 == INIT.(txs := map[0 := Locked(b, 0, [])], locks := map["m" := 0]);
    assert Enabled(s3, Commit(0, 0, 7, 1));
    var s4 := Apply(s3, Commit(0, 0, 7, 1));
    hide Apply, Exec, Legal, Enabled;
    acts := FourActions(INIT, Begin(0, b), s1, Evaluate(0), s2, Acquire(0), s3, Commit(0, 0, 7, 1), s4);
  }

  lemma FourActions(s: State, a: Action, s1: State, b: Action, s2: State, c: Action, s3: State, d: Action, s4: State) returns (acts: seq<Action>)
    requires Enabled(s, a) && s1 == Apply(s, a)
    requires Enabled(s1, b) && s2 == Apply(s1, b)
    requires Enabled(s2, c) && s3 == Apply(s2, c)
    requires Enabled(s3, d) && s4 == Apply(s3, d)
    ensures Legal(s, acts) && Exec(s, acts) == s4
  {
    hide Apply, Enabled;
    acts := [a, b, c, d];
    assert acts[1..] == [b, c, d] && [b, c, d][1..] == [c, d] && [c, d][1..] == [d] && [d][1..] == [];
    assert Legal(s3, [d]) && Exec(s3, [d]) == s4;
    assert Legal(s2, [c, d]) && Exec(s2, [c, d]) == s4;
    assert Legal(s1, [b, c, d]) && Exec(s1, [b, c, d]) == s4;
  }

  ghost predicate HasLateWriter(s: State, c: Claim) {
    && 1 in s.txs && s.txs[1].Locked? && s.txs[1].body == Fenced(c, None)
    && HeldBy(RowOf(s, c.name), c) && RowOf(s, c.name).expires < s.now && s.log == [Claimed(c)]
  }

  /** The write is checked and locked, and then the lease runs out. */
  lemma TraceOfLateWriter(s: State, c: Claim) returns (acts: seq<Action>)
    requires c == Claim("m", 7, 1)
    requires s == State(0, map["m" := Held(1, 7, 1, MICROS)], map[1 := Run(Running, 0)], map[], [Claimed(c)], map[], map[])
    ensures Legal(s, acts) && HasLateWriter(Exec(s, acts), c)
  {
    var b, row := Fenced(c, None), Held(1, 7, 1, MICROS);
    var s1 := Apply(s, Begin(1, b));
    assert s1 == s.(txs := map[1 := Began(b)]);
    var s2 := Apply(s1, Evaluate(1));
    assert s2 == s.(txs := map[1 := Evaluated(b, row, 0)]);
    var s3 := Apply(s2, Acquire(1));
    assert s3 == s.(txs := map[1 := Locked(b, 0, [])], locks := map["m" := 1]);
    var s4 := Apply(s3, Tick(2 * MICROS));
    hide Apply, Exec, Legal, Enabled;
    acts := FourActions(s, Begin(1, b), s1, Evaluate(1), s2, Acquire(1), s3, Tick(2 * MICROS), s4);
  }

  lemma ClaimInLog(s: State, c: Claim)
    requires HasLateWriter(s, c)
    ensures Issued(s, c)
  {
    assert s.log[0].claim == c;
  }

  lemma LateWriter(s: State, c: Claim)
    requires HasLateWriter(s, c)
    ensures HeldBy(RowOf(s, c.name), c) && RowOf(s, c.name).expires < s.now
    ensures 1 in s.txs && s.txs[1].Locked? && SawLive(s.txs[1], RowOf(s, c.name), c)
  {
  }

  // ------------------------------------------------------- one writer at a time

  function WritesOf(e: Event): seq<RowWrite> {
    match e
    case Wrote(_, ws) => ws
    case Closed(_, ws) => ws
    case _ => []
  }

  /** The tables that a history leaves. */
  function Replay(log: seq<Event>): map<(string, string), string> {
    if log == [] then map[] else ApplyWrites(Replay(log[..|log| - 1]), WritesOf(log[|log| - 1]))
  }

  lemma NoWrites(tables: map<(string, string), string>)
    ensures ApplyWrites(tables, []) == tables
  {
  }

  lemma CommitTables(s: State, t: nat, stamp: Time, token: nat, run: nat)
    requires t in s.txs && s.txs[t].Locked?
    ensures var s0 := CommitEffect(s, t, stamp, token, run);
            || (s0.log == s.log && s0.tables == s.tables)
            || exists e :: s0.log == s.log + [e] && s0.tables == ApplyWrites(s.tables, WritesOf(e))
  {
    NoWrites(s.tables);
    hide ApplyWrites, FailOvertaken, HeldBy;
    var s0 := CommitEffect(s, t, stamp, token, run);
    if s0.log != s.log {
      var e := s0.log[|s.log|];
      assert s0.log == s.log + [e] && s0.tables == ApplyWrites(s.tables, WritesOf(e));
    }
  }

  lemma ReplayOneMore(log: seq<Event>, e: Event)
    ensures Replay(log + [e]) == ApplyWrites(Replay(log), WritesOf(e))
  {
    assert (log + [e])[..|log|] == log;
  }

  lemma TablesStep(s: State, a: Action)
    requires s.tables == Replay(s.log) && Enabled(s, a)
    ensures Apply(s, a).tables == Replay(Apply(s, a).log)
  {
    if a.Commit? {
      CommitTables(s, a.t, a.stamp, a.token, a.run);
      var s0 := CommitEffect(s, a.t, a.stamp, a.token, a.run);
      hide CommitEffect, Replay, ApplyWrites, WritesOf;
      if s0.log != s.log {
        var e :| s0.log == s.log + [e] && s0.tables == ApplyWrites(s.tables, WritesOf(e));
        ReplayOneMore(s.log, e);
      }
    } else {
      OnlyCommitsMatter(s, a);
    }
  }

  /** At every moment the tables are what the committed transactions have written, in the order of their commits. */
  lemma {:induction false} TablesAreReplayed(s: State, acts: seq<Action>)
    requires s.tables == Replay(s.log) && Legal(s, acts)
    ensures Exec(s, acts).tables == Replay(Exec(s, acts).log)
    decreases |acts|
  {
    if acts != [] {
      TablesStep(s, acts[0]);
      hide Replay, Apply;
      TablesAreReplayed(Apply(s, acts[0]), acts[1..]);
    }
  }

  /** What the transactions of one claim have written, in the order of their commits. */
  function WritesOfClaim(log: seq<Event>, c: Claim): seq<RowWrite> {
    if log == [] then []
    else WritesOfClaim(log[..|log| - 1], c) + if log[|log| - 1].claim == c then WritesOf(log[|log| - 1]) else []
  }

  lemma {:induction false} WritesCompose(tables: map<(string, string), string>, a: seq<RowWrite>, b: seq<RowWrite>)
    ensures ApplyWrites(tables, a + b) == ApplyWrites(ApplyWrites(tables, a), b)
  {
    if b == [] {
      assert a + b == a;
    } else {
      WritesCompose(tables, a, b[..|b| - 1]);
      assert (a + b)[..|a + b| - 1] == a + b[..|b| - 1];
    }
  }

  lemma WritesOneMore(log: seq<Event>, c: Claim, e: Event)
    ensures WritesOfClaim(log + [e], c) == WritesOfClaim(log, c) + if e.claim == c then WritesOf(e) else []
  {
    assert (log + [e])[..|log|] == log;
  }

  lemma {:induction false} ReplayOfOneWriter(before: seq<Event>, log: seq<Event>, c: Claim)
    requires forall k :: 0 <= k < |log| ==> log[k].claim == c || WritesOf(log[k]) == []
    ensures Replay(before + log) == ApplyWrites(Replay(before), WritesOfClaim(log, c))
  {
    if log == [] {
      assert before + log == before;
      NoWrites(Replay(before));
    } else {
      var front, e := log[..|log| - 1], log[|log| - 1];
      assert log == front + [e] && before + log == (before + front) + [e];
      ReplayOfOneWriter(before, front, c);
      hide Replay, WritesOfClaim, ApplyWrites, WritesOf;
      ReplayOneMore(before + front, e);
      WritesOneMore(front, c, e);
      NoWrites(ApplyWrites(Replay(before), WritesOfClaim(front, c)));
      var own := WritesOfClaim(front, c);
      if e.claim == c { WritesCompose(Replay(before), own, WritesOf(e)); } else { assert own + [] == own; }
    }
  }

  /** The transactions between the `i`-th and the `j`-th commit, the latter included, write under one claim only. */
  ghost predicate OneWriter(log: seq<Event>, i: nat, j: nat, c: Claim)
    requires i < j < |log|
  {
    Replay(log[..j + 1]) == ApplyWrites(Replay(log[..i + 1]), WritesOfClaim(log[i + 1..j + 1], c))
  }

  lemma OneWriterOnLog(log: seq<Event>, i: nat, j: nat, c: Claim)
    requires Contiguous(log) && i < j < |log| && log[i].claim == c && log[j].claim == c
    ensures forall k :: i <= k <= j && log[k].claim.name == c.name ==> log[k].claim == c
    ensures (forall k :: i <= k <= j ==> log[k].claim.name == c.name || WritesOf(log[k]) == []) ==> OneWriter(log, i, j, c)
  {
    hide Replay, WritesOfClaim, ApplyWrites, WritesOf;
    assert forall k :: i < k < j && log[k].claim.name == c.name ==> log[k].claim == c;
    hide Contiguous;
    var run := log[i + 1..j + 1];
    assert log[..j + 1] == log[..i + 1] + run;
    if forall k :: i <= k <= j ==> log[k].claim.name == c.name || WritesOf(log[k]) == [] {
      forall k | 0 <= k < |run| ensures run[k].claim == c || WritesOf(run[k]) == [] { assert run[k] == log[i + 1 + k]; }
      ReplayOfOneWriter(log[..i + 1], run, c);
    }
  }

  /**
   Between two commits of a claim, as between its claim and the close of its run, its lease sees no other commit;
   so, if nobody writes the tables but under this lease, they change by the claim's own writes and by nothing else.
   */
  lemma RunIsTheOnlyWriter(acts: seq<Action>, i: nat, j: nat, c: Claim)
    requires Legal(INIT, acts) && i < j < |Exec(INIT, acts).log|
    requires Exec(INIT, acts).log[i].claim == c && Exec(INIT, acts).log[j].claim == c
    ensures var log := Exec(INIT, acts).log;
            && (forall k :: i <= k <= j && log[k].claim.name == c.name ==> log[k].claim == c)
            && ((forall k :: i <= k <= j ==> log[k].claim.name == c.name || WritesOf(log[k]) == []) ==> OneWriter(log, i, j, c))
  {
    InvRun(INIT, acts);
    hide *;
    InvMeans(Exec(INIT, acts));
    OneWriterOnLog(Exec(INIT, acts).log, i, j, c);
  }

  // -------------------------------------------------------------- run audit

  lemma TerminalStep(s: State, a: Action, r: nat)
    requires Inv(s) && Enabled(s, a) && r in s.runs && s.runs[r].status != Running
    ensures r in Apply(s, a).runs && Apply(s, a).runs[r] == s.runs[r]
  {
    if a.Commit? && !s.txs[a.t].body.ClaimRun? {
      CommitterOwns(s, a.t);
      var c := s.txs[a.t].body.claim;
      assert NamesRun(s.leases[c.name], c.run);
    }
  }

  /** A terminal audit row never changes again, although the update that writes it does not test the status. */
  lemma {:induction false} TerminalStatusAbsorbs(s: State, acts: seq<Action>, r: nat)
    requires Inv(s) && Legal(s, acts) && r in s.runs && s.runs[r].status != Running
    ensures r in Exec(s, acts).runs && Exec(s, acts).runs[r] == s.runs[r]
    decreases |acts|
  {
    if acts != [] {
      TerminalStep(s, acts[0], r);
      InvStep(s, acts[0]);
      TerminalStatusAbsorbs(Apply(s, acts[0]), acts[1..], r);
    }
  }

  /** The run of a crashed worker is failed, once, by the next claim of its lease that commits. */
  lemma NextClaimFailsCrashedRun(before: seq<Action>, a: Action)
    requires Legal(INIT, before) && Enabled(Exec(INIT, before), a)
    requires var s := Exec(INIT, before);
             a.Commit? && s.txs[a.t].body.ClaimRun? && RowOf(s, s.txs[a.t].body.name).Held?
    ensures var s := Exec(INIT, before); var row := RowOf(s, s.txs[a.t].body.name);
            && row.run in s.runs && s.runs[row.run].status == Running
            && row.run in Apply(s, a).runs && Apply(s, a).runs[row.run] == Run(Failed, s.runs[row.run].errors + 1)
  {
    InvRun(INIT, before);
    var s := Exec(INIT, before);
    var name := s.txs[a.t].body.name;
    assert NamesRun(s.leases[name], RowOf(s, name).run);
  }

  /** At every moment one lease has at most one running run, and it is the run of the lease's last claim. */
  lemma OneRunningRunPerLease(acts: seq<Action>, i: nat)
    requires Legal(INIT, acts) && i < |Exec(INIT, acts).log|
    requires var s := Exec(INIT, acts); s.log[i].claim.run in s.runs && s.runs[s.log[i].claim.run].status == Running
    ensures var s := Exec(INIT, acts);
            LastClaim(s.log, s.log[i].claim.name) == Some(s.log[i].claim) && HeldBy(RowOf(s, s.log[i].claim.name), s.log[i].claim)
  {
    InvRun(INIT, acts);
    var s := Exec(INIT, acts);
    var c := s.log[i].claim;
    var n :| n in s.leases && NamesRun(s.leases[n], c.run);
    var l := LastClaimIsLast(s.log, n);
    assert s.log[l].claim.run == c.run;
  }

  /** At every commit point a run row is `running` exactly when a lease row names it. */
  lemma RunningIffNamedByLease(acts: seq<Action>, r: nat)
    requires Legal(INIT, acts) && r in Exec(INIT, acts).runs
    ensures var s := Exec(INIT, acts);
            s.runs[r].status == Running <==> exists n :: n in s.leases && NamesRun(s.leases[n], r)
  {
    InvRun(INIT, acts);
  }
}
