/**
 The semantic response cache: capture of a backend response, the store behind it
 and the replay of an earlier response.  Time is in nanoseconds of one clock.
 */
module SemanticCache {
  import opened Common
  import opened ScopeKey

  type Byte = b: int | 0 <= b < 256
  type Bytes = seq<Byte>

  const SECOND := 1_000_000_000
  const OK_STATUS := 200

  function Unix(t: nat): nat { t / SECOND }

  predicate Successful(status: nat) { 200 <= status < 300 }

  /** A status that announces another one: the connection does not take it for the final status. */
  predicate Informational(status: nat) { 100 <= status < 200 && status != 101 }

  // -------------------------------------------------------------- capture

  /** What a handler does with its response writer; the connection accepts a prefix of what is written. */
  datatype Action =
    | Header(code: nat)
    | Write(data: Bytes, accepted: nat, failed: bool)
    | Flush

  /** The captured response and what the client has been sent; status 0 stands for "not yet decided". */
  datatype Response = Response(status: nat, body: Bytes, writeErr: bool, sentStatus: nat, sent: Bytes)

  const FRESH := Response(0, [], false, 0, [])

  ghost predicate Possible(a: Action) {
    match a
    case Header(code) => 100 <= code < 1000
    case Write(data, accepted, _) => accepted <= |data|
    case Flush => true
  }

  function Decided(status: nat, code: nat): nat {
    if status == 0 then code else status
  }

  function Step(r: Response, a: Action): Response
    requires Possible(a)
  {
    match a
    case Header(code) =>
      if r.status != 0 then r
      else if Informational(code) then r.(status := code)
      else r.(status := code, sentStatus := Decided(r.sentStatus, code))
    case Write(data, accepted, failed) =>
      Response(Decided(r.status, OK_STATUS), r.body + data[..accepted], r.writeErr || failed,
               Decided(r.sentStatus, OK_STATUS), r.sent + data[..accepted])
    case Flush => r.(sentStatus := Decided(r.sentStatus, OK_STATUS))
  }

  function Respond(actions: seq<Action>): Response
    requires forall a :: a in actions ==> Possible(a)
  {
    if actions == [] then FRESH else Step(Respond(actions[..|actions| - 1]), actions[|actions| - 1])
  }

  function StatusCode(status: nat): nat {
    Decided(status, OK_STATUS)
  }

  predicate Storable(r: Response) {
    !r.writeErr && Successful(StatusCode(r.status))
  }

  /** The connection of `net/http` as the capture sees it. */
  class Connection {
    var status: nat
    var sent: Bytes

    constructor ()
      ensures status == 0 && sent == []
    {
      status, sent := 0, [];
    }

    method WriteHeader(code: nat)
      modifies this
      ensures sent == old(sent)
      ensures status == if Informational(code) then old(status) else Decided(old(status), code)
    {
      if !Informational(code) && status == 0 { status := code; }
    }

    method Write(data: Bytes, accepted: nat)
      requires accepted <= |data|
      modifies this
      ensures status == Decided(old(status), OK_STATUS) && sent == old(sent) + data[..accepted]
    {
      if status == 0 { status := OK_STATUS; }
      sent := sent + data[..accepted];
    }

    method Flush()
      modifies this
      ensures status == Decided(old(status), OK_STATUS) && sent == old(sent)
    {
      if status == 0 { status := OK_STATUS; }
    }
  }

  class CaptureResponseWriter {
    const inner: Connection
    var status: nat
    var body: Bytes
    var writeErr: bool

    ghost function State(): Response
      reads this, inner
    {
      Response(status, body, writeErr, inner.status, inner.sent)
    }

    constructor (connection: Connection)
      requires connection.status == 0 && connection.sent == []
      ensures inner == connection && State() == FRESH
    {
      inner, status, body, writeErr := connection, 0, [], false;
    }

    method WriteHeader(code: nat)
      requires 100 <= code < 1000
      modifies this, inner
      ensures State() == Step(old(State()), Header(code))
    {
      if status != 0 { return; }
      status := code;
      inner.WriteHeader(code);
    }

    method Write(data: Bytes, accepted: nat, failed: bool)
      requires accepted <= |data|
      modifies this, inner
      ensures State() == Step(old(State()), Action.Write(data, accepted, failed))
    {
      if status == 0 { status := OK_STATUS; }
      inner.Write(data, accepted);
      if accepted > 0 { body := body + data[..accepted]; }
      if failed { writeErr := true; }
    }

    method Flush()
      modifies inner
      ensures State() == Step(old(State()), Action.Flush)
    {
      inner.Flush();
    }
  }

  /** How the captured response relates to the sent one. */
  ghost predicate Agrees(r: Response) {
    && r.body == r.sent
    && (r.sentStatus == 0 ==> r.status == 0 || Informational(r.status))
    && (r.sentStatus != 0 ==> r.sentStatus == OK_STATUS || r.sentStatus == r.status)
  }

  /** Whatever the handler does, the captured body is the sent body, and a storable response was a success for the client. */
  lemma {:induction false} CaptureIsWhatWasSent(actions: seq<Action>)
    requires forall a :: a in actions ==> Possible(a)
    ensures var r := Respond(actions); Agrees(r)
    ensures var r := Respond(actions); Storable(r) ==> r.body == r.sent && Successful(StatusCode(r.sentStatus))
  {
    if actions != [] { CaptureIsWhatWasSent(actions[..|actions| - 1]); }
  }

  function DirectStep(status: nat, a: Action): nat {
    match a
    case Header(code) => if Informational(code) then status else Decided(status, code)
    case Write(_, _, _) => Decided(status, OK_STATUS)
    case Flush => Decided(status, OK_STATUS)
  }

  /** The status the client would get from the handler without the capture. */
  function DirectStatus(actions: seq<Action>): nat {
    if actions == [] then 0 else DirectStep(DirectStatus(actions[..|actions| - 1]), actions[|actions| - 1])
  }

  predicate Announces(a: Action) {
    a.Header? && Informational(a.code)
  }

  /** The `j`-th call sets a final status other than 200, and before it there were informational ones and nothing else. */
  predicate FinalAfterInformational(actions: seq<Action>, j: nat)
    requires j < |actions|
  {
    && j > 0 && (forall k :: 0 <= k < j ==> Announces(actions[k]))
    && actions[j].Header? && !Informational(actions[j].code) && actions[j].code != OK_STATUS
  }

  /**
   The capture keeps the handler's first status only.  The client is sent another status than the handler's,
   namely 200, exactly when the handler announces with informational statuses and then, before anything else,
   sets a final status other than 200.  This is the capture alone, on a connection that does not mask anything.
   */
  lemma CaptureMasksFinalStatus(actions: seq<Action>)
    requires forall a :: a in actions ==> Possible(a)
    ensures var sent, direct := StatusCode(Respond(actions).sentStatus), StatusCode(DirectStatus(actions));
            && (sent != direct <==> Masks(actions))
            && (sent != direct ==> sent == OK_STATUS)
  {
    CaptureVersusDirect(actions);
  }

  predicate OnlyAnnounced(r: Response, direct: nat) {
    r.sentStatus == 0 && direct == 0 && (r.status == 0 || Informational(r.status))
  }

  predicate Masked(r: Response, direct: nat) {
    Informational(r.status) && r.sentStatus in {0, OK_STATUS} && direct !in {0, OK_STATUS}
  }

  predicate Same(r: Response, direct: nat) {
    direct != 0 && StatusCode(r.sentStatus) == direct && (r.sentStatus == 0 ==> Informational(r.status) && direct == OK_STATUS)
  }

  lemma CaptureStep(r: Response, direct: nat, a: Action)
    requires Possible(a)
    ensures var next, final := Step(r, a), DirectStep(direct, a);
            && (Masked(r, direct) ==> Masked(next, final)) && (Same(r, direct) ==> Same(next, final))
            && (OnlyAnnounced(r, direct) ==>
                  if Announces(a) then OnlyAnnounced(next, final) && next.status != 0
                  else if r.status != 0 && a.Header? && a.code != OK_STATUS then Masked(next, final)
                  else Same(next, final))
  {
  }

  ghost predicate AllAnnounce(actions: seq<Action>) {
    forall k :: 0 <= k < |actions| ==> Announces(actions[k])
  }

  ghost predicate Masks(actions: seq<Action>) {
    exists j :: 0 <= j < |actions| && FinalAfterInformational(actions, j)
  }

  lemma MasksOneMore(actions: seq<Action>)
    requires actions != []
    ensures var front, last := actions[..|actions| - 1], actions[|actions| - 1];
            && (AllAnnounce(actions) <==> AllAnnounce(front) && Announces(last))
            && (Masks(actions) <==>
                  (Masks(front) || (front != [] && AllAnnounce(front) && !Announces(last) && last.Header? && last.code != OK_STATUS)))
            && !(AllAnnounce(front) && Masks(front))
  {
    var n := |actions| - 1;
    var front := actions[..n];
    assert forall j :: 0 <= j < n ==> (FinalAfterInformational(front, j) <==> FinalAfterInformational(actions, j));
    hide Informational;
    if Masks(front) {
      var j :| 0 <= j < n && FinalAfterInformational(front, j);
      assert FinalAfterInformational(actions, j) && !Announces(front[j]);
    }
    assert FinalAfterInformational(actions, n) <==>
             front != [] && AllAnnounce(front) && actions[n].Header? && !Announces(actions[n]) && actions[n].code != OK_STATUS;
  }

  /** What the calls so far have come to: only announcements, a masked final status, or one status on both sides. */
  lemma {:induction false} CaptureVersusDirect(actions: seq<Action>)
    requires forall a :: a in actions ==> Possible(a)
    ensures var r, direct := Respond(actions), DirectStatus(actions);
            if AllAnnounce(actions) then OnlyAnnounced(r, direct) && (r.status == 0 <==> actions == [])
            else if Masks(actions) then Masked(r, direct)
            else Same(r, direct)
  {
    if actions != [] {
      var front, last := actions[..|actions| - 1], actions[|actions| - 1];
      CaptureVersusDirect(front);
      assert Possible(last);
      MasksOneMore(actions);
      CaptureStep(Respond(front), DirectStatus(front), last);
      hide Masks, AllAnnounce, OnlyAnnounced, Masked, Same, Step, DirectStep, Announces;
    }
  }

  /** A handler that announces with 103 and then answers 404 reaches its client as a 200. */
  lemma EarlyHintsMaskNotFound()
    ensures StatusCode(Respond([Header(103), Header(404)]).sentStatus) == OK_STATUS
    ensures StatusCode(DirectStatus([Header(103), Header(404)])) == 404
  {
    var actions := [Header(103), Header(404)];
    assert actions[..1] == [Header(103)] && [Header(103)][..0] == [];
    assert forall a :: a in actions ==> Possible(a);
  }

  // ---------------------------------------------------------------- store

  datatype Entry = Entry(
    prompt: string, scopeHash: string, model: string, systemHash: string, paramsHash: string, stream: bool,
    status: nat, contentType: string, body: Bytes, expiresAt: nat)

  /**
   A Redis hash, and the instant from which it is gone.  Counting a hit of a key that is gone creates one that
   holds the counter alone and is never dropped.
   */
  datatype Row = Row(entry: Option<Entry>, hits: nat, dropAt: Option<nat>)
  type Rows = map<string, Row>

  /** What a lifetime becomes on its way to Redis: whole seconds, at least one. */
  function RedisLifetime(ttl: nat): nat {
    if ttl < SECOND then SECOND else ttl - ttl % SECOND
  }

  predicate Kept(row: Row, now: nat) {
    row.dropAt.Some? ==> now < row.dropAt.value
  }

  datatype Hit = Hit(key: string, similarity: real, status: nat, contentType: string, body: Bytes)

  /** The nearest stored vector, as the index reports it. */
  datatype Neighbor = Neighbor(key: string, similarity: real)

  /** A row that may answer a request of this scope: asked at `asked`, and read by Redis at `read`. */
  predicate Servable(rows: Rows, key: string, scopeHash: string, asked: nat, read: nat) {
    && key in rows && Kept(rows[key], read) && rows[key].entry.Some?
    && rows[key].entry.value.scopeHash == scopeHash
    && Unix(asked) <= rows[key].entry.value.expiresAt
  }

  function HitOn(rows: Rows, key: string, similarity: real): Hit
    requires key in rows && rows[key].entry.Some?
  {
    var e := rows[key].entry.value;
    Hit(key, similarity, e.status, e.contentType, e.body)
  }

  /** What `HGETALL` answers: nothing once Redis has dropped the key. */
  function Fetch(rows: Rows, key: string, read: nat): Option<Row> {
    if key in rows && Kept(rows[key], read) then Some(rows[key]) else None
  }

  method LookupExact(rows: Rows, key: string, scopeHash: string, asked: nat, read: nat) returns (hit: Option<Hit>)
    ensures hit.Some? <==> Servable(rows, key, scopeHash, asked, read)
    ensures hit.Some? ==> hit.value == HitOn(rows, key, 1.0)
  {
    var row := Fetch(rows, key, read);
    if row.None? || row.value.entry.None? { return None; }
    var entry := row.value.entry.value;
    if entry.scopeHash != scopeHash || entry.expiresAt < Unix(asked) { return None; }
    return Some(Hit(key, 1.0, entry.status, entry.contentType, entry.body));
  }

  /** The exact key first, then the nearest neighbour of the scope if it is near enough. */
  method LookupAny(rows: Rows, key: string, scopeHash: string, asked: nat, read: nat, threshold: real, nearest: Option<Neighbor>)
    returns (hit: Option<Hit>)
    requires nearest.Some? ==> Servable(rows, nearest.value.key, scopeHash, asked, read)
    ensures hit.Some? ==> Servable(rows, hit.value.key, scopeHash, asked, read) && hit.value == HitOn(rows, hit.value.key, hit.value.similarity)
    ensures Servable(rows, key, scopeHash, asked, read) ==> hit == Some(HitOn(rows, key, 1.0))
    ensures !Servable(rows, key, scopeHash, asked, read) ==>
              (hit.Some? <==> nearest.Some? && nearest.value.similarity >= threshold)
              && (hit.Some? ==> hit.value.key == nearest.value.key && hit.value.similarity >= threshold)
  {
    hit := LookupExact(rows, key, scopeHash, asked, read);
    if hit.Some? { return; }
    if nearest.None? { return None; }
    if nearest.value.similarity < threshold { return None; }
    hit := Some(HitOn(rows, nearest.value.key, nearest.value.similarity));
  }

  /** A hit is counted in place if the key is still there at `at`. */
  function Counted(rows: Rows, key: string, at: nat): Rows {
    if key in rows && Kept(rows[key], at) then rows[key := rows[key].(hits := rows[key].hits + 1)]
    else rows[key := Row(None, 1, None)]
  }

  // ----------------------------------------------------------- middleware

  datatype CacheRequest = CacheRequest(scope: Scope, prompt: string)

  /** A successful response that reached a client at `at` and was written to the store at `stored`. */
  datatype Delivery = Delivery(request: CacheRequest, response: Response, contentType: string, at: nat, stored: nat)

  function EntryOf(hash: Hash, d: Delivery, ttl: nat): Entry {
    var s := d.request.scope;
    Entry(d.request.prompt, ScopeHash(hash, s), s.model, s.systemHash, s.paramsHash, s.stream,
          StatusCode(d.response.status), d.contentType, d.response.body, Unix(d.at + ttl))
  }

  function DropAt(d: Delivery, ttl: nat): nat {
    d.stored + RedisLifetime(ttl)
  }

  function RowOf(hash: Hash, d: Delivery, ttl: nat, hits: nat): Row {
    Row(Some(EntryOf(hash, d, ttl)), hits, Some(DropAt(d, ttl)))
  }

  /** Every stored entry is the record of the delivery that `origin` names. */
  ghost predicate Traced(hash: Hash, prefix: string, ttl: nat, rows: Rows, log: seq<Delivery>, origin: map<string, nat>) {
    forall key :: key in rows && rows[key].entry.Some? ==>
      && key in origin && origin[key] < |log|
      && var d := log[origin[key]];
      && key == EntryKey(hash, prefix, d.request.scope, d.request.prompt)
      && rows[key] == RowOf(hash, d, ttl, rows[key].hits)
  }

  /** What holds of a delivery that was stored. */
  ghost predicate Delivered(d: Delivery) {
    && WellFormed(d.request.scope)
    && Agrees(d.response) && Storable(d.response) && d.at <= d.stored
  }

  lemma TracedOneMore(hash: Hash, prefix: string, ttl: nat, rows: Rows, log: seq<Delivery>, origin: map<string, nat>, d: Delivery)
    requires Traced(hash, prefix, ttl, rows, log, origin)
    ensures var key := EntryKey(hash, prefix, d.request.scope, d.request.prompt);
            Traced(hash, prefix, ttl, rows[key := RowOf(hash, d, ttl, 0)], log + [d], origin[key := |log|])
  {
    hide EntryKey, EntryOf, DropAt;
    assert forall i :: 0 <= i < |log| ==> (log + [d])[i] == log[i];
  }

  class Cache {
    const hash: Hash
    const prefix: string
    const ttl: nat
    const threshold: real
    var rows: Rows
    ghost var log: seq<Delivery>
    ghost var origin: map<string, nat>

    ghost predicate Valid()
      reads this
    {
      && ttl > 0
      && Traced(hash, prefix, ttl, rows, log, origin)
      && (forall i :: 0 <= i < |log| ==> Delivered(log[i]))
    }

    constructor (hash: Hash, prefix: string, ttl: nat, threshold: real)
      requires ttl > 0 && 0.0 < threshold <= 1.0
      ensures Valid() && rows == map[] && log == []
      ensures this.hash == hash && this.prefix == prefix && this.ttl == ttl && this.threshold == threshold
    {
      this.hash, this.prefix, this.ttl, this.threshold := hash, prefix, ttl, threshold;
      rows, log, origin := map[], [], map[];
    }

    /** Looks a request up; the nearest neighbour is whatever the index found among the servable rows of the scope. */
    method Lookup(request: CacheRequest, asked: nat, read: nat, nearest: Option<Neighbor>) returns (hit: Option<Hit>)
      requires Valid() && WellFormed(request.scope)
      requires nearest.Some? ==> Servable(rows, nearest.value.key, ScopeHash(hash, request.scope), asked, read)
      ensures var scopeHash, key := ScopeHash(hash, request.scope), EntryKey(hash, prefix, request.scope, request.prompt);
              && (hit.Some? ==> Servable(rows, hit.value.key, scopeHash, asked, read)
                                && hit.value == HitOn(rows, hit.value.key, hit.value.similarity))
              && (Servable(rows, key, scopeHash, asked, read) ==> hit == Some(HitOn(rows, key, 1.0)))
              && (nearest.None? && !Servable(rows, key, scopeHash, asked, read) ==> hit.None?)
    {
      var scopeHash, key := KeyOf(hash, prefix, request.scope, request.prompt);
      hit := LookupAny(rows, key, scopeHash, asked, read, threshold, nearest);
    }

    /** After a miss: keeps the captured response if it was a complete success and the store takes it. */
    method Remember(request: CacheRequest, capture: CaptureResponseWriter, contentType: string, now: nat, stored: nat, storeFails: bool)
      requires Valid() && WellFormed(request.scope) && Agrees(capture.State()) && now <= stored
      modifies this
      ensures Valid()
      ensures var r, key := capture.State(), EntryKey(hash, prefix, request.scope, request.prompt);
              var d := Delivery(request, r, contentType, now, stored);
              if Storable(r) && !storeFails then
                && log == old(log) + [d]
                && rows == old(rows)[key := RowOf(hash, d, ttl, 0)]
              else rows == old(rows) && log == old(log)
    {
      hide EntryKey, ScopeHash, WellFormed, Agrees;
      var statusCode := if capture.status == 0 then OK_STATUS else capture.status;
      if capture.writeErr || statusCode < 200 || statusCode >= 300 { return; }
      var scopeHash, key := KeyOf(hash, prefix, request.scope, request.prompt);
      var s := request.scope;
      var entry := Entry(request.prompt, scopeHash, s.model, s.systemHash, s.paramsHash, s.stream,
                         statusCode, contentType, capture.body, Unix(now + ttl));
      if storeFails { return; }
      ghost var d := Delivery(request, capture.State(), contentType, now, stored);
      TracedOneMore(hash, prefix, ttl, rows, log, origin, d);
      rows := rows[key := Row(Some(entry), 0, Some(stored + RedisLifetime(ttl)))];
      origin := origin[key := |log|];
      log := log + [d];
    }

    method IncrementHitCount(key: string, at: nat)
      requires Valid()
      modifies this`rows
      ensures Valid() && rows == Counted(old(rows), key, at)
    {
      var row := Fetch(rows, key, at);
      if row.Some? {
        rows := rows[key := row.value.(hits := row.value.hits + 1)];
      } else {
        rows := rows[key := Row(None, 1, None)];
      }
    }

    /** Redis evicts rows at any time. */
    method Forget(keys: set<string>)
      requires Valid()
      modifies this`rows
      ensures Valid() && rows == old(rows) - keys
    {
      rows := rows - keys;
    }

    /**
     One request.  `nearest` and `evicted` are what Redis answers and evicts in between, `actions` what the
     backend handler does if it is reached.
     */
    method Handle(incoming: Incoming, faults: Faults, nearest: Option<Neighbor>, evicted: set<string>,
                  actions: seq<Action>, contentType: string, times: Times) returns (reply: Reply)
      requires Valid() && times.done <= times.written && forall a :: a in actions ==> Possible(a)
      requires incoming.cacheable.Some? ==> WellFormed(incoming.cacheable.value.scope)
      requires incoming.cacheable.Some? && nearest.Some? ==>
                 Servable(rows, nearest.value.key, ScopeHash(hash, incoming.cacheable.value.scope), times.asked, times.read)
      modifies this
      ensures Valid()
      ensures Bypasses(incoming, faults) ==>
                && reply == Bypassed(DirectStatus(actions), Accepted(actions))
                && rows == old(rows) && log == old(log)
      ensures !Bypasses(incoming, faults) && reply.Missed? ==>
                var r, d := Respond(actions), Delivery(incoming.cacheable.value, Respond(actions), contentType, times.done, times.written);
                var key := EntryKey(hash, prefix, d.request.scope, d.request.prompt);
                && reply.response == r
                && log == (if Storable(r) && !faults.store then old(log) + [d] else old(log))
                && rows == if Storable(r) && !faults.store then old(rows)[key := RowOf(hash, d, ttl, 0)] else old(rows)
      ensures !Bypasses(incoming, faults) && !reply.Missed? ==>
                && reply.Replayed? && log == old(log)
                && Servable(old(rows), reply.hit.key, ScopeHash(hash, incoming.cacheable.value.scope), times.asked, times.read)
                && reply.hit == HitOn(old(rows), reply.hit.key, reply.hit.similarity)
                && rows == if faults.count then old(rows) - evicted else Counted(old(rows) - evicted, reply.hit.key, times.written)
      ensures !Bypasses(incoming, faults) ==>
                var request := incoming.cacheable.value;
                var key := EntryKey(hash, prefix, request.scope, request.prompt);
                Servable(old(rows), key, ScopeHash(hash, request.scope), times.asked, times.read) ==> reply == Replayed(HitOn(old(rows), key, 1.0))
    {
      if incoming.path == EXECUTE_PATH || incoming.policyBypass || incoming.cacheable.None? || faults.embed || faults.index || faults.lookup {
        var connection := new Connection();
        RunDirect(actions, connection);
        return Bypassed(connection.status, connection.sent);
      }
      var request := incoming.cacheable.value;
      var hit := Lookup(request, times.asked, times.read, nearest);
      if hit.Some? {
        Forget(evicted);
        if !faults.count { IncrementHitCount(hit.value.key, times.written); }
        return Replayed(hit.value);
      }
      var connection := new Connection();
      var capture := new CaptureResponseWriter(connection);
      RunCaptured(actions, capture);
      CaptureIsWhatWasSent(actions);
      Remember(request, capture, contentType, times.done, times.written, faults.store);
      reply := Missed(Response(capture.status, capture.body, capture.writeErr, connection.status, connection.sent));
    }
  }

  const EXECUTE_PATH := "/v1/execute"

  /** When a request is looked up, when Redis reads, when the handler has finished and when Redis takes the write or the count. */
  datatype Times = Times(asked: nat, read: nat, done: nat, written: nat)

  datatype Incoming = Incoming(path: string, policyBypass: bool, cacheable: Option<CacheRequest>)
  // What fails: the first three bypass the cache, the last two are ignored.
  datatype Faults = Faults(embed: bool, index: bool, lookup: bool, store: bool, count: bool)
  datatype Reply = Bypassed(status: nat, body: Bytes) | Replayed(hit: Hit) | Missed(response: Response)

  predicate Bypasses(incoming: Incoming, faults: Faults) {
    || incoming.path == EXECUTE_PATH || incoming.policyBypass || incoming.cacheable.None?
    || faults.embed || faults.index || faults.lookup
  }

  /** The bytes the connection accepts from a handler. */
  function Accepted(actions: seq<Action>): Bytes
    requires forall a :: a in actions ==> Possible(a)
  {
    if actions == [] then []
    else
      var last := actions[|actions| - 1];
      assert Possible(last);
      Accepted(actions[..|actions| - 1]) + if last.Write? then last.data[..last.accepted] else []
  }

  method RunDirect(actions: seq<Action>, connection: Connection)
    requires connection.status == 0 && connection.sent == []
    requires forall a :: a in actions ==> Possible(a)
    modifies connection
    ensures connection.status == DirectStatus(actions) && connection.sent == Accepted(actions)
  {
    for i := 0 to |actions|
      invariant connection.status == DirectStatus(actions[..i]) && connection.sent == Accepted(actions[..i])
    {
      assert actions[..i + 1][..i] == actions[..i];
      assert Possible(actions[i]);
      match actions[i] {
        case Header(code) => connection.WriteHeader(code);
        case Write(data, accepted, _) => connection.Write(data, accepted);
        case Flush => connection.Flush();
      }
    }
    assert actions[..|actions|] == actions;
  }

  method RunCaptured(actions: seq<Action>, capture: CaptureResponseWriter)
    requires capture.State() == FRESH
    requires forall a :: a in actions ==> Possible(a)
    modifies capture, capture.inner
    ensures capture.State() == Respond(actions)
  {
    for i := 0 to |actions|
      invariant capture.State() == Respond(actions[..i])
    {
      assert actions[..i + 1][..i] == actions[..i];
      assert Possible(actions[i]);
      match actions[i] {
        case Header(code) => capture.WriteHeader(code);
        case Write(data, accepted, failed) => capture.Write(data, accepted, failed);
        case Flush => capture.Flush();
      }
    }
    assert actions[..|actions|] == actions;
  }

  // --------------------------------------------------------- main results

  /**
   Whatever is replayed was delivered earlier, byte for byte, as a success to a request of the same scope,
   and neither of its two lifetimes is over; under the exact key it answered the same prompt.
   */
  lemma HitReplaysEarlierDelivery(hash: Hash, prefix: string, ttl: nat, rows: Rows, log: seq<Delivery>, origin: map<string, nat>,
                                  request: CacheRequest, key: string, asked: nat, read: nat)
    requires Traced(hash, prefix, ttl, rows, log, origin) && forall i :: 0 <= i < |log| ==> Delivered(log[i])
    requires WellFormed(request.scope) && Servable(rows, key, ScopeHash(hash, request.scope), asked, read)
    requires forall i :: 0 <= i < |log| ==> Trusted(hash, request.scope, request.prompt, log[i].request.scope, log[i].request.prompt)
    ensures key in origin && origin[key] < |log|
    ensures var d := log[origin[key]];
            && d.request.scope == request.scope
            && (key == EntryKey(hash, prefix, request.scope, request.prompt) ==> d.request.prompt == request.prompt)
            && rows[key].entry.value.body == d.response.sent
            && rows[key].entry.value.contentType == d.contentType
            && Successful(StatusCode(d.response.sentStatus))
            && Unix(asked) <= Unix(d.at + ttl) && read < DropAt(d, ttl)
  {
    var d := log[origin[key]];
    assert Delivered(d);
    assert Trusted(hash, request.scope, request.prompt, d.request.scope, d.request.prompt);
    EqualKeysMeanEqualRequests(hash, prefix, request.scope, request.prompt, d.request.scope, d.request.prompt);
    SuccessWasSent(d.response);
  }

  lemma SuccessWasSent(r: Response)
    requires Agrees(r) && Storable(r)
    ensures Successful(StatusCode(r.sentStatus))
  {
  }

  // ------------------------------------------------- how long it is served

  /** The end of the second in which a delivery expires. */
  function EndOfSecond(expiry: nat): nat {
    expiry - expiry % SECOND + SECOND
  }

  /** A repeat of the request of `d` that is looked up at `asked` and read at `read` is answered by its row. */
  ghost predicate Answered(hash: Hash, prefix: string, ttl: nat, d: Delivery, hits: nat, asked: nat, read: nat) {
    var key := EntryKey(hash, prefix, d.request.scope, d.request.prompt);
    Servable(map[key := RowOf(hash, d, ttl, hits)], key, ScopeHash(hash, d.request.scope), asked, read)
  }

  /** A repeat after the write of `d`. */
  predicate Repeats(d: Delivery, asked: nat, read: nat) {
    d.stored <= asked <= read
  }

  /**
   A stored response answers a repeat, unless it is evicted or replaced, exactly while Redis keeps the row and the
   second of its expiry has not passed.
   */
  lemma RepeatIsServedWhile(hash: Hash, prefix: string, ttl: nat, d: Delivery, hits: nat, asked: nat, read: nat)
    ensures Answered(hash, prefix, ttl, d, hits, asked, read) <==> read < DropAt(d, ttl) && asked < EndOfSecond(d.at + ttl)
  {
    hide EntryKey, ScopeHash, DropAt;
    SameSecond(asked, d.at + ttl);
  }

  lemma SameSecond(now: nat, expiry: nat)
    ensures Unix(now) <= Unix(expiry) <==> now < EndOfSecond(expiry)
  {
    assert now == SECOND * Unix(now) + now % SECOND && expiry == SECOND * Unix(expiry) + expiry % SECOND;
  }

  lemma EndIsLater(expiry: nat)
    ensures expiry < EndOfSecond(expiry) <= expiry + SECOND
  {
  }

  /**
   Some repeat is answered after the expiry exactly if Redis keeps the row longer than that, and wrote it before
   the second of the expiry was over.
   */
  lemma SomeLateAnswerIff(hash: Hash, prefix: string, ttl: nat, d: Delivery, hits: nat)
    requires d.at <= d.stored
    ensures (exists asked: nat, read: nat :: Repeats(d, asked, read) && asked >= d.at + ttl && Answered(hash, prefix, ttl, d, hits, asked, read))
            <==> DropAt(d, ttl) > d.at + ttl && d.stored < EndOfSecond(d.at + ttl)
  {
    var expiry := d.at + ttl;
    EndIsLater(expiry);
    hide Answered, EndOfSecond;
    forall asked: nat, read: nat { RepeatIsServedWhile(hash, prefix, ttl, d, hits, asked, read); }
    if DropAt(d, ttl) > expiry && d.stored < EndOfSecond(expiry) {
      var now := if expiry < d.stored then d.stored else expiry;
      assert d.stored < DropAt(d, ttl);
      assert Repeats(d, now, now) && Answered(hash, prefix, ttl, d, hits, now, now);
    }
  }

  /** Every repeat that is read before the expiry is answered exactly if Redis keeps the row up to then. */
  lemma EveryRepeatAnsweredIff(hash: Hash, prefix: string, ttl: nat, d: Delivery, hits: nat)
    requires d.at <= d.stored
    ensures (forall asked: nat, read: nat :: Repeats(d, asked, read) && read < d.at + ttl ==> Answered(hash, prefix, ttl, d, hits, asked, read))
            <==> DropAt(d, ttl) >= d.at + ttl
  {
    var expiry := d.at + ttl;
    EndIsLater(expiry);
    hide Answered, EndOfSecond;
    forall asked: nat, read: nat { RepeatIsServedWhile(hash, prefix, ttl, d, hits, asked, read); }
    if DropAt(d, ttl) < expiry {
      var now := DropAt(d, ttl);
      assert Repeats(d, now, now) && !Answered(hash, prefix, ttl, d, hits, now, now);
    }
  }

  /** A lifetime that reaches Redis undiminished: whole seconds, or less than one. */
  predicate KeptWhole(ttl: nat) {
    ttl < SECOND || ttl % SECOND == 0
  }

  /**
   A configured lifetime is kept, for every delivery however long its write takes, exactly if it is of whole seconds
   or less than one: otherwise Redis drops the row of a quick write too early.
   */
  lemma LifetimeIsKeptIff(hash: Hash, prefix: string, ttl: nat, request: CacheRequest, response: Response, contentType: string)
    ensures (forall d, asked: nat, read: nat :: IsDelivery(d, request, response, contentType) && Repeats(d, asked, read) && read < d.at + ttl ==>
               Answered(hash, prefix, ttl, d, 0, asked, read))
            <==> KeptWhole(ttl)
  {
    hide Answered;
    if KeptWhole(ttl) {
      forall d, asked: nat, read: nat | IsDelivery(d, request, response, contentType) && Repeats(d, asked, read) && read < d.at + ttl
        ensures Answered(hash, prefix, ttl, d, 0, asked, read)
      {
        EveryRepeatAnsweredIff(hash, prefix, ttl, d, 0);
      }
    } else {
      var d := Delivery(request, response, contentType, 0, 0);
      EveryRepeatAnsweredIff(hash, prefix, ttl, d, 0);
      assert IsDelivery(d, request, response, contentType);
    }
  }

  predicate IsDelivery(d: Delivery, request: CacheRequest, response: Response, contentType: string) {
    d.request == request && d.response == response && d.contentType == contentType && d.at <= d.stored
  }

  /** How late an answer can be: with whole seconds by no more than the write took, and never by more than a second. */
  lemma LatenessIsBounded(hash: Hash, prefix: string, ttl: nat, d: Delivery, hits: nat, asked: nat, read: nat)
    requires Answered(hash, prefix, ttl, d, hits, asked, read)
    ensures asked < d.at + ttl + SECOND
    ensures ttl >= SECOND ==> read < d.at + ttl + (d.stored - d.at)
  {
    RepeatIsServedWhile(hash, prefix, ttl, d, hits, asked, read);
    EndIsLater(d.at + ttl);
  }

  /** A lifetime of a nanosecond becomes a second: a response that is written at once is still served 999 milliseconds later. */
  lemma ServedAfterExpiry(hash: Hash, prefix: string, d: Delivery)
    requires d.at == d.stored == 0
    ensures Answered(hash, prefix, 1, d, 0, 999_000_000, 999_000_000)
  {
    RepeatIsServedWhile(hash, prefix, 1, d, 0, 999_000_000, 999_000_000);
  }

  /** A lifetime of a second and a half becomes a second: 1.2 seconds later a response written at once is gone. */
  lemma GoneBeforeExpiry(hash: Hash, prefix: string, d: Delivery)
    requires d.at == d.stored == 0
    ensures !Answered(hash, prefix, 1_500_000_000, d, 0, 1_200_000_000, 1_200_000_000)
  {
    RepeatIsServedWhile(hash, prefix, 1_500_000_000, d, 0, 1_200_000_000, 1_200_000_000);
  }
}
