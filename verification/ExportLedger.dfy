/**
 * Export sessions and their runtime request ledger, as the store's statements keep them
 * (internal/store/postgres/export_sessions.go:499-639), and the calls that change them.
 */
module ExportLedger {
  import opened Common
  import opened Identifiers

  datatype Mode = ReadOnly | ReadWrite

  datatype Status = Active | Revoking | Revoked | Expired | Failed
  {
    predicate Terminal() {
      Revoked? || Expired? || Failed?
    }
  }

  datatype Session = Session(
    namespaceId: string,
    mode: Mode,
    status: Status,
    expiresAt: Time,
    revokedAt: Option<Time>,
    requests: int,
    writes: int)

  datatype RowState = Open | Closed | Recovered

  datatype Row = Row(exportId: string, write: bool, state: RowState, heartbeatExpiresAt: Time)

  /** The scope in which an idempotency key of a terminal reconcile is unique. */
  datatype Scope = Scope(caller: string, namespaceId: string, key: string)

  /** Sessions, runtime request rows, and the scoped keys of finished terminal reconciles. */
  datatype Ledger = Ledger(sessions: map<string, Session>, rows: map<string, Row>, finished: set<Scope>)

  datatype Target = ToRevoked | ToExpired | ToFailed

  function TargetName(target: Target): string {
    match target
    case ToRevoked => "revoked"
    case ToExpired => "expired"
    case ToFailed => "failed"
  }

  function TargetStatus(target: Target): Status {
    match target
    case ToRevoked => Revoked
    case ToExpired => Expired
    case ToFailed => Failed
  }

  /** The idempotency key of a terminal reconcile. */
  function Key(exportId: string, target: Target): string {
    exportId + ":" + TargetName(target)
  }

  datatype Call =
    | Create(exportId: string, session: Session)
    | Begin(requestId: string, exportId: string, startedAt: Time, heartbeatExpiresAt: Time, write: bool,
            restoring: bool)
    | Heartbeat(requestId: string, exportId: string, observedAt: Time, heartbeatExpiresAt: Time)
    | End(requestId: string, exportId: string, endedAt: Time)
    | RecoverStale(now: Time, offered: set<string>)
    | Revoke(exportId: string, now: Time)
    | Reconcile(exportId: string, namespaceId: string, caller: string, target: Target, observedAt: Time, reason: string)

  datatype Answer = Ok | Reused | NoRows | Invalid

  /** validateRuntimeRequestID, on a trimmed id. */
  predicate ValidRequestId(id: string) {
    HasPrefix(id, "errq_") && ValidSuffix(id[5..])
  }

  predicate ValidRequest(requestId: string, exportId: string) {
    ValidRequestId(requestId) && ValidId(ExportId, exportId)
  }

  function OpenOf(ledger: Ledger, exportId: string): set<string> {
    set id | id in ledger.rows && ledger.rows[id].exportId == exportId && ledger.rows[id].state.Open?
  }

  function OpenWritesOf(ledger: Ledger, exportId: string): set<string> {
    set id | id in ledger.rows && ledger.rows[id].exportId == exportId && ledger.rows[id].state.Open?
        && ledger.rows[id].write
  }

  function Weight(write: bool): nat {
    if write then 1 else 0
  }

  /** The ledger with one more open row. */
  function WithOpen(ledger: Ledger, requestId: string, row: Row): Ledger
    requires row.exportId in ledger.sessions
  {
    var s := ledger.sessions[row.exportId];
    var counted := s.(requests := s.requests + 1, writes := s.writes + Weight(row.write));
    ledger.(sessions := ledger.sessions[row.exportId := counted],
            rows := ledger.rows[requestId := row])
  }

  /** The ledger with an open row closed. */
  function WithClosed(ledger: Ledger, requestId: string): Ledger
    requires requestId in ledger.rows && ledger.rows[requestId].exportId in ledger.sessions
  {
    var row := ledger.rows[requestId];
    var s := ledger.sessions[row.exportId];
    var counted := s.(requests := s.requests - 1, writes := s.writes - Weight(row.write));
    ledger.(sessions := ledger.sessions[row.exportId := counted],
            rows := ledger.rows[requestId := row.(state := Closed)])
  }

  /** The ledger with the picked rows recovered. */
  function WithRecovered(ledger: Ledger, picked: set<string>): Ledger {
    ledger.(sessions := map e | e in ledger.sessions ::
              ledger.sessions[e].(requests := ledger.sessions[e].requests - |PickedOf(ledger, picked, e)|,
                                  writes := ledger.sessions[e].writes - |PickedWritesOf(ledger, picked, e)|),
            rows := map id | id in ledger.rows ::
              if id in picked then ledger.rows[id].(state := Recovered) else ledger.rows[id])
  }

  function DoBegin(ledger: Ledger, call: Call): (Ledger, Answer)
    requires call.Begin?
  {
    var id := call.exportId;
    if !ValidRequest(call.requestId, id) || IsZero(call.startedAt) || IsZero(call.heartbeatExpiresAt)
       || call.heartbeatExpiresAt <= call.startedAt then (ledger, Invalid)
    else if call.requestId in ledger.rows then
      var row := ledger.rows[call.requestId];
      if row.exportId == id && row.write == call.write && row.state.Open? && id in ledger.sessions then (ledger, Ok)
      else (ledger, NoRows)
    else if id !in ledger.sessions then (ledger, NoRows)
    else
      var s := ledger.sessions[id];
      if !s.status.Active? || s.expiresAt <= call.startedAt || (call.write && call.restoring) then (ledger, NoRows)
      else
        (WithOpen(ledger, call.requestId, Row(id, call.write, Open, call.heartbeatExpiresAt)), Ok)
  }

  function DoHeartbeat(ledger: Ledger, call: Call): (Ledger, Answer)
    requires call.Heartbeat?
  {
    if !ValidRequest(call.requestId, call.exportId) || IsZero(call.observedAt) || IsZero(call.heartbeatExpiresAt)
       || call.heartbeatExpiresAt <= call.observedAt then (ledger, Invalid)
    else if call.requestId !in ledger.rows then (ledger, NoRows)
    else
      var row := ledger.rows[call.requestId];
      if row.exportId != call.exportId || !row.state.Open? then (ledger, NoRows)
      else
        var until := if call.heartbeatExpiresAt > row.heartbeatExpiresAt
                     then call.heartbeatExpiresAt else row.heartbeatExpiresAt;
        (ledger.(rows := ledger.rows[call.requestId := row.(heartbeatExpiresAt := until)]), Ok)
  }

  /** The drift guard of the closing statement: the aggregate counts must cover the row. */
  predicate CountsCover(s: Session, requests: int, writes: int) {
    s.requests >= requests && s.writes >= writes
  }

  function DoEnd(ledger: Ledger, call: Call): (Ledger, Answer)
    requires call.End?
  {
    var id := call.exportId;
    if !ValidRequest(call.requestId, id) || IsZero(call.endedAt) then (ledger, Invalid)
    else if call.requestId !in ledger.rows || ledger.rows[call.requestId].exportId != id || id !in ledger.sessions then
      (ledger, NoRows)
    else
      var row, s := ledger.rows[call.requestId], ledger.sessions[id];
      var w := Weight(row.write);
      if !row.state.Open? then (ledger, Ok)
      else if !CountsCover(s, 1, w) || s.writes - w > s.requests - 1 then (ledger, NoRows)
      else
        (WithClosed(ledger, call.requestId), Ok)
  }

  function PickedOf(ledger: Ledger, picked: set<string>, exportId: string): set<string> {
    set id | id in picked && id in OpenOf(ledger, exportId)
  }

  function PickedWritesOf(ledger: Ledger, picked: set<string>, exportId: string): set<string> {
    set id | id in picked && id in OpenWritesOf(ledger, exportId)
  }

  /** Every session with picked rows has counts that cover them. */
  predicate GroupsEligible(ledger: Ledger, picked: set<string>) {
    forall id <- picked | id in ledger.rows ::
      && ledger.rows[id].exportId in ledger.sessions
      && CountsCover(ledger.sessions[ledger.rows[id].exportId],
                     |PickedOf(ledger, picked, ledger.rows[id].exportId)|,
                     |PickedWritesOf(ledger, picked, ledger.rows[id].exportId)|)
  }

  /** The rows the statement takes of those offered: open, with a heartbeat that has run out. */
  function StaleAmong(ledger: Ledger, offered: set<string>, now: Time): set<string> {
    set id | id in offered && id in ledger.rows && ledger.rows[id].state.Open?
        && ledger.rows[id].heartbeatExpiresAt <= now
  }

  function DoRecoverStale(ledger: Ledger, call: Call): (Ledger, Answer)
    requires call.RecoverStale?
  {
    var picked := StaleAmong(ledger, call.offered, call.now);
    if IsZero(call.now) then (ledger, Invalid)
    else if !GroupsEligible(ledger, picked) then (ledger, NoRows)
    else (WithRecovered(ledger, picked), Ok)
  }

  function DoRevoke(ledger: Ledger, call: Call): (Ledger, Answer)
    requires call.Revoke?
  {
    var id := call.exportId;
    if id !in ledger.sessions then (ledger, NoRows)
    else
      var s := ledger.sessions[id];
      var revokedAt := if s.revokedAt.Some? then s.revokedAt else Some(call.now);
      var status := if s.status.Terminal() then s.status else Revoking;
      (ledger.(sessions := ledger.sessions[id := s.(status := status, revokedAt := revokedAt)]), Ok)
  }

  predicate Reconcilable(ledger: Ledger, call: Call)
    requires call.Reconcile?
  {
    && call.exportId in ledger.sessions
    && var s := ledger.sessions[call.exportId];
    && s.namespaceId == call.namespaceId && s.requests == 0 && s.writes == 0 && OpenOf(ledger, call.exportId) == {}
    && match call.target
       case ToRevoked => s.status.Revoking? && s.revokedAt.Some?
       case ToExpired => s.status.Active? && s.expiresAt <= call.observedAt
       case ToFailed => true
  }

  function DoReconcile(ledger: Ledger, call: Call): (Ledger, Answer)
    requires call.Reconcile?
  {
    var id, scope := call.exportId, Scope(call.caller, call.namespaceId, Key(call.exportId, call.target));
    if IsZero(call.observedAt) || (call.target.ToFailed? && Blank(call.reason)) then (ledger, Invalid)
    else if scope in ledger.finished then
      if id in ledger.sessions && ledger.sessions[id].namespaceId == call.namespaceId
      then (ledger, Reused) else (ledger, NoRows)
    else if !Reconcilable(ledger, call) then (ledger, NoRows)
    else
      var ended := ledger.sessions[id].(status := TargetStatus(call.target), requests := 0, writes := 0);
      (ledger.(sessions := ledger.sessions[id := ended],
               finished := ledger.finished + {scope}),
       Ok)
  }

  function Do(ledger: Ledger, call: Call): (Ledger, Answer) {
    match call
    case Create(id, s) =>
      if id in ledger.sessions then (ledger, Invalid)
      else
        var made := s.(status := Active, revokedAt := None, requests := 0, writes := 0);
        (ledger.(sessions := ledger.sessions[id := made]), Ok)
    case Begin(_, _, _, _, _, _) => DoBegin(ledger, call)
    case Heartbeat(_, _, _, _) => DoHeartbeat(ledger, call)
    case End(_, _, _) => DoEnd(ledger, call)
    case RecoverStale(_, _) => DoRecoverStale(ledger, call)
    case Revoke(_, _) => DoRevoke(ledger, call)
    case Reconcile(_, _, _, _, _, _) => DoReconcile(ledger, call)
  }

  /** Calls that components make: the gateway sends a write request only for a read-write session. */
  predicate Sendable(ledger: Ledger, call: Call) {
    call.Begin? && call.write && call.exportId in ledger.sessions ==> ledger.sessions[call.exportId].mode.ReadWrite?
  }

  /* ---------- The invariant ---------- */

  predicate SessionOk(ledger: Ledger, id: string)
    requires id in ledger.sessions
  {
    var s := ledger.sessions[id];
    && s.requests == |OpenOf(ledger, id)|
    && s.writes == |OpenWritesOf(ledger, id)|
    && (s.status.Terminal() ==> OpenOf(ledger, id) == {})
    && (s.status.Revoking? ==> s.revokedAt.Some?)
  }

  predicate SessionsOk(ledger: Ledger) {
    forall id <- ledger.sessions :: SessionOk(ledger, id)
  }

  /** Every row belongs to a session, and a write row to a read-write one. */
  predicate RowsOk(ledger: Ledger) {
    forall id <- ledger.rows :: ledger.rows[id].exportId in ledger.sessions
                                && (ledger.rows[id].write ==> ledger.sessions[ledger.rows[id].exportId].mode.ReadWrite?)
  }

  predicate FinishedOk(ledger: Ledger) {
    forall scope <- ledger.finished :: FinishedSession(ledger, scope.key)
  }

  predicate LedgerOk(ledger: Ledger) {
    SessionsOk(ledger) && RowsOk(ledger) && FinishedOk(ledger)
  }

  predicate IsKeyOf(key: string, id: string) {
    key == Key(id, ToRevoked) || key == Key(id, ToExpired) || key == Key(id, ToFailed)
  }

  /** A finished key is that of a session that has reached a terminal status. */
  predicate FinishedSession(ledger: Ledger, key: string) {
    exists id <- ledger.sessions :: ledger.sessions[id].status.Terminal() && IsKeyOf(key, id)
  }

  /** Writes are among requests, so their count never exceeds the request count. */
  lemma WritesWithinRequests(ledger: Ledger, id: string)
    requires LedgerOk(ledger) && id in ledger.sessions
    ensures 0 <= ledger.sessions[id].writes <= ledger.sessions[id].requests
  {
    SubsetSize(OpenWritesOf(ledger, id), OpenOf(ledger, id));
  }

  lemma SubsetSize(a: set<string>, b: set<string>)
    requires a <= b
    ensures |a| <= |b|
  {
    assert b == a + (b - a);
  }

  predicate NoColon(s: string) {
    ':' !in s
  }

  /** Keys of different session and target pairs differ, because target names hold no colon. */
  lemma KeysDiffer(a: string, s: Target, b: string, t: Target)
    ensures Key(a, s) == Key(b, t) ==> a == b && s == t
  {
    var x, y := Key(a, s), Key(b, t);
    assert NoColon(TargetName(s)) && NoColon(TargetName(t));
    if x == y {
      LastColon(a, TargetName(s), b, TargetName(t));
      assert "revoked"[0] != "expired"[0] && "revoked"[0] != "failed"[0] && "expired"[0] != "failed"[0];
    }
  }

  /** A name without a colon is what stands after the last colon. */
  lemma LastColon(a: string, n: string, b: string, m: string)
    requires NoColon(n) && NoColon(m) && a + ":" + n == b + ":" + m
    ensures a == b && n == m
  {
    var x, y := a + ":" + n, b + ":" + m;
    assert x[|a|] == ':' && y[|b|] == ':';
    assert forall i | |a| < i < |x| :: x[i] == n[i - |a| - 1] != ':';
    assert forall i | |b| < i < |y| :: y[i] == m[i - |b| - 1] != ':';
    assert |a| == |b|;
    assert x[..|a|] == a && y[..|b|] == b && x[|a| + 1..] == n && y[|b| + 1..] == m;
  }

  /* ---------- Every call keeps the invariant ---------- */

  /** The sets of open rows do not depend on sessions or finished keys. */
  lemma SameRowsSameOpen(before: Ledger, after: Ledger, id: string)
    requires before.rows == after.rows
    ensures OpenOf(after, id) == OpenOf(before, id) && OpenWritesOf(after, id) == OpenWritesOf(before, id)
  {
  }

  lemma OpenAfterBegin(before: Ledger, after: Ledger, requestId: string, row: Row, id: string)
    requires requestId !in before.rows && row.state.Open? && after.rows == before.rows[requestId := row]
    ensures |OpenOf(after, id)| == |OpenOf(before, id)| + if row.exportId == id then 1 else 0
    ensures |OpenWritesOf(after, id)| == |OpenWritesOf(before, id)| + if row.exportId == id && row.write then 1 else 0
    ensures row.exportId != id ==> OpenOf(after, id) == OpenOf(before, id)
  {
    if row.exportId == id {
      assert OpenOf(after, id) == OpenOf(before, id) + {requestId};
    } else {
      assert OpenOf(after, id) == OpenOf(before, id);
    }
    if row.exportId == id && row.write {
      assert OpenWritesOf(after, id) == OpenWritesOf(before, id) + {requestId};
    } else {
      assert OpenWritesOf(after, id) == OpenWritesOf(before, id);
    }
  }

  lemma OpenAfterEnd(before: Ledger, after: Ledger, requestId: string, id: string)
    requires requestId in before.rows && before.rows[requestId].state.Open?
    requires after.rows == before.rows[requestId := before.rows[requestId].(state := Closed)]
    ensures var row := before.rows[requestId];
            && |OpenOf(after, id)| == |OpenOf(before, id)| - (if row.exportId == id then 1 else 0)
            && |OpenWritesOf(after, id)|
               == |OpenWritesOf(before, id)| - (if row.exportId == id && row.write then 1 else 0)
            && OpenOf(after, id) <= OpenOf(before, id)
  {
    var row := before.rows[requestId];
    assert row.exportId == id ==> requestId in OpenOf(before, id);
    assert row.exportId == id && row.write ==> requestId in OpenWritesOf(before, id);
    assert OpenOf(after, id) == OpenOf(before, id) - {requestId};
    assert OpenWritesOf(after, id) == OpenWritesOf(before, id) - {requestId};
  }

  lemma Subtraction(whole: set<string>, gone: set<string>, left: set<string>)
    requires gone <= whole && forall x :: x in left <==> x in whole && x !in gone
    ensures |left| == |whole| - |gone| && left <= whole
  {
    assert left == whole - gone;
  }

  lemma OpenAfterRecovery(before: Ledger, after: Ledger, picked: set<string>, id: string)
    requires after.rows.Keys == before.rows.Keys
    requires forall r <- before.rows ::
               after.rows[r] == if r in picked then before.rows[r].(state := Recovered) else before.rows[r]
    ensures |OpenOf(after, id)| == |OpenOf(before, id)| - |PickedOf(before, picked, id)|
    ensures |OpenWritesOf(after, id)| == |OpenWritesOf(before, id)| - |PickedWritesOf(before, picked, id)|
    ensures OpenOf(after, id) <= OpenOf(before, id)
  {
    Subtraction(OpenOf(before, id), PickedOf(before, picked, id), OpenOf(after, id));
    Subtraction(OpenWritesOf(before, id), PickedWritesOf(before, picked, id), OpenWritesOf(after, id));
  }

  /**
   * A later ledger: sessions, modes and rows are kept; a terminal session stays terminal, its status
   * changing at most to failed; a closed row stays as it is; and no finished key is forgotten.
   */
  predicate Follows(before: Ledger, after: Ledger) {
    && before.finished <= after.finished
    && (forall id <- before.sessions ::
          && id in after.sessions
          && after.sessions[id].mode == before.sessions[id].mode
          && after.sessions[id].namespaceId == before.sessions[id].namespaceId
          && (before.sessions[id].status.Terminal() ==>
                after.sessions[id].status == before.sessions[id].status || after.sessions[id].status.Failed?))
    && (forall id <- before.rows ::
          && id in after.rows
          && after.rows[id].exportId == before.rows[id].exportId
          && after.rows[id].write == before.rows[id].write
          && (!before.rows[id].state.Open? ==> after.rows[id].state == before.rows[id].state))
  }

  lemma OpenedSessionOk(ledger: Ledger, requestId: string, row: Row, id: string)
    requires LedgerOk(ledger) && requestId !in ledger.rows && row.state.Open? && row.exportId in ledger.sessions
    requires !ledger.sessions[row.exportId].status.Terminal() && id in ledger.sessions
    ensures SessionOk(WithOpen(ledger, requestId, row), id)
  {
    assert SessionOk(ledger, id);
    OpenAfterBegin(ledger, WithOpen(ledger, requestId, row), requestId, row, id);
  }

  lemma WithOpenKeeps(ledger: Ledger, requestId: string, row: Row)
    requires LedgerOk(ledger) && requestId !in ledger.rows && row.state.Open? && row.exportId in ledger.sessions
    requires !ledger.sessions[row.exportId].status.Terminal()
    requires row.write ==> ledger.sessions[row.exportId].mode.ReadWrite?
    ensures LedgerOk(WithOpen(ledger, requestId, row)) && Follows(ledger, WithOpen(ledger, requestId, row))
  {
    var after := WithOpen(ledger, requestId, row);
    forall id <- after.sessions ensures SessionOk(after, id) {
      OpenedSessionOk(ledger, requestId, row, id);
    }
    FinishedStays(ledger, after);
  }

  lemma BeginDoes(ledger: Ledger, call: Call)
    requires call.Begin?
    ensures || DoBegin(ledger, call).0 == ledger
            || (&& call.requestId !in ledger.rows && call.exportId in ledger.sessions
                && ledger.sessions[call.exportId].status.Active?
                && DoBegin(ledger, call).0
                   == WithOpen(ledger, call.requestId, Row(call.exportId, call.write, Open, call.heartbeatExpiresAt)))
  {
  }

  lemma BeginKeeps(ledger: Ledger, call: Call)
    requires LedgerOk(ledger) && call.Begin? && Sendable(ledger, call)
    ensures LedgerOk(DoBegin(ledger, call).0) && Follows(ledger, DoBegin(ledger, call).0)
  {
    BeginDoes(ledger, call);
    FollowsItself(ledger);
    if DoBegin(ledger, call).0 != ledger {
      WithOpenKeeps(ledger, call.requestId, Row(call.exportId, call.write, Open, call.heartbeatExpiresAt));
    }
  }

  lemma FollowsOn(a: Ledger, b: Ledger, c: Ledger)
    requires Follows(a, b) && Follows(b, c)
    ensures Follows(a, c)
  {
  }

  lemma FollowsItself(ledger: Ledger)
    ensures Follows(ledger, ledger)
  {
  }

  /** Statuses and keys carry over when no session leaves a terminal status. */
  lemma FinishedStays(before: Ledger, after: Ledger)
    requires LedgerOk(before) && before.finished == after.finished
    requires forall id <- before.sessions :: id in after.sessions
               && (before.sessions[id].status.Terminal() ==> after.sessions[id].status.Terminal())
    ensures FinishedOk(after)
  {
    forall scope <- after.finished ensures FinishedSession(after, scope.key) {
      assert FinishedSession(before, scope.key);
    }
  }

  /** Rows that differ in their heartbeat only. */
  predicate SameButHeartbeats(before: Ledger, after: Ledger) {
    && before.sessions == after.sessions && before.finished == after.finished && before.rows.Keys == after.rows.Keys
    && forall id <- before.rows ::
       after.rows[id] == before.rows[id].(heartbeatExpiresAt := after.rows[id].heartbeatExpiresAt)
  }

  lemma HeartbeatsDoNotMatter(before: Ledger, after: Ledger)
    requires LedgerOk(before) && SameButHeartbeats(before, after)
    ensures LedgerOk(after) && Follows(before, after)
  {
    forall id <- after.sessions ensures SessionOk(after, id) {
      assert SessionOk(before, id);
      assert OpenOf(after, id) == OpenOf(before, id);
      assert OpenWritesOf(after, id) == OpenWritesOf(before, id);
    }
    FinishedStays(before, after);
  }

  lemma HeartbeatDoes(ledger: Ledger, call: Call)
    requires call.Heartbeat?
    ensures SameButHeartbeats(ledger, DoHeartbeat(ledger, call).0)
  {
  }

  lemma HeartbeatKeeps(ledger: Ledger, call: Call)
    requires LedgerOk(ledger) && call.Heartbeat?
    ensures LedgerOk(DoHeartbeat(ledger, call).0) && Follows(ledger, DoHeartbeat(ledger, call).0)
  {
    HeartbeatDoes(ledger, call);
    HeartbeatsDoNotMatter(ledger, DoHeartbeat(ledger, call).0);
  }

  /** Under the invariant the drift guard never refuses: ending an open request always closes it. */
  lemma EndAlwaysCloses(ledger: Ledger, call: Call)
    requires LedgerOk(ledger) && call.End?
    requires ValidRequest(call.requestId, call.exportId) && !IsZero(call.endedAt)
    requires call.requestId in ledger.rows && ledger.rows[call.requestId].exportId == call.exportId
    ensures var (after, answer) := DoEnd(ledger, call);
            answer.Ok? && call.requestId in after.rows && !after.rows[call.requestId].state.Open?
  {
    var id := call.exportId;
    assert SessionOk(ledger, id);
    if ledger.rows[call.requestId].state.Open? {
      var open, writes := OpenOf(ledger, id), OpenWritesOf(ledger, id);
      assert call.requestId in open;
      SubsetSize({call.requestId}, open);
      if ledger.rows[call.requestId].write {
        SubsetSize({call.requestId}, writes);
      }
      SubsetSize(writes - {call.requestId}, open - {call.requestId});
    }
  }

  lemma ClosedSessionOk(ledger: Ledger, requestId: string, id: string)
    requires LedgerOk(ledger) && requestId in ledger.rows && ledger.rows[requestId].state.Open?
    requires ledger.rows[requestId].exportId in ledger.sessions && id in ledger.sessions
    ensures SessionOk(WithClosed(ledger, requestId), id)
  {
    assert SessionOk(ledger, id);
    OpenAfterEnd(ledger, WithClosed(ledger, requestId), requestId, id);
  }

  lemma WithClosedFollows(ledger: Ledger, requestId: string)
    requires requestId in ledger.rows && ledger.rows[requestId].state.Open?
    requires ledger.rows[requestId].exportId in ledger.sessions
    ensures Follows(ledger, WithClosed(ledger, requestId))
    ensures RowsOk(ledger) ==> RowsOk(WithClosed(ledger, requestId))
  {
  }

  lemma WithClosedKeeps(ledger: Ledger, requestId: string)
    requires LedgerOk(ledger) && requestId in ledger.rows && ledger.rows[requestId].state.Open?
    requires ledger.rows[requestId].exportId in ledger.sessions
    ensures LedgerOk(WithClosed(ledger, requestId)) && Follows(ledger, WithClosed(ledger, requestId))
  {
    var after := WithClosed(ledger, requestId);
    forall id <- after.sessions ensures SessionOk(after, id) {
      ClosedSessionOk(ledger, requestId, id);
    }
    WithClosedFollows(ledger, requestId);
    FinishedStays(ledger, after);
  }

  lemma EndDoes(ledger: Ledger, call: Call)
    requires call.End?
    ensures || DoEnd(ledger, call).0 == ledger
            || (&& call.requestId in ledger.rows && ledger.rows[call.requestId].state.Open?
                && ledger.rows[call.requestId].exportId in ledger.sessions
                && DoEnd(ledger, call).0 == WithClosed(ledger, call.requestId))
  {
  }

  lemma EndKeeps(ledger: Ledger, call: Call)
    requires LedgerOk(ledger) && call.End?
    ensures LedgerOk(DoEnd(ledger, call).0) && Follows(ledger, DoEnd(ledger, call).0)
  {
    EndDoes(ledger, call);
    FollowsItself(ledger);
    if DoEnd(ledger, call).0 != ledger {
      WithClosedKeeps(ledger, call.requestId);
    }
  }

  /** Under the invariant stale recovery is never held back by drift. */
  lemma RecoveryIsAlwaysEligible(ledger: Ledger, picked: set<string>)
    requires LedgerOk(ledger)
    ensures GroupsEligible(ledger, picked)
  {
    forall id <- picked | id in ledger.rows
      ensures var e := ledger.rows[id].exportId;
              && e in ledger.sessions
              && CountsCover(ledger.sessions[e], |PickedOf(ledger, picked, e)|, |PickedWritesOf(ledger, picked, e)|)
    {
      var e := ledger.rows[id].exportId;
      assert SessionOk(ledger, e);
      SubsetSize(PickedOf(ledger, picked, e), OpenOf(ledger, e));
      SubsetSize(PickedWritesOf(ledger, picked, e), OpenWritesOf(ledger, e));
    }
  }

  lemma WithRecoveredFollows(ledger: Ledger, picked: set<string>)
    requires forall id <- picked :: id in ledger.rows ==> ledger.rows[id].state.Open?
    ensures Follows(ledger, WithRecovered(ledger, picked))
  {
  }

  lemma WithRecoveredKeeps(ledger: Ledger, picked: set<string>)
    requires LedgerOk(ledger)
    ensures LedgerOk(WithRecovered(ledger, picked))
  {
    var after := WithRecovered(ledger, picked);
    forall id <- after.sessions ensures SessionOk(after, id) {
      assert SessionOk(ledger, id);
      OpenAfterRecovery(ledger, after, picked, id);
    }
    FinishedStays(ledger, after);
  }

  lemma RecoverStaleDoes(ledger: Ledger, call: Call)
    requires call.RecoverStale?
    ensures || DoRecoverStale(ledger, call).0 == ledger
            || DoRecoverStale(ledger, call).0 == WithRecovered(ledger, StaleAmong(ledger, call.offered, call.now))
  {
  }

  lemma RecoverStaleKeeps(ledger: Ledger, call: Call)
    requires LedgerOk(ledger) && call.RecoverStale?
    ensures LedgerOk(DoRecoverStale(ledger, call).0) && Follows(ledger, DoRecoverStale(ledger, call).0)
  {
    RecoverStaleDoes(ledger, call);
    FollowsItself(ledger);
    WithRecoveredKeeps(ledger, StaleAmong(ledger, call.offered, call.now));
    WithRecoveredFollows(ledger, StaleAmong(ledger, call.offered, call.now));
  }

  lemma RevokedSessionOk(ledger: Ledger, call: Call, id: string)
    requires LedgerOk(ledger) && call.Revoke? && id in ledger.sessions
    ensures SessionOk(DoRevoke(ledger, call).0, id)
  {
    assert SessionOk(ledger, id);
    SameRowsSameOpen(ledger, DoRevoke(ledger, call).0, id);
  }

  lemma RevokeKeeps(ledger: Ledger, call: Call)
    requires LedgerOk(ledger) && call.Revoke?
    ensures LedgerOk(DoRevoke(ledger, call).0) && Follows(ledger, DoRevoke(ledger, call).0)
  {
    var after := DoRevoke(ledger, call).0;
    forall id <- after.sessions ensures SessionOk(after, id) {
      RevokedSessionOk(ledger, call, id);
    }
    FinishedStays(ledger, after);
  }

  lemma ReconcileKeeps(ledger: Ledger, call: Call)
    requires LedgerOk(ledger) && call.Reconcile?
    ensures LedgerOk(DoReconcile(ledger, call).0) && Follows(ledger, DoReconcile(ledger, call).0)
  {
    var after := DoReconcile(ledger, call).0;
    if after != ledger {
      forall id <- after.sessions ensures SessionOk(after, id) {
        assert SessionOk(ledger, id);
        SameRowsSameOpen(ledger, after, id);
      }
      assert SessionOk(ledger, call.exportId);
      FinishedStays(ledger, after.(finished := ledger.finished));
      forall scope <- after.finished ensures FinishedSession(after, scope.key) {
        if scope in ledger.finished {
          assert FinishedSession(after.(finished := ledger.finished), scope.key);
        } else {
          assert IsKeyOf(scope.key, call.exportId);
        }
      }
    }
  }

  lemma CreateKeeps(ledger: Ledger, call: Call)
    requires LedgerOk(ledger) && call.Create?
    ensures LedgerOk(Do(ledger, call).0) && Follows(ledger, Do(ledger, call).0)
  {
    var after := Do(ledger, call).0;
    forall id <- after.sessions ensures SessionOk(after, id) {
      if id in ledger.sessions {
        assert SessionOk(ledger, id);
        SameRowsSameOpen(ledger, after, id);
      } else {
        assert OpenOf(after, id) == {} && OpenWritesOf(after, id) == {};
      }
    }
    FinishedStays(ledger, after);
  }

  lemma DoKeeps(ledger: Ledger, call: Call)
    requires LedgerOk(ledger) && Sendable(ledger, call)
    ensures LedgerOk(Do(ledger, call).0)
    ensures Follows(ledger, Do(ledger, call).0)
  {
    match call
    case Create(_, _) => CreateKeeps(ledger, call);
    case Begin(_, _, _, _, _, _) => BeginKeeps(ledger, call);
    case Heartbeat(_, _, _, _) => HeartbeatKeeps(ledger, call);
    case End(_, _, _) => EndKeeps(ledger, call);
    case RecoverStale(_, _) => RecoverStaleKeeps(ledger, call);
    case Revoke(_, _) => RevokeKeeps(ledger, call);
    case Reconcile(_, _, _, _, _, _) => ReconcileKeeps(ledger, call);
  }

  /* ---------- Runs: any interleaving of calls ---------- */

  /** The ledger after a sequence of calls, in which those no component would send do not happen. */
  function Run(ledger: Ledger, calls: seq<Call>): Ledger
    decreases |calls|
  {
    if calls == [] then ledger
    else Run(if Sendable(ledger, calls[0]) then Do(ledger, calls[0]).0 else ledger, calls[1..])
  }

  const EMPTY := Ledger(map[], map[], {})

  /**
   * After any interleaving of calls: request and write counts equal the open rows, writes never
   * exceed requests, write rows exist only for read-write sessions, and a terminal session has no
   * open row and stays terminal for ever.
   */
  lemma {:induction false} RunKeeps(ledger: Ledger, calls: seq<Call>)
    requires LedgerOk(ledger)
    ensures LedgerOk(Run(ledger, calls)) && Follows(ledger, Run(ledger, calls))
    decreases |calls|
  {
    if calls == [] {
      FollowsItself(ledger);
    } else {
      if Sendable(ledger, calls[0]) {
        var next := Do(ledger, calls[0]).0;
        DoKeeps(ledger, calls[0]);
        RunKeeps(next, calls[1..]);
        FollowsOn(ledger, next, Run(next, calls[1..]));
      } else {
        RunKeeps(ledger, calls[1..]);
      }
    }
  }

  /** Revoked, expired and failed sessions have no request open, at any time in any run. */
  lemma TerminalSessionsAreDrained(calls: seq<Call>, id: string)
    ensures var ledger := Run(EMPTY, calls);
            id in ledger.sessions ==>
              && ledger.sessions[id].requests == |OpenOf(ledger, id)|
              && ledger.sessions[id].writes == |OpenWritesOf(ledger, id)| <= ledger.sessions[id].requests
              && (ledger.sessions[id].status.Terminal() ==> OpenOf(ledger, id) == {})
              && (OpenWritesOf(ledger, id) != {} ==> ledger.sessions[id].mode.ReadWrite?)
  {
    var ledger := Run(EMPTY, calls);
    RunKeeps(EMPTY, calls);
    if id in ledger.sessions {
      assert SessionOk(ledger, id);
      WritesWithinRequests(ledger, id);
    }
  }

  /* ---------- Which rows stale recovery closes ---------- */

  /**
   * Exactly when a call recovers an open row: it is a stale recovery at a set time, the row is among
   * those offered to it, and the row's heartbeat has run out by then.
   */
  lemma RecoveredIff(ledger: Ledger, call: Call, id: string)
    requires LedgerOk(ledger) && id in ledger.rows && ledger.rows[id].state.Open?
    ensures id in Do(ledger, call).0.rows
    ensures Do(ledger, call).0.rows[id].state.Recovered? <==>
            && call.RecoverStale? && !IsZero(call.now) && id in call.offered
            && ledger.rows[id].heartbeatExpiresAt <= call.now
  {
    if call.RecoverStale? {
      RecoveryIsAlwaysEligible(ledger, StaleAmong(ledger, call.offered, call.now));
    }
  }

  /** The rows that were open before and are recovered after. */
  function NewlyRecovered(before: Ledger, after: Ledger): set<string> {
    set id | id in before.rows && before.rows[id].state.Open? && id in after.rows && after.rows[id].state.Recovered?
  }

  /** The number a stale recovery reports is the number of rows it recovered. */
  lemma RecoveredAreCounted(ledger: Ledger, now: Time, offered: set<string>)
    requires LedgerOk(ledger) && !IsZero(now)
    ensures StaleAmong(ledger, offered, now) == NewlyRecovered(ledger, Do(ledger, RecoverStale(now, offered)).0)
  {
    var call := RecoverStale(now, offered);
    forall id | id in ledger.rows && ledger.rows[id].state.Open?
      ensures id in StaleAmong(ledger, offered, now) <==> id in NewlyRecovered(ledger, Do(ledger, call).0)
    {
      RecoveredIff(ledger, call, id);
    }
  }

  /**
   * A heartbeat is answered exactly when it is well formed and finds its row open, and then the row's
   * expiry is the later of the one it had and the one sent; anything else leaves the ledger alone.
   */
  lemma HeartbeatIff(ledger: Ledger, call: Call)
    requires call.Heartbeat?
    ensures var (after, answer) := Do(ledger, call);
            && (answer.Ok? <==>
                && ValidRequest(call.requestId, call.exportId) && !IsZero(call.observedAt)
                && !IsZero(call.heartbeatExpiresAt) && call.heartbeatExpiresAt > call.observedAt
                && call.requestId in ledger.rows && ledger.rows[call.requestId].exportId == call.exportId
                && ledger.rows[call.requestId].state.Open?)
            && (!answer.Ok? ==> after == ledger)
            && (answer.Ok? ==>
                  && call.requestId in after.rows
                  && after.rows[call.requestId].heartbeatExpiresAt >= call.heartbeatExpiresAt
                  && after.rows[call.requestId].heartbeatExpiresAt >= ledger.rows[call.requestId].heartbeatExpiresAt
                  && after.rows[call.requestId].heartbeatExpiresAt
                     in {call.heartbeatExpiresAt, ledger.rows[call.requestId].heartbeatExpiresAt}
                  && after.rows[call.requestId].state.Open?)
  {
  }

  /**
   * Exactly when a begin of a request that has no row is answered, and what it leaves: an open row of its
   * export with the expiry it sent. Begun again, an open row of the same export and kind is answered and
   * left as it is, with its old expiry.
   */
  lemma BeginIff(ledger: Ledger, call: Call)
    requires call.Begin?
    ensures var (after, answer) := Do(ledger, call);
            var formed := && ValidRequest(call.requestId, call.exportId) && !IsZero(call.startedAt)
                          && !IsZero(call.heartbeatExpiresAt) && call.heartbeatExpiresAt > call.startedAt;
            && (answer.Invalid? <==> !formed)
            && (call.requestId !in ledger.rows ==>
                  (answer.Ok? <==>
                   && formed && call.exportId in ledger.sessions && ledger.sessions[call.exportId].status.Active?
                   && ledger.sessions[call.exportId].expiresAt > call.startedAt && !(call.write && call.restoring)))
            && (call.requestId !in ledger.rows && answer.Ok? ==>
                  && after.rows == ledger.rows[call.requestId :=
                                               Row(call.exportId, call.write, Open, call.heartbeatExpiresAt)])
            && (call.requestId in ledger.rows ==>
                  var row := ledger.rows[call.requestId];
                  && after == ledger
                  && (answer.Ok? <==> && formed && row.exportId == call.exportId && row.write == call.write
                                      && row.state.Open? && call.exportId in ledger.sessions))
            && (!answer.Ok? ==> after == ledger && (answer.NoRows? || answer.Invalid?))
  {
  }

  /** The row has not been recovered, and its heartbeat lasts at least to `promise`. */
  predicate Alive(ledger: Ledger, id: string, promise: Time) {
    id in ledger.rows && !ledger.rows[id].state.Recovered? && ledger.rows[id].heartbeatExpiresAt >= promise
  }

  /** No call but a stale recovery at or after the promised time takes a row's life. */
  lemma CallKeepsAlive(ledger: Ledger, call: Call, id: string, promise: Time)
    requires Alive(ledger, id, promise) && (call.RecoverStale? ==> call.now < promise)
    ensures Alive(Do(ledger, call).0, id, promise)
  {
  }

  /** Over every run without a stale recovery at or after the promised time, the row is not recovered. */
  lemma {:induction false} RunKeepsAlive(ledger: Ledger, calls: seq<Call>, id: string, promise: Time)
    requires Alive(ledger, id, promise)
    requires forall i | 0 <= i < |calls| :: calls[i].RecoverStale? ==> calls[i].now < promise
    ensures Alive(Run(ledger, calls), id, promise)
    decreases |calls|
  {
    if calls != [] {
      CallKeepsAlive(ledger, calls[0], id, promise);
      var next := if Sendable(ledger, calls[0]) then Do(ledger, calls[0]).0 else ledger;
      RunKeepsAlive(next, calls[1..], id, promise);
    }
  }

  /**
   * What a gateway may rely on: once a first begin or a heartbeat is answered, no run in which every stale
   * recovery comes before the expiry it sent recovers the row.
   */
  lemma AnsweredIsKept(ledger: Ledger, call: Call, calls: seq<Call>)
    requires (call.Begin? && call.requestId !in ledger.rows) || call.Heartbeat?
    requires Do(ledger, call).1.Ok?
    requires forall i | 0 <= i < |calls| :: calls[i].RecoverStale? ==> calls[i].now < call.heartbeatExpiresAt
    ensures var after := Run(Do(ledger, call).0, calls);
            call.requestId in after.rows && !after.rows[call.requestId].state.Recovered?
  {
    if call.Begin? {
      BeginIff(ledger, call);
    } else {
      HeartbeatIff(ledger, call);
    }
    RunKeepsAlive(Do(ledger, call).0, calls, call.requestId, call.heartbeatExpiresAt);
  }

  /**
   * A revoke finds every session: one that has not ended is revoking afterwards, one that has keeps its
   * status; the first revoke's time stays; and nothing else of the ledger changes.
   */
  lemma RevokeIff(ledger: Ledger, call: Call)
    requires call.Revoke?
    ensures var (after, answer) := Do(ledger, call);
            && (answer.Ok? <==> call.exportId in ledger.sessions) && (!answer.Ok? ==> after == ledger)
            && after.rows == ledger.rows && after.finished == ledger.finished
            && after.sessions.Keys == ledger.sessions.Keys
            && (forall id <- ledger.sessions | id != call.exportId :: after.sessions[id] == ledger.sessions[id])
            && (answer.Ok? ==>
                  var before, revoked := ledger.sessions[call.exportId], after.sessions[call.exportId];
                  && (!before.status.Terminal() ==> revoked.status.Revoking?)
                  && (before.status.Terminal() ==> revoked.status == before.status)
                  && revoked.revokedAt.Some? && (before.revokedAt.Some? ==> revoked.revokedAt == before.revokedAt)
                  && (before.revokedAt.None? ==> revoked.revokedAt == Some(call.now))
                  && revoked.requests == before.requests && revoked.writes == before.writes
                  && revoked.expiresAt == before.expiresAt)
  {
  }

  /** What a reconcile to the target asks of the session besides being drained. */
  predicate Owed(session: Session, call: Call)
    requires call.Reconcile?
  {
    match call.target
    case ToRevoked => session.status.Revoking? && session.revokedAt.Some?
    case ToExpired => session.status.Active? && session.expiresAt <= call.observedAt
    case ToFailed => !Blank(call.reason)
  }

  /**
   * Exactly when a call gives a session a terminal status it did not have: the call is a reconcile
   * of that session, at a set time and not done before, that finds it drained and was owed it, to
   * revoked after a revoke, to expired past its expiry, to failed for a stated reason.
   */
  lemma TerminalIff(ledger: Ledger, call: Call, id: string)
    requires LedgerOk(ledger) && id in ledger.sessions
    ensures var before := ledger.sessions[id];
            var after := Do(ledger, call).0.sessions[id].status;
            after != before.status && after.Terminal() <==>
            && call.Reconcile? && call.exportId == id && TargetStatus(call.target) != before.status
            && !IsZero(call.observedAt) && call.namespaceId == before.namespaceId
            && Scope(call.caller, call.namespaceId, Key(id, call.target)) !in ledger.finished
            && OpenOf(ledger, id) == {} && Owed(before, call)
  {
    assert SessionOk(ledger, id);
    WritesWithinRequests(ledger, id);
  }

  /**
   * Exactly when a terminal session's status changes: by a reconcile of it to failed, at a set time,
   * for a stated reason, in its namespace and not done before, if it is not failed already.
   */
  lemma TerminalChangesIff(ledger: Ledger, call: Call, id: string)
    requires LedgerOk(ledger) && id in ledger.sessions && ledger.sessions[id].status.Terminal()
    ensures Do(ledger, call).0.sessions[id].status != ledger.sessions[id].status <==>
            && call.Reconcile? && call.exportId == id && call.target.ToFailed?
            && !ledger.sessions[id].status.Failed? && !IsZero(call.observedAt) && !Blank(call.reason)
            && call.namespaceId == ledger.sessions[id].namespaceId
            && Scope(call.caller, call.namespaceId, Key(id, ToFailed)) !in ledger.finished
  {
    TerminalIff(ledger, call, id);
    StaysTerminal(ledger, call, id);
    assert SessionOk(ledger, id);
  }

  lemma StaysTerminal(ledger: Ledger, call: Call, id: string)
    requires id in ledger.sessions && ledger.sessions[id].status.Terminal()
    ensures id in Do(ledger, call).0.sessions && Do(ledger, call).0.sessions[id].status.Terminal()
  {
  }

  const REVOKED_THEN_FAILED := [
    Create("export_ab", Session("ns_ab", ReadOnly, Active, 9, None, 0, 0)),
    Revoke("export_ab", 1),
    Reconcile("export_ab", "ns_ab", "owner", ToRevoked, 2, ""),
    Reconcile("export_ab", "ns_ab", "owner", ToFailed, 3, "x")]

  /** A run in which a revoked session becomes failed. */
  lemma RevokedCanFail()
    ensures "export_ab" in Run(EMPTY, REVOKED_THEN_FAILED[..3]).sessions
    ensures Run(EMPTY, REVOKED_THEN_FAILED[..3]).sessions["export_ab"].status == Revoked
    ensures "export_ab" in Run(EMPTY, REVOKED_THEN_FAILED).sessions
    ensures Run(EMPTY, REVOKED_THEN_FAILED).sessions["export_ab"].status == Failed
  {
    var calls := REVOKED_THEN_FAILED;
    var active := Session("ns_ab", ReadOnly, Active, 9, None, 0, 0);
    var created := Ledger(map["export_ab" := active], map[], {});
    var revoking := Ledger(map["export_ab" := active.(status := Revoking, revokedAt := Some(1))], map[], {});
    var scope := Scope("owner", "ns_ab", Key("export_ab", ToRevoked));
    var revoked := Ledger(map["export_ab" := active.(status := Revoked, revokedAt := Some(1))], map[], {scope});
    assert Do(EMPTY, calls[0]).0 == created;
    assert Do(created, calls[1]).0 == revoking;
    assert OpenOf(revoking, "export_ab") == {} && OpenOf(revoked, "export_ab") == {};
    assert Do(revoking, calls[2]).0 == revoked;
    KeysDiffer("export_ab", ToRevoked, "export_ab", ToFailed);
    assert !Blank("x");
    assert Do(revoked, calls[3]).0.sessions["export_ab"].status == Failed;
    RunFour(EMPTY, calls, created, revoking, revoked);
  }

  lemma RunFour(start: Ledger, calls: seq<Call>, a: Ledger, b: Ledger, c: Ledger)
    requires |calls| == 4 && forall i | 0 <= i < 4 :: !calls[i].Begin?
    requires Do(start, calls[0]).0 == a && Do(a, calls[1]).0 == b && Do(b, calls[2]).0 == c
    ensures Run(start, calls[..3]) == c && Run(start, calls) == Do(c, calls[3]).0
  {
    assert calls[..3][1..] == calls[1..3] && calls[1..3][1..] == calls[2..3] && calls[2..3][1..] == [];
    assert Run(c, []) == c && Run(b, calls[2..3]) == c && Run(a, calls[1..3]) == c;
    assert calls[1..][1..] == calls[2..] && calls[2..][1..] == calls[3..] && calls[3..][1..] == [];
    assert Run(c, calls[3..]) == Do(c, calls[3]).0;
    assert Run(b, calls[2..]) == Run(c, calls[3..]) && Run(a, calls[1..]) == Run(b, calls[2..]);
  }

  /** A terminal reconcile that finds its key already used reports a session that is already terminal. */
  lemma ReusedMeansAlreadyTerminal(ledger: Ledger, call: Call)
    requires LedgerOk(ledger) && call.Reconcile? && Do(ledger, call).1.Reused?
    ensures call.exportId in ledger.sessions && ledger.sessions[call.exportId].status.Terminal()
    ensures Do(ledger, call).0 == ledger
  {
    var key := Key(call.exportId, call.target);
    assert Scope(call.caller, call.namespaceId, key) in ledger.finished;
    assert FinishedSession(ledger, key);
    var id :| id in ledger.sessions && ledger.sessions[id].status.Terminal() && IsKeyOf(key, id);
    KeysDiffer(call.exportId, call.target, id, ToRevoked);
    KeysDiffer(call.exportId, call.target, id, ToExpired);
    KeysDiffer(call.exportId, call.target, id, ToFailed);
  }
}
