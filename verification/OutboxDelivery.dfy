/**
 * The outbox table (internal/store/postgres/audit_outbox.go) with the delivery and stale-recovery
 * passes over it (internal/auditdelivery). The environment decides which due rows a claim picks,
 * what the deliverer answers, and which store calls fail, with or without taking effect.
 */
module OutboxDelivery {
  import opened Common
  import opened Outbox

  /* ---------- Row updates, as the SQL statements write them ---------- */

  predicate Due(record: OutboxRecord, now: Time) {
    || record.status.Pending?
    || (record.status.RetryWait? && record.nextRetryAt.Some? && record.nextRetryAt.value <= now)
  }

  predicate Stale(record: OutboxRecord, before: Time) {
    record.status.Delivering? && record.updatedAt <= before
  }

  function ClaimRow(record: OutboxRecord, now: Time): OutboxRecord {
    record.(status := Delivering, attempts := record.attempts + 1, nextRetryAt := None,
            lastError := "", deliveredAt := None, updatedAt := now)
  }

  function ConfirmRow(record: OutboxRecord, now: Time): OutboxRecord {
    record.(status := Delivered, deliveredAt := Some(now), updatedAt := now, nextRetryAt := None, lastError := "")
  }

  function FailRow(redact: string -> string, record: OutboxRecord, failure: Failure): OutboxRecord {
    var spent := record.attempts >= failure.maxAttempts;
    record.(status := if spent then Failed else RetryWait,
            nextRetryAt := if spent then None else Some(failure.now + failure.backoff),
            lastError := ErrorText(redact, failure.lastError), deliveredAt := None, updatedAt := failure.now)
  }

  /** The stale-recovery statement takes no attempt limit: the row always goes back to retry_wait. */
  function RecoverRow(redact: string -> string, record: OutboxRecord, failure: Failure): OutboxRecord {
    record.(status := RetryWait, nextRetryAt := Some(failure.now + failure.backoff),
            lastError := ErrorText(redact, failure.lastError), deliveredAt := None, updatedAt := failure.now)
  }

  /** What scanAuditOutboxRecord accepts of a returned row. */
  predicate Scannable(record: OutboxRecord) {
    ValidRecord(record) && !IsZero(record.createdAt) && !IsZero(record.updatedAt)
  }

  predicate UsableFailure(failure: Failure) {
    !IsZero(failure.now) && failure.maxAttempts > 0 && failure.backoff >= 0
  }

  /** On valid rows the statements do what the record transitions do. */
  lemma StatementsRefineTransitions(
    redact: string -> string, record: OutboxRecord, owner: string, now: Time, failure: Failure)
    requires ValidRecord(record) && FieldsFollowStatus(record)
    requires !Blank(owner) && !IsZero(now) && UsableFailure(failure)
    ensures Due(record, now) ==> MarkDelivering(record, owner, now) == Ok(ClaimRow(record, now))
    ensures record.status.Delivering? ==> MarkDelivered(record, now) == Ok(ConfirmRow(record, now))
    ensures record.status.Delivering? ==>
              MarkDeliveryFailed(redact, record, failure) == Ok(FailRow(redact, record, failure))
  {
  }

  /** Stale recovery is the failure transition exactly while attempts remain. */
  lemma StaleRecoveryRefinesIff(redact: string -> string, record: OutboxRecord, failure: Failure)
    requires ValidRecord(record) && record.status.Delivering? && UsableFailure(failure)
    ensures MarkDeliveryFailed(redact, record, failure) == Ok(RecoverRow(redact, record, failure))
       <==> record.attempts < failure.maxAttempts
  {
  }

  /* ---------- The table and what has happened to each row ---------- */

  /** Deliverer calls; calls answered nil; mark-delivered calls answered with an error; stale recoveries. */
  datatype History = History(calls: nat, accepted: nat, unconfirmed: nat, recovered: nat, last: Mark)

  /** The last thing a pass did to the row: when, and for a failure or recovery with which backoff. */
  datatype Mark = WasAppended | WasClaimed(at: Time) | WasPutBack(at: Time, backoff: int) | WasConfirmed(at: Time)

  const NEW := History(0, 0, 0, 0, WasAppended)

  datatype Row = Row(record: OutboxRecord, history: History)

  type Table = map<string, Row>

  /** What the deliverer answers for a record, and what the mark call after it does. */
  datatype Reply = Reply(accepted: bool, errorText: string, mark: StoreReply)

  datatype Outcome = WasDelivered | FailureRecorded | MarkFailed

  /** One iteration of Coordinator.RunOnce. A mark call on a row that is not delivering affects no row. */
  function DeliverOne(redact: string -> string, row: Row, reply: Reply, failure: Failure): (Row, Outcome) {
    var errored := reply.mark.Errored() || !row.record.status.Delivering?;
    var stored := reply.mark.TookEffect() && row.record.status.Delivering?;
    var h := row.history.(calls := row.history.calls + 1,
                          last := if !stored then row.history.last
                                  else if reply.accepted then WasConfirmed(failure.now)
                                  else WasPutBack(failure.now, failure.backoff));
    if reply.accepted then
      var record := if stored then ConfirmRow(row.record, failure.now) else row.record;
      var h' := h.(accepted := h.accepted + 1, unconfirmed := h.unconfirmed + if errored then 1 else 0);
      (Row(record, h'), if errored then MarkFailed else WasDelivered)
    else
      var recorded := failure.(lastError := redact(reply.errorText));
      var record := if stored then FailRow(redact, row.record, recorded) else row.record;
      (Row(record, h), if errored then MarkFailed else FailureRecorded)
  }

  /** The delivery loop: in order, stopping after the first mark call that fails. */
  function DeliverAll(redact: string -> string, table: Table, ids: seq<string>, reply: string -> Reply,
                      failure: Failure)
    : (r: (Table, seq<Outcome>))
    requires forall id <- ids :: id in table
    ensures r.0.Keys == table.Keys
  {
    if ids == [] then (table, [])
    else
      var (row, outcome) := DeliverOne(redact, table[ids[0]], reply(ids[0]), failure);
      var table' := table[ids[0] := row];
      if outcome.MarkFailed? then (table', [outcome])
      else
        var (end, outcomes) := DeliverAll(redact, table', ids[1..], reply, failure);
        (end, [outcome] + outcomes)
  }

  function ClaimAll(table: Table, ids: seq<string>, now: Time): Table {
    map id | id in table :: if id in ids then Claim(table[id], now) else table[id]
  }

  function Claim(row: Row, now: Time): Row {
    Row(ClaimRow(row.record, now), row.history.(last := WasClaimed(now)))
  }

  function RecoverAll(redact: string -> string, table: Table, ids: seq<string>, failure: Failure): Table {
    map id | id in table :: if id in ids then Recovered(redact, table[id], failure) else table[id]
  }

  function Recovered(redact: string -> string, row: Row, failure: Failure): Row {
    Row(RecoverRow(redact, row.record, failure),
        row.history.(recovered := row.history.recovered + 1, last := WasPutBack(failure.now, failure.backoff)))
  }

  /**
   * The answer of a statement that returns the rows it updated: one row that cannot be scanned makes
   * the whole call fail, after it has taken effect.
   */
  function Heard(reply: StoreReply, updated: Table, ids: seq<string>): (r: StoreReply)
    ensures r.TookEffect() == reply.TookEffect()
  {
    if reply.Done? && exists id <- ids :: id in updated && !Scannable(updated[id].record) then DoneButFailed else reply
  }

  predicate Distinct(ids: seq<string>) {
    forall i, j | 0 <= i < j < |ids| :: ids[i] != ids[j]
  }

  predicate LegalClaim(table: Table, ids: seq<string>, now: Time, limit: int) {
    Distinct(ids) && |ids| <= limit && forall id <- ids :: id in table && Due(table[id].record, now)
  }

  predicate LegalRecovery(table: Table, ids: seq<string>, before: Time, limit: int) {
    Distinct(ids) && |ids| <= limit && forall id <- ids :: id in table && Stale(table[id].record, before)
  }

  /* ---------- Passes ---------- */

  datatype Config = Config(owner: string, limit: int, maxAttempts: int, backoff: int, now: Time, clock: Option<Time>)
  {
    function Now(): Time {
      if IsZero(now) && clock.Some? then clock.value else now
    }

    predicate Valid() {
      !Blank(owner) && limit > 0 && maxAttempts > 0 && backoff >= 0 && !IsZero(Now())
    }

    function Failing(text: string): Failure {
      Failure(maxAttempts, backoff, text, Now())
    }
  }

  datatype Pass =
    | Append(eventId: string, event: Event, encoded: Option<string>, now: Time)
    | Delivery(config: Config, claimed: seq<string>, claim: StoreReply, reply: string -> Reply)
    | Recovery(config: Config, threshold: int, stale: seq<string>, recovery: StoreReply)

  const STALE_REASON := "stale_delivering_recovered_for_replay"

  /** The passes the store's contract allows at this point. */
  predicate Legal(table: Table, pass: Pass) {
    match pass
    case Append(id, event, encoded, now) => id == event.eventId && id !in table
    case Delivery(config, ids, _, _) => LegalClaim(table, ids, config.Now(), config.limit)
    case Recovery(config, threshold, ids, _) => LegalRecovery(table, ids, config.Now() - threshold, config.limit)
  }

  function Do(redact: string -> string, table: Table, pass: Pass): (r: Table)
    requires Legal(table, pass)
    ensures table.Keys <= r.Keys
  {
    match pass
    case Append(id, event, encoded, now) =>
      var made := NewRecord(event, encoded, now);
      if made.Ok? then table[id := Row(made.value, NEW)] else table
    case Delivery(config, ids, claim, reply) =>
      if !config.Valid() || claim.Refused? then table
      else
        var claimed := ClaimAll(table, ids, config.Now());
        if !Heard(claim, claimed, ids).Done? then claimed
        else DeliverAll(redact, claimed, ids, reply, config.Failing("")).0
    case Recovery(config, threshold, ids, recovery) =>
      if !config.Valid() || threshold <= 0 || recovery.Refused? then table
      else RecoverAll(redact, table, ids, config.Failing(STALE_REASON))
  }

  /* ---------- The invariant of every row ---------- */

  /** The times in a row are those of the pass that last changed it. */
  predicate TimesFollow(record: OutboxRecord, last: Mark) {
    match record.status
    case Delivering => last.WasClaimed? && record.updatedAt == last.at
    case RetryWait => last.WasPutBack? && record.nextRetryAt == Some(last.at + last.backoff)
    case Delivered => last.WasConfirmed? && record.deliveredAt == Some(last.at)
    case Failed => last.WasPutBack?
    case _ => true
  }

  predicate RowOk(id: string, row: Row, max: int) {
    var record, h := row.record, row.history;
    && record.eventId == id
    && FieldsFollowStatus(record)
    && h.accepted <= h.calls <= record.attempts <= max + h.recovered
    && (record.status.Pending? ==> record.attempts == 0)
    && (record.status.RetryWait? ==> record.attempts < max + h.recovered)
    && (record.status.Delivered? ==> h.unconfirmed <= h.accepted <= h.unconfirmed + 1 && 1 <= h.accepted)
    && (!record.status.Delivered? ==> h.accepted == h.unconfirmed)
    && TimesFollow(record, h.last)
    && (Scannable(record) <==> !Blank(record.eventType))
    && (Blank(record.eventType) ==> h.calls == 0 && !record.status.Terminal())
  }

  predicate TableOk(table: Table, max: int) {
    forall id <- table :: RowOk(id, table[id], max)
  }

  /** A row just claimed and scanned: an attempt counted for which the deliverer has not been called. */
  predicate Fresh(row: Row) {
    row.record.status.Delivering? && row.history.calls < row.record.attempts && Scannable(row.record)
  }

  lemma DeliverOneKeepsRow(redact: string -> string, id: string, row: Row, reply: Reply, failure: Failure)
    requires RowOk(id, row, failure.maxAttempts) && Fresh(row) && !IsZero(failure.now)
    ensures var (row', outcome) := DeliverOne(redact, row, reply, failure);
            && RowOk(id, row', failure.maxAttempts)
            && SameEvent(row.record, row'.record)
            && row.record.attempts == row'.record.attempts
            && row.history.calls <= row'.history.calls
            && (outcome.WasDelivered? ==> row'.record.status.Delivered?)
            && (outcome.FailureRecorded? ==> row'.record.status.RetryWait? || row'.record.status.Failed?)
  {
  }

  /** A later state of a table: nothing lost, no event altered, no count or attempt taken back. */
  predicate Follows(before: Table, after: Table) {
    && before.Keys <= after.Keys
    && forall id <- before ::
         && SameEvent(before[id].record, after[id].record)
         && before[id].record.attempts <= after[id].record.attempts
         && before[id].history.calls <= after[id].history.calls
         && (before[id].record.status.Terminal() ==> after[id] == before[id])
  }

  /** The same row later in a delivery loop. */
  predicate RowFollows(before: Row, after: Row) {
    && SameEvent(before.record, after.record)
    && before.record.attempts == after.record.attempts
    && before.history.calls <= after.history.calls
  }

  predicate AllFresh(table: Table, ids: seq<string>) {
    forall id <- ids :: id in table && Fresh(table[id])
  }

  lemma RestStaysFresh(table: Table, ids: seq<string>, row: Row)
    requires ids != [] && Distinct(ids) && AllFresh(table, ids)
    ensures AllFresh(table[ids[0] := row], ids[1..]) && Distinct(ids[1..]) && ids[0] !in ids[1..]
  {
    forall later <- ids[1..] ensures later != ids[0] && later in table && Fresh(table[later]) {
      var k :| 0 <= k < |ids[1..]| && ids[1..][k] == later;
      assert ids[k + 1] == later;
    }
  }

  /** Of a table's rows only those listed changed, and these only forward. */
  predicate OnlyThese(before: Table, after: Table, ids: seq<string>) {
    && before.Keys == after.Keys
    && (forall id <- before | id !in ids :: after[id] == before[id])
    && (forall id <- before :: RowFollows(before[id], after[id]))
  }

  lemma OnlyTheseOn(table: Table, row: Row, after: Table, ids: seq<string>)
    requires ids != [] && ids[0] in table && RowFollows(table[ids[0]], row)
    requires after == table[ids[0] := row] || OnlyThese(table[ids[0] := row], after, ids[1..])
    ensures OnlyThese(table, after, ids)
  {
    assert ids == [ids[0]] + ids[1..];
  }

  lemma RowReplaced(table: Table, id: string, row: Row, max: int)
    requires TableOk(table, max) && RowOk(id, row, max)
    ensures TableOk(table[id := row], max)
  {
  }

  /** The delivery loop keeps every row sound and touches only the claimed ones. */
  lemma {:induction false} DeliverAllKeeps(
    redact: string -> string, table: Table, ids: seq<string>, reply: string -> Reply, failure: Failure)
    requires TableOk(table, failure.maxAttempts) && Distinct(ids) && AllFresh(table, ids) && !IsZero(failure.now)
    ensures var after := DeliverAll(redact, table, ids, reply, failure).0;
            TableOk(after, failure.maxAttempts) && OnlyThese(table, after, ids)
  {
    if ids != [] {
      var id := ids[0];
      var (row, outcome) := DeliverOne(redact, table[id], reply(id), failure);
      DeliverOneKeepsRow(redact, id, table[id], reply(id), failure);
      RestStaysFresh(table, ids, row);
      var table' := table[id := row];
      RowReplaced(table, id, row, failure.maxAttempts);
      if !outcome.MarkFailed? {
        DeliverAllKeeps(redact, table', ids[1..], reply, failure);
      }
      OnlyTheseOn(table, row, DeliverAll(redact, table, ids, reply, failure).0, ids);
    }
  }

  /** Every claimed row is handled unless a mark call failed, and that one is the last handled. */
  lemma {:induction false} DeliverAllStopsAtFailure(
    redact: string -> string, table: Table, ids: seq<string>, reply: string -> Reply, failure: Failure)
    requires forall id <- ids :: id in table
    ensures var outcomes := DeliverAll(redact, table, ids, reply, failure).1;
            && |outcomes| <= |ids|
            && (|outcomes| < |ids| ==> outcomes != [] && outcomes[|outcomes| - 1].MarkFailed?)
            && (forall i | 0 <= i < |outcomes| - 1 :: !outcomes[i].MarkFailed?)
  {
    if ids != [] {
      var (row, outcome) := DeliverOne(redact, table[ids[0]], reply(ids[0]), failure);
      if !outcome.MarkFailed? {
        DeliverAllStopsAtFailure(redact, table[ids[0] := row], ids[1..], reply, failure);
      }
    }
  }

  lemma ClaimKeepsRow(id: string, row: Row, now: Time, max: int)
    requires max > 0 && RowOk(id, row, max) && Due(row.record, now) && !IsZero(now)
    ensures RowOk(id, Claim(row, now), max)
  {
    assert row.record.attempts < max + row.history.recovered;
    assert Scannable(ClaimRow(row.record, now)) == Scannable(row.record);
  }

  lemma ClaimAllKeeps(table: Table, ids: seq<string>, now: Time, limit: int, max: int)
    requires max > 0 && TableOk(table, max) && LegalClaim(table, ids, now, limit) && !IsZero(now)
    ensures var after := ClaimAll(table, ids, now);
            && TableOk(after, max) && Follows(table, after)
            && (Heard(Done, after, ids).Done? ==> AllFresh(after, ids))
  {
    var after := ClaimAll(table, ids, now);
    forall id <- after ensures RowOk(id, after[id], max) {
      assert RowOk(id, table[id], max);
      if id in ids {
        ClaimKeepsRow(id, table[id], now, max);
      }
    }
    ClaimedAreFresh(table, ids, now, max);
  }

  lemma ClaimedAreFresh(table: Table, ids: seq<string>, now: Time, max: int)
    requires TableOk(table, max) && forall id <- ids :: id in table
    ensures Heard(Done, ClaimAll(table, ids, now), ids).Done? ==> AllFresh(ClaimAll(table, ids, now), ids)
  {
    forall id <- ids ensures Scannable(ClaimRow(table[id].record, now)) ==> Fresh(ClaimAll(table, ids, now)[id]) {
      assert RowOk(id, table[id], max);
    }
  }

  lemma RecoverKeepsRow(redact: string -> string, id: string, row: Row, failure: Failure)
    requires RowOk(id, row, failure.maxAttempts) && row.record.status.Delivering? && !IsZero(failure.now)
    ensures RowOk(id, Recovered(redact, row, failure), failure.maxAttempts)
  {
    assert Scannable(RecoverRow(redact, row.record, failure)) == Scannable(row.record);
  }

  lemma RecoverAllKeeps(redact: string -> string, table: Table, ids: seq<string>, before: Time, limit: int,
                        failure: Failure)
    requires TableOk(table, failure.maxAttempts) && LegalRecovery(table, ids, before, limit) && !IsZero(failure.now)
    ensures var after := RecoverAll(redact, table, ids, failure);
            TableOk(after, failure.maxAttempts) && Follows(table, after)
  {
    var after := RecoverAll(redact, table, ids, failure);
    forall id <- after ensures RowOk(id, after[id], failure.maxAttempts) {
      assert RowOk(id, table[id], failure.maxAttempts);
      if id in ids {
        RecoverKeepsRow(redact, id, table[id], failure);
      }
    }
  }

  lemma AppendKeeps(table: Table, id: string, event: Event, encoded: Option<string>, now: Time, max: int)
    requires max > 0 && TableOk(table, max) && id == event.eventId && id !in table && NewRecord(event, encoded, now).Ok?
    ensures var after := table[id := Row(NewRecord(event, encoded, now).value, NEW)];
            TableOk(after, max) && Follows(table, after)
  {
    var row := Row(NewRecord(event, encoded, now).value, NEW);
    assert Scannable(row.record) <==> !Blank(event.eventType);
    assert RowOk(id, row, max);
  }

  predicate Limit(pass: Pass, max: int) {
    match pass
    case Append(_, _, _, _) => true
    case Delivery(config, _, _, _) => config.maxAttempts == max
    case Recovery(config, _, _, _) => config.maxAttempts == max
  }

  lemma DeliveryKeeps(redact: string -> string, table: Table, pass: Pass, max: int)
    requires max > 0 && TableOk(table, max) && Legal(table, pass) && Limit(pass, max) && pass.Delivery?
    requires pass.config.Valid() && pass.claim.TookEffect()
    ensures TableOk(Do(redact, table, pass), max) && Follows(table, Do(redact, table, pass))
  {
    var claimed := ClaimAll(table, pass.claimed, pass.config.Now());
    ClaimAllKeeps(table, pass.claimed, pass.config.Now(), pass.config.limit, max);
    if Heard(pass.claim, claimed, pass.claimed).Done? {
      DeliverAllKeeps(redact, claimed, pass.claimed, pass.reply, pass.config.Failing(""));
      DeliveryFollows(table, claimed, Do(redact, table, pass), pass.claimed);
    }
  }

  /** Claiming and then delivering only moves the table forward. */
  lemma DeliveryFollows(table: Table, claimed: Table, after: Table, ids: seq<string>)
    requires Follows(table, claimed) && OnlyThese(claimed, after, ids)
    requires forall id <- table | table[id].record.status.Terminal() :: after[id] == claimed[id]
    ensures Follows(table, after)
  {
  }

  lemma DoKeeps(redact: string -> string, table: Table, pass: Pass, max: int)
    requires max > 0 && TableOk(table, max) && Legal(table, pass) && Limit(pass, max)
    ensures TableOk(Do(redact, table, pass), max)
    ensures Follows(table, Do(redact, table, pass))
  {
    match pass
    case Append(id, event, encoded, now) =>
      if NewRecord(event, encoded, now).Ok? {
        AppendKeeps(table, id, event, encoded, now, max);
      }
    case Delivery(config, ids, claim, reply) =>
      if config.Valid() && claim.TookEffect() {
        DeliveryKeeps(redact, table, pass, max);
      }
    case Recovery(config, threshold, ids, recovery) =>
      if config.Valid() && threshold > 0 && recovery.TookEffect() {
        RecoverAllKeeps(redact, table, ids, config.Now() - threshold, config.limit, config.Failing(STALE_REASON));
      }
  }

  /* ---------- Runs of non-overlapping passes ---------- */

  /** tables[0] is empty and each later table is one legal pass away from the one before. */
  ghost predicate Run(redact: string -> string, tables: seq<Table>, passes: seq<Pass>, max: int) {
    && |tables| == |passes| + 1
    && tables[0] == map[]
    && forall i | 0 <= i < |passes| :: StepTo(redact, tables, passes, i, max)
  }

  ghost predicate StepTo(redact: string -> string, tables: seq<Table>, passes: seq<Pass>, i: nat, max: int)
    requires i < |passes| && i + 1 < |tables|
  {
    Limit(passes[i], max) && Legal(tables[i], passes[i]) && tables[i + 1] == Do(redact, tables[i], passes[i])
  }

  lemma {:induction false} RunKeeps(redact: string -> string, tables: seq<Table>, passes: seq<Pass>, max: int, i: nat)
    requires max > 0 && Run(redact, tables, passes, max) && i < |tables|
    ensures TableOk(tables[i], max)
  {
    if i > 0 {
      RunKeeps(redact, tables, passes, max, i - 1);
      assert StepTo(redact, tables, passes, i - 1, max);
      DoKeeps(redact, tables[i - 1], passes[i - 1], max);
    }
  }

  lemma FollowsOn(a: Table, b: Table, c: Table)
    ensures Follows(a, a)
    ensures Follows(a, b) && Follows(b, c) ==> Follows(a, c)
  {
  }

  lemma {:induction false} RunFollows(redact: string -> string, tables: seq<Table>, passes: seq<Pass>, max: int,
                                      i: nat, j: nat)
    requires max > 0 && Run(redact, tables, passes, max) && i <= j < |tables|
    ensures Follows(tables[i], tables[j])
    decreases j
  {
    if i < j {
      RunFollows(redact, tables, passes, max, i, j - 1);
      RunKeeps(redact, tables, passes, max, j - 1);
      assert StepTo(redact, tables, passes, j - 1, max);
      DoKeeps(redact, tables[j - 1], passes[j - 1], max);
      FollowsOn(tables[i], tables[j - 1], tables[j]);
    } else {
      FollowsOn(tables[i], tables[i], tables[i]);
    }
  }

  /**
   * At-least-once delivery over every run: a record once in the table stays in it with its event; a
   * delivered record was accepted at least once; it was accepted at most once more than its
   * mark-delivered calls failed; the deliverer was called at most as often as attempts were
   * counted; attempts exceed the limit by at most the stale recoveries; delivered and failed
   * rows never change again.
   */
  lemma AtLeastOnce(redact: string -> string, tables: seq<Table>, passes: seq<Pass>, max: int, i: nat, j: nat,
                    id: string)
    requires max > 0 && Run(redact, tables, passes, max) && i <= j < |tables| && id in tables[i]
    ensures id in tables[j]
    ensures var row := tables[j][id];
            && SameEvent(tables[i][id].record, row.record)
            && (row.record.status.Delivered? ==> row.history.accepted >= 1)
            && row.history.accepted <= 1 + row.history.unconfirmed
            && row.history.calls <= row.record.attempts <= max + row.history.recovered
            && (tables[i][id].record.status.Terminal() ==> row == tables[i][id])
  {
    RunFollows(redact, tables, passes, max, i, j);
    RunKeeps(redact, tables, passes, max, j);
  }

  /* ---------- Records whose event type is blank ---------- */

  /**
   * A blank event type is accepted when the record is appended. The claim statement does not look at
   * it, so such a row is claimed and its attempt counted; but the row cannot be scanned, so the claim
   * fails after taking effect: every row of the batch stays delivering and none is offered to the
   * deliverer.
   */
  lemma PoisonedPass(redact: string -> string, table: Table, pass: Pass, max: int, id: string)
    requires max > 0 && TableOk(table, max) && Legal(table, pass) && Limit(pass, max)
    requires pass.Delivery? && id in pass.claimed && Blank(table[id].record.eventType)
    ensures var after := Do(redact, table, pass);
            && after.Keys == table.Keys
            && (forall other <- table :: after[other].history.calls == table[other].history.calls)
            && (pass.config.Valid() && pass.claim.TookEffect() ==>
                  forall other <- pass.claimed ::
                    after[other].record == ClaimRow(table[other].record, pass.config.Now()))
  {
    if pass.config.Valid() && pass.claim.TookEffect() {
      var claimed := ClaimAll(table, pass.claimed, pass.config.Now());
      assert !Scannable(claimed[id].record);
    }
  }

  /** A row returned by a claim can be read back exactly when its event type is not blank. */
  lemma ClaimedIsScannableIff(id: string, row: Row, now: Time, max: int)
    requires RowOk(id, row, max) && !IsZero(now)
    ensures Scannable(ClaimRow(row.record, now)) <==> !Blank(row.record.eventType)
  {
    assert row.record.attempts >= 0;
    assert Scannable(ClaimRow(row.record, now)) <==> Scannable(row.record);
  }

  /** A claim that the store carries out and answers is heard exactly when no claimed row has a blank event type. */
  lemma HeardIff(table: Table, ids: seq<string>, now: Time, limit: int, max: int)
    requires TableOk(table, max) && LegalClaim(table, ids, now, limit) && !IsZero(now)
    ensures Heard(Done, ClaimAll(table, ids, now), ids).Done? <==>
            forall id <- ids :: !Blank(table[id].record.eventType)
  {
    forall id <- ids ensures Scannable(ClaimAll(table, ids, now)[id].record) <==> !Blank(table[id].record.eventType) {
      assert RowOk(id, table[id], max);
      ClaimedIsScannableIff(id, table[id], now, max);
    }
  }

  /** The first claimed row is offered to the deliverer, and no call is ever taken back. */
  lemma FirstIsOffered(redact: string -> string, table: Table, ids: seq<string>, reply: string -> Reply,
                       failure: Failure)
    requires TableOk(table, failure.maxAttempts) && Distinct(ids) && AllFresh(table, ids) && !IsZero(failure.now)
             && ids != []
    ensures DeliverAll(redact, table, ids, reply, failure).0[ids[0]].history.calls > table[ids[0]].history.calls
  {
    var (row, outcome) := DeliverOne(redact, table[ids[0]], reply(ids[0]), failure);
    if !outcome.MarkFailed? {
      DeliverOneKeepsRow(redact, ids[0], table[ids[0]], reply(ids[0]), failure);
      RestStaysFresh(table, ids, row);
      RowReplaced(table, ids[0], row, failure.maxAttempts);
      DeliverAllKeeps(redact, table[ids[0] := row], ids[1..], reply, failure);
    }
  }

  /** Some row of the table was offered to the deliverer between the two tables. */
  predicate Offers(before: Table, after: Table) {
    exists id <- before :: id in after && after[id].history.calls > before[id].history.calls
  }

  /**
   * Exactly when a delivery pass offers anything to the deliverer: its configuration is valid, the
   * claim took effect and was answered, it claimed something, and nothing it claimed has a blank
   * event type. One record with a blank type in the batch holds back all the others.
   */
  lemma PassOffersIff(redact: string -> string, table: Table, pass: Pass, max: int)
    requires max > 0 && TableOk(table, max) && Legal(table, pass) && Limit(pass, max) && pass.Delivery?
    ensures Offers(table, Do(redact, table, pass)) <==>
            && pass.config.Valid() && pass.claim.Done? && pass.claimed != []
            && forall id <- pass.claimed :: !Blank(table[id].record.eventType)
  {
    var ids, now := pass.claimed, pass.config.Now();
    if pass.config.Valid() && pass.claim.TookEffect() {
      var claimed := ClaimAll(table, ids, now);
      HeardIff(table, ids, now, pass.config.limit, max);
      ClaimAllKeeps(table, ids, now, pass.config.limit, max);
      if Heard(pass.claim, claimed, ids).Done? && ids != [] {
        FirstIsOffered(redact, claimed, ids, pass.reply, pass.config.Failing(""));
        assert ids[0] in table;
      }
    }
  }

  /** Over every run, a record with a blank event type is never offered to the deliverer and never ends. */
  lemma BlankTypeNeverEnds(redact: string -> string, tables: seq<Table>, passes: seq<Pass>, max: int, i: nat,
                           id: string)
    requires max > 0 && Run(redact, tables, passes, max) && i < |tables| && id in tables[i]
    ensures Blank(tables[i][id].record.eventType) ==>
              tables[i][id].history.calls == 0 && tables[i][id].history.accepted == 0
                  && !tables[i][id].record.status.Terminal()
  {
    RunKeeps(redact, tables, passes, max, i);
  }

  /* ---------- When a record is retried, and when it counts as stale ---------- */

  /** A configured time is the time of the pass; the clock is asked only when there is none. */
  lemma TimeOfPass(config: Config)
    ensures !IsZero(config.now) ==> config.Now() == config.now
    ensures IsZero(config.now) && config.clock.Some? ==> config.Now() == config.clock.value
    ensures config.Valid() ==> config.now != NO_TIME || (config.clock.Some? && config.clock.value != NO_TIME)
  {
  }

  /**
   * A row can be claimed exactly when it is new, or its last failure or recovery plus the backoff of the
   * pass that recorded it is over; and it can be recovered exactly when it is delivering and was claimed
   * at least a threshold ago.
   */
  lemma DueIff(id: string, row: Row, max: int, now: Time, threshold: int)
    requires RowOk(id, row, max)
    ensures Due(row.record, now) <==>
            || row.record.status.Pending?
            || (row.record.status.RetryWait? && row.history.last.WasPutBack?
                && row.history.last.at + row.history.last.backoff <= now)
    ensures Stale(row.record, now - threshold) <==>
            row.record.status.Delivering? && row.history.last.WasClaimed? && row.history.last.at + threshold <= now
  {
  }

  lemma PutBackByDelivery(
    redact: string -> string, table: Table, ids: seq<string>, config: Config, reply: string -> Reply, id: string)
    requires id in table && forall other <- ids :: other in table
    ensures var claimed := ClaimAll(table, ids, config.Now());
            var after := DeliverAll(redact, claimed, ids, reply, config.Failing("")).0[id];
            after.record.status.RetryWait? && after.history.last.WasPutBack? && after != table[id] ==>
              after.history.last == WasPutBack(config.Now(), config.backoff)
  {
    DeliveredMarks(redact, ClaimAll(table, ids, config.Now()), ids, reply, config.Failing(""), id);
  }

  /** A row that a pass changes and leaves waiting for a retry was put back by it, at its time with its backoff. */
  lemma PutBackByPass(redact: string -> string, table: Table, pass: Pass, max: int, id: string)
    requires Legal(table, pass) && id in table
    requires var after := Do(redact, table, pass)[id];
             after != table[id] && after.record.status.RetryWait? && after.history.last.WasPutBack?
    ensures !pass.Append?
    ensures Do(redact, table, pass)[id].history.last == WasPutBack(pass.config.Now(), pass.config.backoff)
  {
    if pass.Delivery? {
      PutBackByDelivery(redact, table, pass.claimed, pass.config, pass.reply, id);
    }
  }

  /** In the delivery loop, a row is left as it was, or carries the time and backoff of the pass. */
  lemma {:induction false} DeliveredMarks(
    redact: string -> string, table: Table, ids: seq<string>, reply: string -> Reply, failure: Failure, id: string)
    requires id in table && forall other <- ids :: other in table
    ensures var after := DeliverAll(redact, table, ids, reply, failure).0[id];
            && ((after.record.status == table[id].record.status && after.history.last == table[id].history.last)
                || after.history.last == WasConfirmed(failure.now)
                || after.history.last == WasPutBack(failure.now, failure.backoff))
            && (id !in ids ==> after == table[id])
  {
    if ids != [] {
      var (row, outcome) := DeliverOne(redact, table[ids[0]], reply(ids[0]), failure);
      assert ids == [ids[0]] + ids[1..];
      if !outcome.MarkFailed? {
        DeliveredMarks(redact, table[ids[0] := row], ids[1..], reply, failure, id);
      }
    }
  }

  /** A row that waits for a retry is left alone by every pass that does not claim it. */
  lemma WaitingRowStays(redact: string -> string, table: Table, pass: Pass, max: int, id: string)
    requires max > 0 && TableOk(table, max) && Legal(table, pass) && Limit(pass, max)
    requires id in table && table[id].record.status.RetryWait?
    ensures var after := Do(redact, table, pass)[id];
            || after == table[id]
            || (after.record.attempts > table[id].record.attempts && pass.Delivery? && id in pass.claimed)
  {
    match pass
    case Append(_, _, _, _) =>
    case Delivery(config, ids, claim, reply) =>
      if config.Valid() && claim.TookEffect() {
        var claimed := ClaimAll(table, ids, config.Now());
        ClaimAllKeeps(table, ids, config.Now(), config.limit, max);
        if Heard(claim, claimed, ids).Done? {
          DeliverAllKeeps(redact, claimed, ids, reply, config.Failing(""));
        }
      }
    case Recovery(_, _, _, _) =>
  }

  lemma ClaimedWhenDue(redact: string -> string, table: Table, pass: Pass, max: int, id: string)
    requires max > 0 && TableOk(table, max) && Legal(table, pass) && Limit(pass, max)
    requires id in table && table[id].record.status.RetryWait?
    ensures var after := Do(redact, table, pass);
            && id in after
            && (after[id] == table[id]
                || (after[id].record.attempts > table[id].record.attempts && pass.Delivery?
                    && Due(table[id].record, pass.config.Now())))
  {
    WaitingRowStays(redact, table, pass, max, id);
  }

  /** One pass of a run, for a row that waits for a retry. */
  lemma WaitingStep(redact: string -> string, tables: seq<Table>, passes: seq<Pass>, max: int, j: nat, id: string)
    requires max > 0 && Run(redact, tables, passes, max) && j < |passes|
    requires id in tables[j] && tables[j][id].record.status.RetryWait?
    ensures id in tables[j + 1]
    ensures tables[j + 1][id] == tables[j][id]
            || (tables[j + 1][id].record.attempts > tables[j][id].record.attempts && passes[j].Delivery?
                && Due(tables[j][id].record, passes[j].config.Now()))
  {
    RunKeeps(redact, tables, passes, max, j);
    assert StepTo(redact, tables, passes, j, max);
    ClaimedWhenDue(redact, tables[j], passes[j], max, id);
  }

  /** One pass of a run that changes a row and leaves it waiting for a retry. */
  lemma PutBackStep(redact: string -> string, tables: seq<Table>, passes: seq<Pass>, max: int, i: nat, id: string)
    requires max > 0 && Run(redact, tables, passes, max) && i < |passes| && id in tables[i] && id in tables[i + 1]
    requires tables[i + 1][id] != tables[i][id] && tables[i + 1][id].record.status.RetryWait?
    ensures !passes[i].Append?
    ensures tables[i + 1][id].history.last == WasPutBack(passes[i].config.Now(), passes[i].config.backoff)
  {
    RunKeeps(redact, tables, passes, max, i + 1);
    assert RowOk(id, tables[i + 1][id], max);
    assert StepTo(redact, tables, passes, i, max);
    PutBackByPass(redact, tables[i], passes[i], max, id);
  }

  /** While no pass claims it again, a row put back stays as it is. */
  lemma {:induction false} WaitsUnchanged(
    redact: string -> string, tables: seq<Table>, passes: seq<Pass>, max: int, i: nat, j: nat, id: string)
    requires max > 0 && Run(redact, tables, passes, max) && i <= j < |tables| && id in tables[i]
    requires tables[i][id].record.status.RetryWait?
    ensures id in tables[j]
    ensures tables[j][id] == tables[i][id] || tables[j][id].record.attempts > tables[i][id].record.attempts
    decreases j
  {
    if i < j {
      WaitsUnchanged(redact, tables, passes, max, i, j - 1, id);
      if tables[j - 1][id] == tables[i][id] {
        WaitingStep(redact, tables, passes, max, j - 1, id);
      } else {
        RunFollows(redact, tables, passes, max, j - 1, j);
      }
    }
  }

  lemma RowOkInRun(redact: string -> string, tables: seq<Table>, passes: seq<Pass>, max: int, j: nat, id: string)
    requires max > 0 && Run(redact, tables, passes, max) && j < |tables| && id in tables[j]
    ensures RowOk(id, tables[j][id], max)
  {
    RunKeeps(redact, tables, passes, max, j);
  }

  /**
   * Over every run: a row that pass i put back, by a failed delivery or a stale recovery, is not claimed
   * by a later pass j before the time of pass i plus its backoff; and from then on it can be claimed.
   */
  lemma RetriedAfterBackoff(
    redact: string -> string, tables: seq<Table>, passes: seq<Pass>, max: int, i: nat, j: nat, id: string, now: Time)
    requires max > 0 && Run(redact, tables, passes, max) && i < j < |tables|
    requires id in tables[i] && id in tables[i + 1] && id in tables[j]
    requires tables[i + 1][id] != tables[i][id] && tables[i + 1][id].record.status.RetryWait?
    requires tables[j][id].record.attempts == tables[i + 1][id].record.attempts
    ensures !passes[i].Append?
    ensures Due(tables[j][id].record, now) <==> now >= passes[i].config.Now() + passes[i].config.backoff
    ensures j < |passes| && id in tables[j + 1] && tables[j + 1][id].record.attempts > tables[j][id].record.attempts ==>
              passes[j].Delivery? && passes[j].config.Now() >= passes[i].config.Now() + passes[i].config.backoff
  {
    PutBackStep(redact, tables, passes, max, i, id);
    WaitsUnchanged(redact, tables, passes, max, i + 1, j, id);
    RowOkInRun(redact, tables, passes, max, j, id);
    DueIff(id, tables[j][id], max, now, 0);
    if j < |passes| {
      WaitingStep(redact, tables, passes, max, j, id);
      if passes[j].Delivery? {
        DueIff(id, tables[j][id], max, passes[j].config.Now(), 0);
      }
    }
  }

  /** A delivering row that a stale-recovery pass may take was claimed at least the pass's threshold before. */
  lemma RecoveredAfterThreshold(table: Table, pass: Pass, max: int, id: string)
    requires TableOk(table, max) && Legal(table, pass) && pass.Recovery? && id in pass.stale
    ensures table[id].record.status.Delivering? && table[id].history.last.WasClaimed?
    ensures table[id].history.last.at + pass.threshold <= pass.config.Now()
  {
    assert RowOk(id, table[id], max);
    DueIff(id, table[id], max, pass.config.Now(), pass.threshold);
  }

  /* ---------- What is stored of an error ---------- */

  /** A stored error text is empty, the stock text, or something that redaction put out. */
  ghost predicate Clean(redact: string -> string, text: string) {
    text == "" || text == "delivery failed" || exists raw: string :: text == redact(raw)
  }

  ghost predicate AllClean(redact: string -> string, table: Table) {
    forall id <- table :: Clean(redact, table[id].record.lastError)
  }

  lemma ErrorTextIsClean(redact: string -> string, text: string)
    ensures Clean(redact, ErrorText(redact, text))
  {
  }

  lemma {:induction false} DeliverAllIsClean(
    redact: string -> string, table: Table, ids: seq<string>, reply: string -> Reply, failure: Failure)
    requires AllClean(redact, table) && forall id <- ids :: id in table
    ensures AllClean(redact, DeliverAll(redact, table, ids, reply, failure).0)
  {
    if ids != [] {
      var (row, outcome) := DeliverOne(redact, table[ids[0]], reply(ids[0]), failure);
      ErrorTextIsClean(redact, redact(reply(ids[0]).errorText));
      assert Clean(redact, table[ids[0]].record.lastError);
      assert Clean(redact, row.record.lastError);
      if !outcome.MarkFailed? {
        DeliverAllIsClean(redact, table[ids[0] := row], ids[1..], reply, failure);
      }
    }
  }

  lemma DoIsClean(redact: string -> string, table: Table, pass: Pass)
    requires AllClean(redact, table) && Legal(table, pass)
    ensures AllClean(redact, Do(redact, table, pass))
  {
    match pass
    case Append(_, _, _, _) =>
    case Delivery(config, ids, claim, reply) =>
      var claimed := ClaimAll(table, ids, config.Now());
      assert AllClean(redact, claimed);
      DeliverAllIsClean(redact, claimed, ids, reply, config.Failing(""));
    case Recovery(_, _, _, _) => ErrorTextIsClean(redact, STALE_REASON);
  }

  /** Over every run, what a deliverer said of a failure is stored only after redaction. */
  lemma {:induction false} ErrorsAreRedacted(
    redact: string -> string, tables: seq<Table>, passes: seq<Pass>, max: int, i: nat)
    requires Run(redact, tables, passes, max) && i < |tables|
    ensures AllClean(redact, tables[i])
  {
    if i > 0 {
      ErrorsAreRedacted(redact, tables, passes, max, i - 1);
      assert StepTo(redact, tables, passes, i - 1, max);
      DoIsClean(redact, tables[i - 1], passes[i - 1]);
    }
  }

  /* ---------- Exactly when the attempt limit holds ---------- */

  predicate RowWithinLimit(record: OutboxRecord, max: int) {
    record.attempts <= max && (record.status.Pending? || record.status.RetryWait? ==> record.attempts < max)
  }

  /** No row is over the attempt limit, and none that can still be claimed is at it. */
  predicate WithinLimit(table: Table, max: int) {
    forall id <- table :: RowWithinLimit(table[id].record, max)
  }

  /** A stale-recovery pass that takes effect on a row whose attempts are used up. */
  predicate RecoversSpentRow(table: Table, pass: Pass, max: int) {
    && pass.Recovery? && pass.config.Valid() && pass.threshold > 0 && pass.recovery.TookEffect()
    && exists id <- pass.stale :: id in table && table[id].record.attempts >= max
  }

  lemma {:induction false} DeliverAllWithinLimit(
    redact: string -> string, table: Table, ids: seq<string>, reply: string -> Reply, failure: Failure)
    requires WithinLimit(table, failure.maxAttempts) && forall id <- ids :: id in table
    ensures WithinLimit(DeliverAll(redact, table, ids, reply, failure).0, failure.maxAttempts)
  {
    if ids != [] {
      var (row, outcome) := DeliverOne(redact, table[ids[0]], reply(ids[0]), failure);
      assert RowWithinLimit(row.record, failure.maxAttempts);
      if !outcome.MarkFailed? {
        DeliverAllWithinLimit(redact, table[ids[0] := row], ids[1..], reply, failure);
      }
    }
  }

  /** A pass keeps the attempt limit exactly when it does not recover a row whose attempts are used up. */
  lemma LimitKeptIff(redact: string -> string, table: Table, pass: Pass, max: int)
    requires max > 0 && Legal(table, pass) && Limit(pass, max) && WithinLimit(table, max)
    ensures WithinLimit(Do(redact, table, pass), max) <==> !RecoversSpentRow(table, pass, max)
  {
    match pass
    case Append(_, _, _, _) =>
    case Delivery(config, ids, claim, reply) =>
      if config.Valid() && claim.TookEffect() {
        var claimed := ClaimAll(table, ids, config.Now());
        assert WithinLimit(claimed, max);
        DeliverAllWithinLimit(redact, claimed, ids, reply, config.Failing(""));
      }
    case Recovery(config, threshold, ids, recovery) =>
      if config.Valid() && threshold > 0 && recovery.TookEffect() {
        var after := Do(redact, table, pass);
        if id :| id in ids && table[id].record.attempts >= max {
          assert !RowWithinLimit(after[id].record, max);
        }
      }
  }

  /** Over a run in which no pass recovers a spent row, attempts never exceed the limit. */
  lemma {:induction false} LimitHoldsOverRun(redact: string -> string, tables: seq<Table>, passes: seq<Pass>,
                                             max: int, i: nat)
    requires max > 0 && Run(redact, tables, passes, max) && i < |tables|
    requires forall j | 0 <= j < i :: !RecoversSpentRow(tables[j], passes[j], max)
    ensures WithinLimit(tables[i], max)
  {
    if i > 0 {
      LimitHoldsOverRun(redact, tables, passes, max, i - 1);
      assert StepTo(redact, tables, passes, i - 1, max);
      LimitKeptIff(redact, tables[i - 1], passes[i - 1], max);
    }
  }

  const LOST := (id: string) => Reply(false, "", Refused)

  function Claimed(row: Row, now: Time): Row {
    Row(ClaimRow(row.record, now), row.history.(calls := row.history.calls + 1, last := WasClaimed(now)))
  }

  /** A pass over a one-row table whose only mark call fails: the attempt is counted, the row stays delivering. */
  lemma LostPass(redact: string -> string, id: string, row: Row, config: Config)
    requires config.Valid() && Due(row.record, config.Now()) && Scannable(ClaimRow(row.record, config.Now()))
    ensures var pass := Delivery(config, [id], Done, LOST);
            Legal(map[id := row], pass) && Do(redact, map[id := row], pass) == map[id := Claimed(row, config.Now())]
  {
    var claimed := ClaimAll(map[id := row], [id], config.Now());
    assert claimed == map[id := Claim(row, config.Now())];
    assert [id][1..] == [];
  }

  lemma LoneRecovery(redact: string -> string, id: string, row: Row, config: Config, threshold: int)
    requires config.Valid() && threshold > 0 && Stale(row.record, config.Now() - threshold)
    ensures var pass := Recovery(config, threshold, [id], Done);
            && Legal(map[id := row], pass)
            && Do(redact, map[id := row], pass) == map[id := Recovered(redact, row, config.Failing(STALE_REASON))]
  {
    LoneRecovered(redact, id, row, config.Failing(STALE_REASON));
    LoneIsLegal(id, row, config.Now() - threshold, config.limit);
  }

  lemma LoneIsLegal(id: string, row: Row, before: Time, limit: int)
    requires limit > 0 && Stale(row.record, before)
    ensures LegalRecovery(map[id := row], [id], before, limit)
  {
  }

  lemma LoneRecovered(redact: string -> string, id: string, row: Row, failure: Failure)
    ensures RecoverAll(redact, map[id := row], [id], failure) == map[id := Recovered(redact, row, failure)]
  {
    assert id in [id];
  }

  lemma SameStep(redact: string -> string, tables: seq<Table>, passes: seq<Pass>, i: nat,
                 tables': seq<Table>, passes': seq<Pass>, j: nat, max: int)
    requires i < |passes| && i + 1 < |tables| && j < |passes'| && j + 1 < |tables'|
    requires tables'[j] == tables[i] && tables'[j + 1] == tables[i + 1] && passes'[j] == passes[i]
    requires StepTo(redact, tables, passes, i, max)
    ensures StepTo(redact, tables', passes', j, max)
  {
  }

  lemma OneMorePass(redact: string -> string, tables: seq<Table>, passes: seq<Pass>, max: int, pass: Pass, after: Table)
    requires Run(redact, tables, passes, max) && StepTo(redact, [tables[|passes|], after], [pass], 0, max)
    ensures Run(redact, tables + [after], passes + [pass], max)
  {
    var tables', passes' := tables + [after], passes + [pass];
    forall i: nat | i < |passes'| ensures StepTo(redact, tables', passes', i, max) {
      if i < |passes| {
        SameStep(redact, tables, passes, i, tables', passes', i, max);
      } else {
        SameStep(redact, [tables[|passes|], after], [pass], 0, tables', passes', i, max);
      }
    }
  }

  lemma NextPass(redact: string -> string, tables: seq<Table>, passes: seq<Pass>, max: int, pass: Pass)
    requires Run(redact, tables, passes, max) && Legal(tables[|passes|], pass) && Limit(pass, max)
    ensures Run(redact, tables + [Do(redact, tables[|passes|], pass)], passes + [pass], max)
  {
    OneMorePass(redact, tables, passes, max, pass, Do(redact, tables[|passes|], pass));
  }

  /** A run that ends in a table of one due row can go on with a lost pass. */
  lemma LostNext(redact: string -> string, tables: seq<Table>, passes: seq<Pass>, id: string, row: Row, config: Config)
    returns (tables': seq<Table>, passes': seq<Pass>)
    requires Run(redact, tables, passes, config.maxAttempts) && tables[|passes|] == map[id := row]
    requires config.Valid() && Due(row.record, config.Now()) && ValidRecord(row.record) && !IsZero(row.record.createdAt)
    ensures Run(redact, tables', passes', config.maxAttempts)
            && tables'[|passes'|] == map[id := Claimed(row, config.Now())]
  {
    var pass := Delivery(config, [id], Done, LOST);
    assert Scannable(ClaimRow(row.record, config.Now()));
    LostPass(redact, id, row, config);
    var after: Table := map[id := Claimed(row, config.Now())];
    OneMorePass(redact, tables, passes, config.maxAttempts, pass, after);
    tables', passes' := tables + [after], passes + [pass];
  }

  /** A run that ends in a table of one stale row can go on with its recovery. */
  lemma RecoveredNext(redact: string -> string, tables: seq<Table>, passes: seq<Pass>, id: string, row: Row,
                      config: Config)
    returns (tables': seq<Table>, passes': seq<Pass>)
    requires Run(redact, tables, passes, config.maxAttempts) && tables[|passes|] == map[id := row]
    requires config.Valid() && Stale(row.record, config.Now() - 1)
    ensures Run(redact, tables', passes', config.maxAttempts)
    ensures tables'[|passes'|] == map[id := Recovered(redact, row, config.Failing(STALE_REASON))]
  {
    var pass := Recovery(config, 1, [id], Done);
    LoneRecovery(redact, id, row, config, 1);
    var after: Table := map[id := Recovered(redact, row, config.Failing(STALE_REASON))];
    OneMorePass(redact, tables, passes, config.maxAttempts, pass, after);
    tables', passes' := tables + [after], passes + [pass];
  }

  function NewRow(event: Event, encoded: string, now: Time): Row
    requires NewRecord(event, Some(encoded), now).Ok?
  {
    Row(NewRecord(event, Some(encoded), now).value, NEW)
  }

  lemma AppendedFirst(redact: string -> string, event: Event, encoded: string, now: Time, max: int)
    returns (tables: seq<Table>, passes: seq<Pass>)
    requires NewRecord(event, Some(encoded), now).Ok?
    ensures Run(redact, tables, passes, max) && |passes| == 1
    ensures tables[1] == map[event.eventId := NewRow(event, encoded, now)]
  {
    var pass := Append(event.eventId, event, Some(encoded), now);
    tables, passes := [map[], Do(redact, map[], pass)], [pass];
    assert StepTo(redact, tables, passes, 0, max);
  }

  lemma AppendedNext(redact: string -> string, tables: seq<Table>, passes: seq<Pass>, event: Event, encoded: string,
                     now: Time, max: int)
    returns (tables': seq<Table>, passes': seq<Pass>)
    requires Run(redact, tables, passes, max) && NewRecord(event, Some(encoded), now).Ok?
             && event.eventId !in tables[|passes|]
    ensures Run(redact, tables', passes', max) && |passes'| == |passes| + 1
    ensures tables'[|passes'|] == tables[|passes|][event.eventId := NewRow(event, encoded, now)]
  {
    var pass := Append(event.eventId, event, Some(encoded), now);
    var after := tables[|passes|][event.eventId := NewRow(event, encoded, now)];
    OneMorePass(redact, tables, passes, max, pass, after);
    tables', passes' := tables + [after], passes + [pass];
  }

  const ACCEPTS := (id: string) => Reply(true, "", Done)

  lemma BothAreDue(good: Event, bad: Event, encoded: string, now: Time, config: Config)
    requires NewRecord(good, Some(encoded), now).Ok? && NewRecord(bad, Some(encoded), now).Ok?
    requires good.eventId != bad.eventId && config.limit >= 2
    ensures var table := map[good.eventId := NewRow(good, encoded, now), bad.eventId := NewRow(bad, encoded, now)];
            Legal(table, Delivery(config, [good.eventId, bad.eventId], Done, ACCEPTS))
  {
  }

  /**
   * Two records are appended, one of them with a blank event type, and a pass claims both with a store
   * and a deliverer that never fail: the good record has used an attempt and was not offered.
   */
  lemma HeldBack(redact: string -> string, good: Event, bad: Event, encoded: string, now: Time, config: Config)
    returns (tables: seq<Table>, passes: seq<Pass>)
    requires NewRecord(good, Some(encoded), now).Ok? && NewRecord(bad, Some(encoded), now).Ok?
    requires good.eventId != bad.eventId && Blank(bad.eventType) && config.Valid() && config.limit >= 2
    ensures Run(redact, tables, passes, config.maxAttempts) && |passes| == 3
    ensures passes[2] == Delivery(config, [good.eventId, bad.eventId], Done, ACCEPTS)
    ensures good.eventId in tables[3]
    ensures var row := tables[3][good.eventId];
            row.record.status.Delivering? && row.record.attempts == 1 && row.history.calls == 0
  {
    var max, pass := config.maxAttempts, Delivery(config, [good.eventId, bad.eventId], Done, ACCEPTS);
    tables, passes := AppendedFirst(redact, good, encoded, now, max);
    tables, passes := AppendedNext(redact, tables, passes, bad, encoded, now, max);
    BothAreDue(good, bad, encoded, now, config);
    var before := tables[|passes|];
    RunKeeps(redact, tables, passes, max, |passes|);
    PoisonedPass(redact, before, pass, max, bad.eventId);
    NextPass(redact, tables, passes, max, pass);
    tables, passes := tables + [Do(redact, before, pass)], passes + [pass];
  }

  const GOOD := Event("good", "x", 1)
  const BAD := Event("bad", " ", 1)
  const ORDINARY := Config("owner", 2, 1, 0, 1, None)

  lemma GoodAndBad()
    ensures NewRecord(GOOD, Some("{}"), 1).Ok? && !Blank(GOOD.eventType)
    ensures NewRecord(BAD, Some("{}"), 1).Ok? && Blank(BAD.eventType)
    ensures ORDINARY.Valid() && GOOD.eventId != BAD.eventId
  {
    assert TrimLeft(" ") == "";
  }

  /** With a concrete event whose type is one space, a good record of the same batch is held back. */
  lemma GoodRecordIsHeldBack(redact: string -> string) returns (tables: seq<Table>, passes: seq<Pass>)
    ensures !Blank(GOOD.eventType) && Run(redact, tables, passes, 1) && |passes| == 3
    ensures passes[2].Delivery? && passes[2].claim.Done? && GOOD.eventId in passes[2].claimed
    ensures GOOD.eventId in tables[3]
    ensures tables[3][GOOD.eventId].record.attempts == 1 && tables[3][GOOD.eventId].history.calls == 0
  {
    GoodAndBad();
    tables, passes := HeldBack(redact, GOOD, BAD, "{}", 1, ORDINARY);
  }

  /** With a limit of one, a stale recovery lets the record be offered to the deliverer a second time. */
  lemma StaleRecoveryPassesTheLimit(redact: string -> string, event: Event, encoded: string, config: Config)
    returns (tables: seq<Table>, passes: seq<Pass>)
    requires NewRecord(event, Some(encoded), config.now).Ok? && !Blank(event.eventType)
    requires config.Valid() && config.maxAttempts == 1 && config.clock.None? && config.now > 0 && config.backoff == 0
    ensures Run(redact, tables, passes, 1)
    ensures event.eventId in tables[|passes|]
    ensures tables[|passes|][event.eventId].record.attempts == tables[|passes|][event.eventId].history.calls == 2
  {
    var id, later := event.eventId, config.(now := config.now + 1);
    var row := NewRow(event, encoded, config.now);
    var second := Claimed(row, config.now);
    var third := Recovered(redact, second, later.Failing(STALE_REASON));
    tables, passes := AppendedFirst(redact, event, encoded, config.now, 1);
    tables, passes := LostNext(redact, tables, passes, id, row, config);
    tables, passes := RecoveredNext(redact, tables, passes, id, second, later);
    tables, passes := LostNext(redact, tables, passes, id, third, later);
  }

  /* ---------- The passes as the source runs them ---------- */

  datatype BatchResult = BatchResult(claimed: nat, delivered: nat, recorded: nat, failed: nat,
                                     results: seq<(string, Outcome)>)

  datatype StaleResult = StaleResult(recovered: nat, retryWait: nat, failedTerminal: nat, failed: nat)

  /** From `table`, with `outcomes` behind it, the loop is on its way to `goal`. */
  predicate Heading(redact: string -> string, table: Table, ids: seq<string>, i: nat, reply: string -> Reply,
                    failure: Failure, outcomes: seq<Outcome>, goal: (Table, seq<Outcome>))
    requires i <= |ids| && forall id <- ids :: id in table
  {
    var rest := DeliverAll(redact, table, ids[i..], reply, failure);
    goal == (rest.0, outcomes + rest.1)
  }

  lemma HeadingStep(redact: string -> string, table: Table, ids: seq<string>, i: nat, reply: string -> Reply,
                    failure: Failure, outcomes: seq<Outcome>, goal: (Table, seq<Outcome>))
    requires i < |ids| && (forall id <- ids :: id in table)
             && Heading(redact, table, ids, i, reply, failure, outcomes, goal)
    ensures var (row, outcome) := DeliverOne(redact, table[ids[i]], reply(ids[i]), failure);
            if outcome.MarkFailed? then goal == (table[ids[i] := row], outcomes + [MarkFailed])
            else Heading(redact, table[ids[i] := row], ids, i + 1, reply, failure, outcomes + [outcome], goal)
  {
    var (row, outcome) := DeliverOne(redact, table[ids[i]], reply(ids[i]), failure);
    assert ids[i..][0] == ids[i] && ids[i..][1..] == ids[i + 1..];
    if !outcome.MarkFailed? {
      var rest := DeliverAll(redact, table[ids[i] := row], ids[i + 1..], reply, failure);
      assert outcomes + ([outcome] + rest.1) == outcomes + [outcome] + rest.1;
    }
  }

  /** The counters and the result list say what became of each record that was handled. */
  predicate Tallies(result: BatchResult, ids: seq<string>, outcomes: seq<Outcome>) {
    && result.claimed == |ids|
    && result.delivered == Count(outcomes, WasDelivered)
    && result.recorded == Count(outcomes, FailureRecorded)
    && result.failed == Count(outcomes, MarkFailed)
    && |result.results| == |outcomes| <= |ids|
    && forall i | 0 <= i < |outcomes| :: result.results[i] == (ids[i], outcomes[i])
  }

  /** One more handled record. */
  function Tallied(result: BatchResult, id: string, outcome: Outcome): BatchResult {
    var noted := result.(results := result.results + [(id, outcome)]);
    match outcome
    case WasDelivered => noted.(delivered := noted.delivered + 1)
    case FailureRecorded => noted.(recorded := noted.recorded + 1)
    case MarkFailed => noted.(failed := noted.failed + 1)
  }

  lemma TallyOne(result: BatchResult, ids: seq<string>, outcomes: seq<Outcome>, outcome: Outcome)
    requires Tallies(result, ids, outcomes) && |outcomes| < |ids|
    ensures Tallies(Tallied(result, ids[|outcomes|], outcome), ids, outcomes + [outcome])
  {
    CountAppend(outcomes, outcome, WasDelivered);
    CountAppend(outcomes, outcome, FailureRecorded);
    CountAppend(outcomes, outcome, MarkFailed);
  }

  /** Every outcome is counted in exactly one of the three counters. */
  lemma {:induction false} CountsAddUp(outcomes: seq<Outcome>)
    ensures Count(outcomes, WasDelivered) + Count(outcomes, FailureRecorded) + Count(outcomes, MarkFailed) == |outcomes|
    ensures Count(outcomes, MarkFailed) == 0 <==> MarkFailed !in outcomes
  {
    if outcomes != [] {
      var init, last := outcomes[..|outcomes| - 1], outcomes[|outcomes| - 1];
      CountsAddUp(init);
      assert outcomes == init + [last];
      assert last == WasDelivered || last == FailureRecorded || last == MarkFailed;
      CountAppend(init, last, WasDelivered);
      CountAppend(init, last, FailureRecorded);
      CountAppend(init, last, MarkFailed);
    }
  }

  /**
   * An error-free pass accounts for every claimed record; any pass has at most one failure, and it is
   * the last thing it did.
   */
  lemma PassAddsUp(redact: string -> string, table: Table, ids: seq<string>, reply: string -> Reply, failure: Failure,
                   result: BatchResult)
    requires forall id <- ids :: id in table
    requires Tallies(result, ids, DeliverAll(redact, table, ids, reply, failure).1)
    ensures var outcomes := DeliverAll(redact, table, ids, reply, failure).1;
            && (MarkFailed !in outcomes ==> result.claimed == result.delivered + result.recorded && result.failed == 0)
            && (MarkFailed in outcomes ==> result.failed == 1 && outcomes[|outcomes| - 1] == MarkFailed)
            && result.delivered + result.recorded + result.failed == |result.results| <= result.claimed
  {
    var outcomes := DeliverAll(redact, table, ids, reply, failure).1;
    CountsAddUp(outcomes);
    DeliverAllStopsAtFailure(redact, table, ids, reply, failure);
    OnlyLastFails(outcomes);
  }

  lemma OnlyLastFails(outcomes: seq<Outcome>)
    requires forall i | 0 <= i < |outcomes| - 1 :: !outcomes[i].MarkFailed?
    ensures var failed := outcomes != [] && outcomes[|outcomes| - 1].MarkFailed?;
            (MarkFailed in outcomes <==> failed) && Count(outcomes, MarkFailed) == if failed then 1 else 0
  {
    if outcomes != [] {
      var init := outcomes[..|outcomes| - 1];
      assert outcomes == init + [outcomes[|outcomes| - 1]];
      NoneCounted(init);
    }
  }

  lemma {:induction false} NoneCounted(outcomes: seq<Outcome>)
    requires forall i | 0 <= i < |outcomes| :: !outcomes[i].MarkFailed?
    ensures Count(outcomes, MarkFailed) == 0 && MarkFailed !in outcomes
  {
    if outcomes != [] {
      NoneCounted(outcomes[..|outcomes| - 1]);
    }
  }

  /** scanAuditOutboxRecords finds every returned row acceptable. */
  predicate AllScannable(records: map<string, OutboxRecord>, ids: seq<string>) {
    forall id <- ids :: id in records ==> Scannable(records[id])
  }

  /** The audit_outbox table. The history of each row is kept for specification only. */
  class Store {
    var records: map<string, OutboxRecord>
    ghost var table: Table

    ghost predicate Valid()
      reads this
    {
      records == map id | id in table :: table[id].record
    }

    constructor ()
      ensures Valid() && table == map[]
    {
      records := map[];
      table := map[];
    }

    /** ClaimDueAuditOutboxRecords: `ids` are the rows the statement picks. */
    method ClaimDue(ids: seq<string>, now: Time, limit: int, reply: StoreReply) returns (ok: bool)
      requires Valid() && LegalClaim(table, ids, now, limit)
      modifies this
      ensures Valid() && ok == Heard(reply, ClaimAll(old(table), ids, now), ids).Done?
      ensures table == if reply.TookEffect() then ClaimAll(old(table), ids, now) else old(table)
    {
      if reply.TookEffect() {
        records := map id | id in records :: if id in ids then ClaimRow(records[id], now) else records[id];
        table := ClaimAll(table, ids, now);
      }
      ok := reply.Done? && AllScannable(records, ids);
    }

    /** RecoverStaleAuditOutboxRecords, returning the updated rows. */
    method RecoverStale(redact: string -> string, ids: seq<string>, before: Time, limit: int, failure: Failure,
                        reply: StoreReply)
      returns (ok: bool, recovered: seq<OutboxRecord>)
      requires Valid() && LegalRecovery(table, ids, before, limit)
      modifies this
      ensures Valid() && ok == Heard(reply, RecoverAll(redact, old(table), ids, failure), ids).Done?
      ensures table == if reply.TookEffect() then RecoverAll(redact, old(table), ids, failure) else old(table)
      ensures ok ==> |recovered| == |ids| && forall i | 0 <= i < |ids| :: recovered[i] == table[ids[i]].record
    {
      recovered := [];
      if reply.TookEffect() {
        records := map id | id in records ::
                     if id in ids then RecoverRow(redact, records[id], failure) else records[id];
        table := RecoverAll(redact, table, ids, failure);
      }
      ok := reply.Done? && AllScannable(records, ids);
      if ok {
        recovered := seq(|ids|, i requires 0 <= i < |ids| && ids[i] in records reads this => records[ids[i]]);
      }
    }

    /** MarkAuditOutboxDelivered and MarkAuditOutboxDeliveryFailed, on a row the deliverer was called for. */
    method Mark(redact: string -> string, id: string, reply: Reply, failure: Failure) returns (ok: bool)
      requires Valid() && id in table
      modifies this
      ensures Valid()
      ensures table == old(table)[id := DeliverOne(redact, old(table)[id], reply, failure).0]
      ensures ok == !DeliverOne(redact, old(table)[id], reply, failure).1.MarkFailed?
    {
      var record := records[id];
      ok := reply.mark.Done? && record.status.Delivering?;
      if reply.mark.TookEffect() && record.status.Delivering? {
        var updated := if reply.accepted then ConfirmRow(record, failure.now)
                       else FailRow(redact, record, failure.(lastError := redact(reply.errorText)));
        records := records[id := updated];
      }
      table := table[id := DeliverOne(redact, table[id], reply, failure).0];
    }

    /** The delivery loop of Coordinator.RunOnce over the claimed records, with its counters and result list. */
    method DeliverClaimed(redact: string -> string, ids: seq<string>, reply: string -> Reply, failure: Failure)
      returns (result: BatchResult, ok: bool)
      requires Valid() && forall id <- ids :: id in table
      modifies this
      ensures Valid()
      ensures var (after, outcomes) := DeliverAll(redact, old(table), ids, reply, failure);
              table == after && Tallies(result, ids, outcomes) && ok == (MarkFailed !in outcomes)
    {
      result := BatchResult(|ids|, 0, 0, 0, []);
      ghost var goal := DeliverAll(redact, table, ids, reply, failure);
      ghost var outcomes: seq<Outcome> := [];
      assert ids[0..] == ids && [] + goal.1 == goal.1;
      for i := 0 to |ids|
        invariant Valid() && (forall id <- ids :: id in table)
        invariant Heading(redact, table, ids, i, reply, failure, outcomes, goal)
        invariant |outcomes| == i && MarkFailed !in outcomes && Tallies(result, ids, outcomes)
      {
        var id := ids[i];
        HeadingStep(redact, table, ids, i, reply, failure, outcomes, goal);
        var marked := Mark(redact, id, reply(id), failure);
        var outcome := if !marked then MarkFailed else if reply(id).accepted then WasDelivered else FailureRecorded;
        TallyOne(result, ids, outcomes, outcome);
        result := Tallied(result, id, outcome);
        if !marked {
          return result, false;
        }
        outcomes := outcomes + [outcome];
      }
      assert outcomes + [] == outcomes;
      ok := true;
    }

    /** Coordinator.RunOnce: one delivery pass. An error-free pass accounts for every claimed record. */
    method DeliverOnce(redact: string -> string, config: Config, ids: seq<string>, claim: StoreReply,
                       reply: string -> Reply)
      returns (result: BatchResult, ok: bool)
      requires Valid() && LegalClaim(table, ids, config.Now(), config.limit)
      modifies this
      ensures Valid()
      ensures table == Do(redact, old(table), Delivery(config, ids, claim, reply))
      ensures ok ==> result.claimed == |ids| == result.delivered + result.recorded && result.failed == 0
      ensures var heard := Heard(claim, ClaimAll(old(table), ids, config.Now()), ids).Done?;
              !ok ==> result.failed == if config.Valid() && heard then 1 else 0
      ensures result.delivered + result.recorded + result.failed == |result.results| <= result.claimed <= |ids|
      ensures config.Valid() && Heard(claim, ClaimAll(old(table), ids, config.Now()), ids).Done? ==>
                Tallies(result, ids, DeliverAll(redact, ClaimAll(old(table), ids, config.Now()), ids, reply,
                                                config.Failing("")).1)
    {
      if !config.Valid() {
        return BatchResult(0, 0, 0, 0, []), false;
      }
      var claimed := ClaimDue(ids, config.Now(), config.limit, claim);
      if !claimed {
        return BatchResult(0, 0, 0, 0, []), false;
      }
      ghost var start := table;
      result, ok := DeliverClaimed(redact, ids, reply, config.Failing(""));
      PassAddsUp(redact, start, ids, reply, config.Failing(""), result);
    }

    /**
     * StaleRecoveryCoordinator.RunOnce: one stale-recovery pass. It counts rows by status, but
     * every row the statement returns is in retry_wait, so none is ever counted as failed for good.
     */
    method RecoverOnce(redact: string -> string, config: Config, threshold: int, ids: seq<string>, recovery: StoreReply)
      returns (result: StaleResult, ok: bool)
      requires Valid() && LegalRecovery(table, ids, config.Now() - threshold, config.limit)
      modifies this
      ensures Valid()
      ensures table == Do(redact, old(table), Recovery(config, threshold, ids, recovery))
      ensures ok == (config.Valid() && threshold > 0
                     && Heard(recovery, RecoverAll(redact, old(table), ids, config.Failing(STALE_REASON)), ids).Done?)
      ensures ok ==> result == StaleResult(|ids|, |ids|, 0, 0)
      ensures !ok ==> result == StaleResult(0, 0, 0, if config.Valid() && threshold > 0 then 1 else 0)
    {
      result, ok := StaleResult(0, 0, 0, 0), false;
      if !config.Valid() || threshold <= 0 {
        return;
      }
      var recovered;
      ok, recovered := RecoverStale(redact, ids, config.Now() - threshold, config.limit, config.Failing(STALE_REASON),
                                    recovery);
      if !ok {
        result := StaleResult(0, 0, 0, 1);
        return;
      }
      assert forall i | 0 <= i < |ids| :: ids[i] in ids;
      AllRetry(recovered);
      var retryWait, failedTerminal := CountByStatus(recovered);
      result := StaleResult(|recovered|, retryWait, failedTerminal, 0);
    }
  }

  function CountOf(records: seq<OutboxRecord>, status: OutboxStatus): nat {
    if records == [] then 0
    else CountOf(records[..|records| - 1], status) + if records[|records| - 1].status == status then 1 else 0
  }

  lemma {:induction false} AllRetry(records: seq<OutboxRecord>)
    requires forall record <- records :: record.status.RetryWait?
    ensures CountOf(records, RetryWait) == |records| && CountOf(records, Failed) == 0
  {
    if records != [] {
      AllRetry(records[..|records| - 1]);
    }
  }

  /** The status counters of StaleRecoveryCoordinator.RunOnce. */
  method CountByStatus(records: seq<OutboxRecord>) returns (retryWait: nat, failedTerminal: nat)
    ensures retryWait == CountOf(records, RetryWait) && failedTerminal == CountOf(records, Failed)
  {
    retryWait, failedTerminal := 0, 0;
    for i := 0 to |records|
      invariant retryWait == CountOf(records[..i], RetryWait) && failedTerminal == CountOf(records[..i], Failed)
    {
      assert records[..i + 1][..i] == records[..i];
      match records[i].status
      case RetryWait => retryWait := retryWait + 1;
      case Failed => failedTerminal := failedTerminal + 1;
      case _ =>
    }
    assert records[..|records|] == records;
  }
}
