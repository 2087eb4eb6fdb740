/** Audit outbox records and their transitions (internal/audit/outbox.go). */
module Outbox {
  import opened Common

  datatype OutboxStatus = Pending | Delivering | Delivered | RetryWait | Failed | UnknownStatus(name: string)
  {
    predicate Terminal() {
      Delivered? || Failed?
    }
  }

  /** A raw JSON payload, by what its validation can tell: blank, not a JSON object, or an object. */
  datatype Payload = BlankPayload | NotAnObject(text: string) | Object(text: string)

  datatype OutboxRecord = OutboxRecord(
    eventId: string,
    eventType: string,
    eventTime: Time,
    payload: Payload,
    status: OutboxStatus,
    attempts: int,
    nextRetryAt: Option<Time>,
    lastError: string,
    createdAt: Time,
    updatedAt: Time,
    deliveredAt: Option<Time>)

  datatype Event = Event(eventId: string, eventType: string, time: Time)

  datatype Failure = Failure(maxAttempts: int, backoff: int, lastError: string, now: Time)

  datatype ErrorCode = InvalidRequest | InvalidRecord | InvalidTransition

  datatype Result<+T> = Ok(value: T) | Err(code: ErrorCode, field: string)

  /** `encoded` is the outcome of marshalling the sanitized event: always an object when it succeeds. */
  function NewRecord(event: Event, encoded: Option<string>, now: Time): Result<OutboxRecord> {
    if Blank(event.eventId) then Err(InvalidRequest, "event_id")
    else if event.eventType == "" then Err(InvalidRequest, "event_type")
    else if IsZero(event.time) then Err(InvalidRequest, "event_time")
    else if IsZero(now) then Err(InvalidRequest, "now")
    else if encoded.None? then Err(InvalidRequest, "payload_json")
    else Ok(OutboxRecord(event.eventId, event.eventType, event.time, Object(encoded.value),
                         Pending, 0, None, "", now, now, None))
  }

  function ValidateRecord(record: OutboxRecord): Option<string> {
    if Blank(record.eventId) then Some("event_id")
    else if Blank(record.eventType) then Some("event_type")
    else if IsZero(record.eventTime) then Some("event_time")
    else if !record.payload.Object? then Some("payload_json")
    else if record.status.UnknownStatus? then Some("status")
    else if record.attempts < 0 then Some("delivery_attempt")
    else None
  }

  predicate ValidRecord(record: OutboxRecord) {
    ValidateRecord(record).None?
  }

  function MarkDelivering(record: OutboxRecord, owner: string, now: Time): Result<OutboxRecord> {
    if Blank(owner) then Err(InvalidRequest, "owner")
    else if IsZero(now) then Err(InvalidRequest, "now")
    else if !ValidRecord(record) then Err(InvalidRecord, ValidateRecord(record).value)
    else if !record.status.Pending? && !record.status.RetryWait? then Err(InvalidTransition, "delivery_status")
    else Ok(record.(status := Delivering, attempts := record.attempts + 1,
                    nextRetryAt := None, lastError := "", updatedAt := now))
  }

  function MarkDelivered(record: OutboxRecord, now: Time): Result<OutboxRecord> {
    if IsZero(now) then Err(InvalidRequest, "now")
    else if !ValidRecord(record) then Err(InvalidRecord, ValidateRecord(record).value)
    else if !record.status.Delivering? then Err(InvalidTransition, "delivery_status")
    else Ok(record.(status := Delivered, nextRetryAt := None, lastError := "",
                    deliveredAt := Some(now), updatedAt := now))
  }

  /** The stored error text: redacted, and never empty. */
  function ErrorText(redact: string -> string, text: string): (r: string)
    ensures r != ""
  {
    var redacted := redact(TrimSpace(text));
    if redacted == "" then "delivery failed" else redacted
  }

  function MarkDeliveryFailed(redact: string -> string, record: OutboxRecord, failure: Failure): Result<OutboxRecord> {
    if IsZero(failure.now) then Err(InvalidRequest, "now")
    else if failure.maxAttempts <= 0 then Err(InvalidRequest, "max_attempts")
    else if failure.backoff < 0 then Err(InvalidRequest, "backoff")
    else if !ValidRecord(record) then Err(InvalidRecord, ValidateRecord(record).value)
    else if !record.status.Delivering? then Err(InvalidTransition, "delivery_status")
    else
      var updated := record.(lastError := ErrorText(redact, failure.lastError),
                             updatedAt := failure.now, deliveredAt := None);
      if record.attempts >= failure.maxAttempts then Ok(updated.(status := Failed, nextRetryAt := None))
      else Ok(updated.(status := RetryWait, nextRetryAt := Some(failure.now + failure.backoff)))
  }

  /* ---------- Runs of transitions ---------- */

  datatype Transition =
    | Claim(owner: string, now: Time)
    | Confirm(now: Time)
    | Fail(backoff: int, lastError: string, now: Time)

  function Apply(redact: string -> string, max: int, record: OutboxRecord, t: Transition): Result<OutboxRecord> {
    match t
    case Claim(owner, now) => MarkDelivering(record, owner, now)
    case Confirm(now) => MarkDelivered(record, now)
    case Fail(backoff, text, now) => MarkDeliveryFailed(redact, record, Failure(max, backoff, text, now))
  }

  /** A refused transition leaves the record as it was. */
  function After(redact: string -> string, max: int, record: OutboxRecord, t: Transition): OutboxRecord {
    var result := Apply(redact, max, record, t);
    if result.Ok? then result.value else record
  }

  function Run(redact: string -> string, max: int, record: OutboxRecord, ts: seq<Transition>): OutboxRecord {
    if ts == [] then record
    else After(redact, max, Run(redact, max, record, ts[..|ts| - 1]), ts[|ts| - 1])
  }

  /** How many of the transitions took effect. */
  function Effective(redact: string -> string, max: int, record: OutboxRecord, ts: seq<Transition>): nat {
    if ts == [] then 0
    else
      var init, last := ts[..|ts| - 1], ts[|ts| - 1];
      Effective(redact, max, record, init)
      + if Apply(redact, max, Run(redact, max, record, init), last).Ok? then 1 else 0
  }

  /** Which optional fields are set is decided by the status alone. */
  predicate FieldsFollowStatus(record: OutboxRecord) {
    && !record.status.UnknownStatus?
    && (record.nextRetryAt.Some? <==> record.status.RetryWait?)
    && (record.deliveredAt.Some? <==> record.status.Delivered?)
    && (record.lastError != "" <==> record.status.RetryWait? || record.status.Failed?)
  }

  predicate AttemptsFollowStatus(record: OutboxRecord, max: int) {
    match record.status
    case Pending => record.attempts == 0
    case Delivering => 1 <= record.attempts <= max
    case Delivered => 1 <= record.attempts <= max
    case RetryWait => 1 <= record.attempts < max
    case Failed => record.attempts == max
    case UnknownStatus(_) => false
  }

  /** The number of effective transitions a record has behind it, read off the record. */
  function Age(record: OutboxRecord): int {
    if record.status.Delivering? then 2 * record.attempts - 1 else 2 * record.attempts
  }

  predicate SameEvent(a: OutboxRecord, b: OutboxRecord) {
    && a.eventId == b.eventId && a.eventType == b.eventType && a.eventTime == b.eventTime
    && a.payload == b.payload && a.createdAt == b.createdAt
  }

  /**
   * Over every run with a fixed positive limit: the event is kept, the optional fields and the
   * attempt count follow the status, and the number of effective transitions is Age, so it is
   * at most twice the limit.
   */
  lemma {:induction false} EveryRunIsBounded(
    redact: string -> string, max: int, event: Event, encoded: Option<string>, now: Time, ts: seq<Transition>)
    requires max > 0 && NewRecord(event, encoded, now).Ok?
    ensures var start := NewRecord(event, encoded, now).value;
            var record := Run(redact, max, start, ts);
            && SameEvent(start, record)
            && FieldsFollowStatus(record)
            && AttemptsFollowStatus(record, max)
            && 0 <= record.attempts <= max
            && Effective(redact, max, start, ts) == Age(record) <= 2 * max
            && record.updatedAt != NO_TIME
  {
    if ts != [] {
      EveryRunIsBounded(redact, max, event, encoded, now, ts[..|ts| - 1]);
    }
  }

  /** Delivered and failed records accept no transition at all. */
  lemma {:induction false} TerminalIsAbsorbing(redact: string -> string, max: int, record: OutboxRecord,
                                               ts: seq<Transition>)
    requires record.status.Terminal()
    ensures Run(redact, max, record, ts) == record
    ensures Effective(redact, max, record, ts) == 0
  {
    if ts != [] {
      TerminalIsAbsorbing(redact, max, record, ts[..|ts| - 1]);
    }
  }

  /**
   * An event type of spaces is accepted at creation but refused by every later validation: these
   * functions never move such a record. (The store's statements do; see OutboxDelivery.)
   */
  lemma {:induction false} BlankTypeIsStuck(
    redact: string -> string, max: int, event: Event, encoded: Option<string>, now: Time, ts: seq<Transition>)
    requires NewRecord(event, encoded, now).Ok? && Blank(event.eventType)
    ensures var start := NewRecord(event, encoded, now).value;
            Run(redact, max, start, ts) == start && Effective(redact, max, start, ts) == 0
  {
    if ts != [] {
      BlankTypeIsStuck(redact, max, event, encoded, now, ts[..|ts| - 1]);
    }
  }

  lemma FreshRecordMovesIff(event: Event, encoded: Option<string>, now: Time, owner: string, at: Time)
    requires NewRecord(event, encoded, now).Ok? && !Blank(owner) && !IsZero(at)
    ensures MarkDelivering(NewRecord(event, encoded, now).value, owner, at).Ok? <==> !Blank(event.eventType)
  {
  }
}

/** What recovery may do with an outbox record (internal/inspection/recovery_planner.go:113-156). */
module OutboxRecovery {
  import opened Common
  import opened Outbox
  import opened Recovery

  function ValidateForRecovery(record: OutboxRecord): string {
    if Blank(record.eventId) then "missing_outbox_event_id"
    else if Blank(record.eventType) then "missing_outbox_event_type"
    else if IsZero(record.eventTime) then "missing_outbox_event_time"
    else if record.payload.BlankPayload? then "missing_outbox_payload_json"
    else if record.payload.NotAnObject? then "invalid_outbox_payload_json"
    else if record.status.UnknownStatus? then "invalid_outbox_status:" + record.status.name
    else if record.attempts < 0 then "invalid_outbox_delivery_attempt"
    else ""
  }

  function ClassifyOutbox(record: OutboxRecord, ctx: RecoveryContext): RecoveryPlan {
    if ValidateForRecovery(record) != "" then Manual(ValidateForRecovery(record))
    else
      match record.status
      case Pending => RecoveryPlan(Deliver, "outbox_pending")
      case RetryWait =>
        if record.nextRetryAt.None? then Manual("retry_wait_missing_next_retry_at")
        else if IsZero(ctx.now) then Manual("missing_recovery_time")
        else if record.nextRetryAt.value > ctx.now then RecoveryPlan(Wait, "outbox_retry_wait_future")
        else RecoveryPlan(Deliver, "outbox_retry_wait_due")
      case Delivering =>
        if IsZero(record.updatedAt) then Manual("delivering_missing_updated_at")
        else if IsZero(ctx.now) then Manual("missing_recovery_time")
        else if ctx.staleDeliveringThreshold <= 0 then Manual("invalid_stale_delivering_threshold")
        else if record.updatedAt + ctx.staleDeliveringThreshold > ctx.now then
          RecoveryPlan(Wait, "outbox_delivering_not_stale")
        else RecoveryPlan(Recover, "outbox_delivering_stale")
      case Delivered =>
        if record.deliveredAt.None? then Manual("delivered_missing_delivered_at")
        else RecoveryPlan(Noop, "outbox_delivered")
      case Failed => Manual("outbox_failed")
      case UnknownStatus(name) => Manual("invalid_outbox_status:" + name)
  }

  /** The instant at which a waiting record stops waiting. */
  function WaitEnds(record: OutboxRecord, ctx: RecoveryContext): Time {
    if record.nextRetryAt.Some? then record.nextRetryAt.value else record.updatedAt + ctx.staleDeliveringThreshold
  }

  /** The two validators accept the same records. */
  lemma ValidatorsAgree(record: OutboxRecord)
    ensures ValidateForRecovery(record) == "" <==> ValidRecord(record)
  {
  }

  /** New, or waiting for a retry whose time has come. */
  predicate IsDue(record: OutboxRecord, now: Time) {
    || record.status.Pending?
    || (record.status.RetryWait? && record.nextRetryAt.Some? && record.nextRetryAt.value <= now)
  }

  /** Claimed, and not touched for as long as the threshold. */
  predicate IsStale(record: OutboxRecord, now: Time, threshold: int) {
    record.status.Delivering? && record.updatedAt + threshold <= now
  }

  /**
   * The classifier and the transitions agree on a record that follows its status: it is to be delivered
   * exactly when due and recovered exactly when stale, and both can then be done.
   */
  lemma PlanMatchesTransitions(
    redact: string -> string, record: OutboxRecord, ctx: RecoveryContext, owner: string, failure: Failure, later: Time)
    requires FieldsFollowStatus(record) && ValidRecord(record) && !IsZero(record.updatedAt)
    requires !IsZero(ctx.now) && ctx.staleDeliveringThreshold > 0
    requires !Blank(owner) && !IsZero(failure.now) && failure.maxAttempts > 0 && failure.backoff >= 0
    requires !IsZero(later)
    ensures var plan := ClassifyOutbox(record, ctx).action;
            && (plan.Deliver? <==> IsDue(record, ctx.now))
            && (plan.Recover? <==> IsStale(record, ctx.now, ctx.staleDeliveringThreshold))
            && (plan.Deliver? ==> MarkDelivering(record, owner, ctx.now).Ok?)
            && (plan.Recover? ==> MarkDeliveryFailed(redact, record, failure).Ok?)
            && (plan.Noop? <==> record.status.Delivered?)
            && (plan.ManualIntervention? <==> record.status.Failed?)
            && (plan.Wait? ==> WaitEnds(record, ctx) > ctx.now)
            && (plan.Wait? ==> (ClassifyOutbox(record, ctx.(now := later)).action.Wait? <==>
                                later < WaitEnds(record, ctx)))
  {
    ValidatorsAgree(record);
  }

  /**
   * Every record that a run can reach from an event with a non-blank type is one the classifier
   * understands: no reachable record is wrongly handed to an operator, and none waits for ever.
   */
  lemma ReachableRecordsAreClassified(
    redact: string -> string, max: int, event: Event, encoded: Option<string>, created: Time, ts: seq<Transition>,
    ctx: RecoveryContext, owner: string, backoff: int, text: string, later: Time)
    requires max > 0 && backoff >= 0 && NewRecord(event, encoded, created).Ok? && !Blank(event.eventType)
    requires !IsZero(ctx.now) && ctx.staleDeliveringThreshold > 0 && !Blank(owner) && !IsZero(later)
    ensures var record := Run(redact, max, NewRecord(event, encoded, created).value, ts);
            var plan := ClassifyOutbox(record, ctx).action;
            && (plan.Deliver? <==> IsDue(record, ctx.now))
            && (plan.Recover? <==> IsStale(record, ctx.now, ctx.staleDeliveringThreshold))
            && (plan.Deliver? ==> Apply(redact, max, record, Claim(owner, ctx.now)).Ok?)
            && (plan.Recover? ==> Apply(redact, max, record, Fail(backoff, text, ctx.now)).Ok?)
            && (plan.Noop? <==> record.status.Delivered?)
            && (plan.ManualIntervention? <==> record.status.Failed? && record.attempts == max)
            && (plan.Wait? ==> WaitEnds(record, ctx) > ctx.now)
            && (plan.Wait? ==> (ClassifyOutbox(record, ctx.(now := later)).action.Wait? <==>
                                later < WaitEnds(record, ctx)))
  {
    EveryRunIsBounded(redact, max, event, encoded, created, ts);
    var record := Run(redact, max, NewRecord(event, encoded, created).value, ts);
    assert ValidRecord(record);
    PlanMatchesTransitions(redact, record, ctx, owner, Failure(max, backoff, text, ctx.now), later);
  }
}
