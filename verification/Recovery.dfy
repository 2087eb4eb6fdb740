/** What recovery may do with one operation or one fence (internal/inspection/recovery_planner.go). */
module Recovery {
  import opened Common
  import opened Fences

  datatype RecoveryAction =
    | Noop | Claimable | Retry | Wait | Reclaim | Recover | Deliver | FinalizeCancellation | ManualIntervention

  datatype RecoveryPlan = RecoveryPlan(action: RecoveryAction, reason: string)

  function Manual(reason: string): RecoveryPlan {
    RecoveryPlan(ManualIntervention, reason)
  }

  datatype RecoveryContext = RecoveryContext(now: Time, explicitRecovery: bool, staleDeliveringThreshold: int)

  datatype OperationState =
    | Queued | Running | Succeeded | FailedState | CancelRequested | Cancelled | OperatorInterventionState
    | UnknownState(name: string)
  {
    predicate IsTerminal() {
      Succeeded? || FailedState? || Cancelled?
    }
  }

  datatype OperationRecord = OperationRecord(
    id: string,
    operationType: string,
    state: OperationState,
    attempt: int,
    leaseOwner: string,
    leaseExpiresAt: Option<Time>,
    namespaceId: string,
    repoId: string)

  /** "" when lease owner and lease expiry are both absent or both present. */
  function ValidateLeasePair(record: OperationRecord): string {
    if record.leaseOwner != "" && Blank(record.leaseOwner) then "invalid_operation_lease_owner"
    else if !Blank(record.leaseOwner) != record.leaseExpiresAt.Some? then "invalid_operation_lease_pair"
    else ""
  }

  function ClassifyOperation(record: OperationRecord, ctx: RecoveryContext): RecoveryPlan {
    if record.attempt < 0 then Manual("invalid_operation_attempt")
    else if ValidateLeasePair(record) != "" then Manual(ValidateLeasePair(record))
    else if record.state.UnknownState? then Manual("invalid_operation_state:" + record.state.name)
    else if record.state.IsTerminal() then RecoveryPlan(Noop, "operation_terminal")
    else
      match record.state
      case Queued =>
        if record.leaseExpiresAt.Some? || !Blank(record.leaseOwner) then Manual("queued_operation_has_lease")
        else if record.attempt > 0 then RecoveryPlan(Retry, "queued_operation_retry")
        else RecoveryPlan(Claimable, "queued_operation_claimable")
      case Running =>
        if IsZero(ctx.now) then Manual("missing_recovery_time")
        else if record.leaseExpiresAt.None? || Blank(record.leaseOwner) then Manual("running_operation_invalid_lease")
        else if record.leaseExpiresAt.value > ctx.now then RecoveryPlan(Wait, "running_operation_live_lease")
        else RecoveryPlan(Reclaim, "running_operation_expired_lease")
      case OperatorInterventionState =>
        if ctx.explicitRecovery then RecoveryPlan(Recover, "operator_intervention_explicit_recovery")
        else Manual("operator_intervention_required")
      case _ =>
        if record.leaseExpiresAt.Some? && IsZero(ctx.now) then Manual("missing_recovery_time")
        else if record.leaseExpiresAt.Some? && record.leaseExpiresAt.value > ctx.now then
          RecoveryPlan(Wait, "cancel_requested_live_lease")
        else RecoveryPlan(FinalizeCancellation, "cancel_requested")
  }

  predicate LeaseLive(record: OperationRecord, now: Time) {
    record.leaseExpiresAt.Some? && record.leaseExpiresAt.value > now
  }

  /**
   * A live lease is respected: no plan claims an operation, reclaims it, retries it or finishes its
   * cancellation while its lease is live, and a plan that waits does so exactly until the lease
   * expires, when a running operation is reclaimed and a cancellation finished. The one plan that
   * looks at no lease is recovery of an operation that is with an operator, when it was asked for.
   */
  lemma LeaseDecides(record: OperationRecord, ctx: RecoveryContext, later: Time)
    requires !IsZero(ctx.now) && !IsZero(later)
    ensures var now := ClassifyOperation(record, ctx).action;
            var next := ClassifyOperation(record, ctx.(now := later)).action;
            && (now.Reclaim? || now.Retry? || now.Claimable? || now.FinalizeCancellation? ==>
                !LeaseLive(record, ctx.now))
            && (now.Wait? ==> LeaseLive(record, ctx.now))
            && (now.Wait? ==>
                  next == if LeaseLive(record, later) then Wait
                          else if record.state.Running? then Reclaim else FinalizeCancellation)
            && (now.Recover? <==> Readable(record) && record.state.OperatorInterventionState? && ctx.explicitRecovery)
  {
    OperationPlanIff(record, ctx);
    OperationPlanIff(record, ctx.(now := later));
  }

  /** Lease owner and lease expiry are both there or both missing, and an owner is not blank. */
  predicate SoundLease(record: OperationRecord) {
    && (record.leaseOwner == "" || !Blank(record.leaseOwner))
    && (record.leaseExpiresAt.Some? <==> !Blank(record.leaseOwner))
  }

  /** The record can be acted on at all: its attempt count, lease and state make sense. */
  predicate Readable(record: OperationRecord) {
    record.attempt >= 0 && SoundLease(record) && !record.state.UnknownState?
  }

  predicate LeaseOver(record: OperationRecord, now: Time) {
    record.leaseExpiresAt.Some? && record.leaseExpiresAt.value <= now
  }

  /** The operation is neither ended nor a case for an operator. */
  predicate StillMoves(record: OperationRecord, ctx: RecoveryContext) {
    && Readable(record)
    && match record.state
       case Queued => record.leaseExpiresAt.None?
       case Running => record.leaseExpiresAt.Some? && !IsZero(ctx.now)
       case CancelRequested => record.leaseExpiresAt.None? || !IsZero(ctx.now)
       case OperatorInterventionState => ctx.explicitRecovery
       case _ => false
  }

  /** The action that fits an operation that still moves. */
  predicate Fitting(record: OperationRecord, ctx: RecoveryContext, action: RecoveryAction) {
    && (action.Reclaim? <==> record.state.Running? && LeaseOver(record, ctx.now))
    && (action.FinalizeCancellation? <==> record.state.CancelRequested? && !LeaseLive(record, ctx.now))
    && (action.Wait? <==>
        (record.state.Running? || record.state.CancelRequested?) && LeaseLive(record, ctx.now))
    && (action.Retry? <==> record.state.Queued? && record.attempt > 0)
    && (action.Claimable? <==> record.state.Queued? && record.attempt == 0)
    && (action.Recover? <==> record.state.OperatorInterventionState?)
  }

  /**
   * The exact condition of every action, for every record: nothing for a readable one that has ended; an
   * operator for one that is unreadable or cannot be judged; and for one that still moves, the action
   * that its state, its lease and its attempts call for.
   */
  lemma OperationPlanIff(record: OperationRecord, ctx: RecoveryContext)
    ensures var action := ClassifyOperation(record, ctx).action;
            && (action.Noop? <==> Readable(record) && record.state.IsTerminal())
            && (action.ManualIntervention? <==>
                !StillMoves(record, ctx) && !(Readable(record) && record.state.IsTerminal()))
            && (StillMoves(record, ctx) ==> Fitting(record, ctx, action))
            && !action.Deliver?
  {
  }

  function ClassifyFence(fence: Fence): RecoveryPlan {
    match ValidateFence(fence)
    case Some(err) => Manual("invalid_fence:" + err.field)
    case None =>
      if !fence.Held() then RecoveryPlan(Noop, "fence_not_held")
      else
        match fence.status
        case Released => RecoveryPlan(Noop, "fence_released_or_recovered")
        case Recovered => RecoveryPlan(Noop, "fence_released_or_recovered")
        case Active => RecoveryPlan(Wait, "fence_active_held")
        case UnknownStatus(name) => Manual("invalid_fence_status:" + name)
        case _ => RecoveryPlan(Recover, "fence_held_recovery_required")
  }

  /** A valid held fence is waited for while active and recovered once expired or flagged. */
  lemma HeldFencePlan(fence: Fence)
    requires ValidFence(fence) && fence.Held()
    ensures ClassifyFence(fence).action.Wait? <==> fence.status.Active?
    ensures ClassifyFence(fence).action.Recover? <==> fence.status.Expired? || fence.status.RecoveryRequired?
    ensures ClassifyFence(fence).action.Wait? || ClassifyFence(fence).action.Recover?
  {
  }

  function Urgency(action: RecoveryAction): nat {
    match action
    case ManualIntervention => 100
    case Recover => 80
    case Reclaim => 70
    case Wait => 60
    case FinalizeCancellation => 50
    case Retry => 40
    case Claimable => 40
    case Deliver => 30
    case Noop => 0
  }

  function MoreUrgent(current: RecoveryPlan, candidate: RecoveryPlan): RecoveryPlan {
    if Urgency(candidate.action) > Urgency(current.action) then candidate else current
  }
}
