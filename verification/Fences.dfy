/** Repo fences: who may hold a repo, and which fence stops whom (internal/fences). */
module Fences {
  import opened Common
  import opened Identifiers

  datatype Kind = WriterSession | Lifecycle | UnknownKind(name: string)

  datatype Status = Active | Expired | RecoveryRequired | Released | Recovered | UnknownStatus(name: string)

  datatype Fence = Fence(
    id: string,
    repoId: string,
    kind: Kind,
    holderOperationId: string,
    status: Status,
    expiresAt: Time,
    releasedAt: Option<Time>,
    recoveryOperationId: string,
    recoveryStartedAt: Option<Time>,
    recoveredAt: Option<Time>,
    createdAt: Time,
    updatedAt: Time)
  {
    /** Held until released or recovered, whatever its expiry says. */
    predicate Held() {
      releasedAt.None? && recoveredAt.None?
    }
  }

  datatype Family = InvalidIdFamily | WriterSessionFenceHeld | RepoLifecycleFenceHeld | OperationRecoveryRequired

  /** The family and field of a Go FenceError; its human-readable reason is not modelled. */
  datatype FenceError = FenceError(family: Family, field: string)

  function Invalid(field: string): Option<FenceError> {
    Some(FenceError(InvalidIdFamily, field))
  }

  function ValidateFence(fence: Fence): Option<FenceError> {
    if Blank(fence.id) then Invalid("id")
    else if !ValidId(RepoId, fence.repoId) then Invalid("repo_id")
    else if fence.kind.UnknownKind? then Invalid("kind")
    else if !ValidId(OperationId, fence.holderOperationId) then Invalid("holder_operation_id")
    else if fence.status.UnknownStatus? then Invalid("status")
    else if IsZero(fence.expiresAt) then Invalid("expires_at")
    else if IsZero(fence.createdAt) then Invalid("created_at")
    else if IsZero(fence.updatedAt) then Invalid("updated_at")
    else if fence.recoveryOperationId != "" && !ValidId(OperationId, fence.recoveryOperationId) then
      Invalid("recovery_operation_id")
    else ValidateTimes(fence)
  }

  function ValidateTimes(fence: Fence): Option<FenceError> {
    match fence.status
    case Released =>
      if fence.releasedAt.None? then Invalid("released_at")
      else if fence.recoveredAt.Some? then Invalid("recovered_at")
      else None
    case Recovered =>
      if fence.releasedAt.None? then Invalid("released_at")
      else if fence.recoveredAt.None? then Invalid("recovered_at")
      else if fence.recoveryStartedAt.None? then Invalid("recovery_started_at")
      else None
    case UnknownStatus(_) => None
    case _ =>
      if fence.releasedAt.Some? then Invalid("released_at")
      else if fence.recoveredAt.Some? then Invalid("recovered_at")
      else None
  }

  predicate ValidFence(fence: Fence) {
    ValidateFence(fence).None?
  }

  datatype ConflictMode = FailClosed | WaitOrRecover | UnknownMode(name: string)

  datatype Request = Request(repoId: string, kind: Kind, holderOperationId: string, mode: ConflictMode)

  datatype Action = Acquire | Deny | WaitOrRecoverFirst

  datatype Decision = Decision(allowed: bool, action: Action, blocking: Option<Fence>, error: Option<FenceError>)

  function DenyWith(fence: Option<Fence>, error: FenceError): Decision {
    Decision(false, Deny, fence, Some(error))
  }

  function ValidateRequest(request: Request): Option<FenceError> {
    if !ValidId(RepoId, request.repoId) then Invalid("repo_id")
    else if request.kind.UnknownKind? then Invalid("kind")
    else if !ValidId(OperationId, request.holderOperationId) then Invalid("holder_operation_id")
    else if request.mode.UnknownMode? then Invalid("conflict_mode")
    else None
  }

  predicate WellFormed(request: Request) {
    ValidateRequest(request).None?
  }

  /** One iteration of the scan: a decision that ends it, or None to go on. */
  function Verdict(request: Request, fence: Fence): Option<Decision> {
    if !ValidId(RepoId, fence.repoId) then
      Some(DenyWith(Some(fence), FenceError(OperationRecoveryRequired, "repo_id")))
    else if fence.repoId != request.repoId then None
    else
      match ValidateFence(fence)
      case Some(err) => Some(DenyWith(Some(fence), FenceError(OperationRecoveryRequired, err.field)))
      case None =>
        if !fence.Held() then None
        else if fence.status.Expired? || fence.status.RecoveryRequired? then
          Some(DenyWith(Some(fence), FenceError(OperationRecoveryRequired, "status")))
        else
          match fence.kind
          case Lifecycle => Some(DenyWith(Some(fence), FenceError(RepoLifecycleFenceHeld, "fence_kind")))
          case WriterSession =>
            if request.kind.Lifecycle? && request.mode.WaitOrRecover? then
              Some(Decision(false, WaitOrRecoverFirst, Some(fence), None))
            else
              Some(DenyWith(Some(fence), FenceError(WriterSessionFenceHeld, "fence_kind")))
          case UnknownKind(_) =>
            Some(DenyWith(Some(fence), FenceError(OperationRecoveryRequired, "fence_kind")))
  }

  function Scan(request: Request, existing: seq<Fence>): Decision {
    if existing == [] then Decision(true, Acquire, None, None)
    else
      match Verdict(request, existing[0])
      case Some(decision) => decision
      case None => Scan(request, existing[1..])
  }

  function CanAcquire(request: Request, existing: seq<Fence>): Decision {
    match ValidateRequest(request)
    case Some(err) => DenyWith(None, err)
    case None => Scan(request, existing)
  }

  /** A fence that leaves `request` free to go on: readable, and if of this repo, valid and let go. */
  predicate LetsThrough(request: Request, fence: Fence) {
    && ValidId(RepoId, fence.repoId)
    && (fence.repoId == request.repoId ==> ValidFence(fence) && !fence.Held())
  }

  /** Permission is exactly: a well-formed request that every listed fence lets through. */
  lemma {:induction false} AllowedIff(request: Request, existing: seq<Fence>)
    ensures CanAcquire(request, existing).allowed
       <==> WellFormed(request) && forall fence <- existing :: LetsThrough(request, fence)
  {
    if WellFormed(request) {
      ScanAllowedIff(request, existing);
    }
  }

  lemma VerdictEndsInRefusal(request: Request, fence: Fence)
    ensures Verdict(request, fence).None? <==> LetsThrough(request, fence)
    ensures Verdict(request, fence).Some? ==> !Verdict(request, fence).value.allowed
  {
  }

  lemma {:induction false} ScanAllowedIff(request: Request, existing: seq<Fence>)
    ensures Scan(request, existing).allowed <==> forall fence <- existing :: LetsThrough(request, fence)
  {
    if existing != [] {
      VerdictEndsInRefusal(request, existing[0]);
      ScanAllowedIff(request, existing[1..]);
      assert existing == [existing[0]] + existing[1..];
    }
  }

  /** Permission ignores the order of the list, and adding fences never grants it. */
  lemma PermissionIsOrderFreeAndShrinks(request: Request, a: seq<Fence>, b: seq<Fence>, more: seq<Fence>)
    requires multiset(a) == multiset(b)
    ensures CanAcquire(request, a).allowed == CanAcquire(request, b).allowed
    ensures CanAcquire(request, a + more).allowed ==> CanAcquire(request, b).allowed
  {
    AllowedIff(request, a);
    AllowedIff(request, b);
    AllowedIff(request, a + more);
    forall fence ensures fence in a <==> fence in b {
      assert fence in a <==> fence in multiset(a);
      assert fence in b <==> fence in multiset(b);
    }
    assert forall fence <- a :: fence in a + more;
  }

  predicate AllValid(table: seq<Fence>) {
    forall fence <- table :: ValidFence(fence)
  }

  predicate Holds(fence: Fence, repoId: string) {
    fence.repoId == repoId && fence.Held()
  }

  /** The rows that hold the repo, if any, are one and the same fence. */
  predicate SoleHolder(table: seq<Fence>, repoId: string) {
    forall f <- table, g <- table :: Holds(f, repoId) && Holds(g, repoId) ==> f == g
  }

  /** A fence that passes validation, said field by field. */
  predicate SoundFence(fence: Fence) {
    && !Blank(fence.id) && ValidId(RepoId, fence.repoId) && ValidId(OperationId, fence.holderOperationId)
    && !fence.kind.UnknownKind? && !fence.status.UnknownStatus?
    && !IsZero(fence.expiresAt) && !IsZero(fence.createdAt) && !IsZero(fence.updatedAt)
    && (fence.recoveryOperationId == "" || ValidId(OperationId, fence.recoveryOperationId))
    && (fence.releasedAt.Some? <==> fence.status.Released? || fence.status.Recovered?)
    && (fence.recoveredAt.Some? <==> fence.status.Recovered?)
    && (fence.status.Recovered? ==> fence.recoveryStartedAt.Some?)
  }

  /** Validation accepts exactly the sound fences; so a valid fence is held exactly while its status says so. */
  lemma ValidIffSound(fence: Fence)
    ensures ValidFence(fence) <==> SoundFence(fence)
    ensures ValidFence(fence) ==>
              (fence.Held() <==> fence.status.Active? || fence.status.Expired? || fence.status.RecoveryRequired?)
  {
  }

  /** A request is well formed exactly when its ids, its kind and its mode are. */
  lemma WellFormedIff(request: Request)
    ensures WellFormed(request) <==>
            && ValidId(RepoId, request.repoId) && ValidId(OperationId, request.holderOperationId)
            && !request.kind.UnknownKind? && !request.mode.UnknownMode?
    ensures !WellFormed(request) ==>
              forall table: seq<Fence> ::
                && !CanAcquire(request, table).allowed && CanAcquire(request, table).blocking.None?
                && CanAcquire(request, table).error.Some?
                && CanAcquire(request, table).error.value.family == InvalidIdFamily
  {
  }

  /**
   * With valid fences and a single holder, the whole decision follows from the holder's status and
   * kind and the request's kind and mode: the holder blocks; recovery comes first exactly when it is
   * expired or flagged; a lifecycle request that may wait does so for an active writer; and any other
   * refusal is that of the holder's kind.
   */
  lemma HolderDecides(request: Request, table: seq<Fence>, holder: Fence)
    requires WellFormed(request) && AllValid(table) && SoleHolder(table, request.repoId)
    requires holder in table && Holds(holder, request.repoId)
    ensures var decision := CanAcquire(request, table);
            var waits := holder.status.Active? && holder.kind.WriterSession? && request.kind.Lifecycle?
                         && request.mode.WaitOrRecover?;
            && !decision.allowed && decision.blocking == Some(holder)
            && decision.action == (if waits then WaitOrRecoverFirst else Deny)
            && (decision.error.None? <==> waits)
            && (decision.error.Some? ==>
                  decision.error.value.family
                  == if holder.status.Expired? || holder.status.RecoveryRequired? then OperationRecoveryRequired
                     else if holder.kind.Lifecycle? then RepoLifecycleFenceHeld else WriterSessionFenceHeld)
  {
    ValidIffSound(holder);
    HolderVerdict(request, table, holder);
  }

  /**
   * The decision for every list: the first fence that does not let a well-formed request through blocks
   * it. One that cannot be read or is not valid calls for recovery; a valid one is held, and decides by
   * its status and kind as a sole holder does.
   */
  lemma {:induction false} FirstBlockerDecides(request: Request, table: seq<Fence>, k: nat)
    requires WellFormed(request) && k < |table| && !LetsThrough(request, table[k])
    requires forall i | 0 <= i < k :: LetsThrough(request, table[i])
    ensures var decision, fence := CanAcquire(request, table), table[k];
            var waits := && ValidFence(fence) && fence.status.Active? && fence.kind.WriterSession?
                         && request.kind.Lifecycle? && request.mode.WaitOrRecover?;
            && !decision.allowed && decision.blocking == Some(fence)
            && decision.action == (if waits then WaitOrRecoverFirst else Deny)
            && (decision.error.None? <==> waits)
            && (decision.error.Some? ==>
                  decision.error.value.family
                  == if !ValidFence(fence) || fence.status.Expired? || fence.status.RecoveryRequired?
                     then OperationRecoveryRequired
                     else if fence.kind.Lifecycle? then RepoLifecycleFenceHeld else WriterSessionFenceHeld)
    decreases k
  {
    VerdictEndsInRefusal(request, table[0]);
    ValidIffSound(table[k]);
    if k > 0 {
      FirstBlockerDecides(request, table[1..], k - 1);
    }
  }

  /** With valid fences and a single holder, the scan ends at the holder. */
  lemma HolderVerdict(request: Request, table: seq<Fence>, holder: Fence)
    requires WellFormed(request) && AllValid(table) && SoleHolder(table, request.repoId)
    requires holder in table && Holds(holder, request.repoId)
    ensures Verdict(request, holder).Some?
    ensures CanAcquire(request, table) == Verdict(request, holder).value
  {
    VerdictEndsInRefusal(request, holder);
    forall fence | fence in table && fence != holder ensures Verdict(request, fence).None? {
      VerdictEndsInRefusal(request, fence);
    }
    ScanStopsAt(request, table, holder);
  }

  lemma {:induction false} ScanStopsAt(request: Request, table: seq<Fence>, stop: Fence)
    requires stop in table && Verdict(request, stop).Some?
    requires forall fence <- table :: fence != stop ==> Verdict(request, fence).None?
    ensures Scan(request, table) == Verdict(request, stop).value
  {
    if table[0] != stop {
      assert table == [table[0]] + table[1..];
      ScanStopsAt(request, table[1..], stop);
    }
  }

  /** The full decision, with its blocking fence and error, does not depend on the order. */
  lemma DecisionIsOrderFree(request: Request, a: seq<Fence>, b: seq<Fence>)
    requires multiset(a) == multiset(b)
    requires AllValid(a) && SoleHolder(a, request.repoId)
    ensures CanAcquire(request, a) == CanAcquire(request, b)
  {
    forall fence ensures fence in a <==> fence in b {
      assert fence in a <==> fence in multiset(a);
      assert fence in b <==> fence in multiset(b);
    }
    if WellFormed(request) {
      if fence :| fence in a && Holds(fence, request.repoId) {
        HolderVerdict(request, a, fence);
        HolderVerdict(request, b, fence);
      } else {
        NobodyHolds(request, a);
        NobodyHolds(request, b);
      }
    }
  }

  lemma {:induction false} NobodyHolds(request: Request, table: seq<Fence>)
    requires WellFormed(request) && AllValid(table)
    requires forall fence <- table :: !Holds(fence, request.repoId)
    ensures CanAcquire(request, table) == Decision(true, Acquire, None, None)
  {
    if table != [] {
      assert ValidFence(table[0]) && !Holds(table[0], request.repoId);
      VerdictEndsInRefusal(request, table[0]);
      NobodyHolds(request, table[1..]);
    }
  }

  /* ---------- Runs of the fence table ---------- */

  /** No two rows of the table hold the same repo. */
  predicate OneHolderPerRepo(table: seq<Fence>) {
    forall i, j | 0 <= i < j < |table| :: !(Holds(table[i], table[j].repoId) && table[j].Held())
  }

  /** A new row, inserted only when CanAcquire allows the request it was made for. */
  predicate Acquires(before: seq<Fence>, after: seq<Fence>, request: Request, fence: Fence) {
    && CanAcquire(request, before).allowed
    && ValidFence(fence) && fence.Held()
    && fence.repoId == request.repoId && fence.kind == request.kind
    && fence.holderOperationId == request.holderOperationId
    && after == before + [fence]
  }

  /**
   * Row k changes in place: expiry, recovery request, release, recovery, or a touch of its times.
   * The row stays valid and keeps its identity, and a row that was let go is not held again.
   */
  predicate Changes(before: seq<Fence>, after: seq<Fence>, k: nat, fence: Fence) {
    && k < |before|
    && ValidFence(fence)
    && fence.id == before[k].id && fence.repoId == before[k].repoId && fence.kind == before[k].kind
    && fence.holderOperationId == before[k].holderOperationId
    && (fence.Held() ==> before[k].Held())
    && after == before[k := fence]
  }

  ghost predicate Step(before: seq<Fence>, after: seq<Fence>) {
    || (exists request, fence :: Acquires(before, after, request, fence))
    || (exists k, fence :: Changes(before, after, k, fence))
  }

  /** A history of the table from an empty one. Time passes freely between and during steps. */
  ghost predicate Run(tables: seq<seq<Fence>>) {
    && tables != [] && tables[0] == []
    && forall i | 0 < i < |tables| :: StepTo(tables, i)
  }

  ghost predicate StepTo(tables: seq<seq<Fence>>, i: nat)
    requires 0 < i < |tables|
  {
    Step(tables[i - 1], tables[i])
  }

  predicate Safe(table: seq<Fence>) {
    AllValid(table) && OneHolderPerRepo(table)
  }

  lemma StepKeepsSafe(before: seq<Fence>, after: seq<Fence>)
    requires Safe(before) && Step(before, after)
    ensures Safe(after) && |before| <= |after|
    ensures forall k | 0 <= k < |before| ::
              after[k].repoId == before[k].repoId && (after[k].Held() ==> before[k].Held())
  {
    if request, fence :| Acquires(before, after, request, fence) {
      AcquireKeepsSafe(before, after, request, fence);
    } else {
      var k, fence :| Changes(before, after, k, fence);
      ChangeKeepsSafe(before, after, k, fence);
    }
  }

  lemma AcquireKeepsSafe(before: seq<Fence>, after: seq<Fence>, request: Request, fence: Fence)
    requires Safe(before) && Acquires(before, after, request, fence)
    ensures Safe(after)
  {
    AllowedIff(request, before);
    assert forall k | 0 <= k < |before| :: LetsThrough(request, before[k]);
  }

  lemma ChangeKeepsSafe(before: seq<Fence>, after: seq<Fence>, k: nat, fence: Fence)
    requires Safe(before) && Changes(before, after, k, fence)
    ensures Safe(after)
  {
  }

  /** In every run, every table is valid and has at most one holder per repo. */
  lemma {:induction false} EveryRunIsSafe(tables: seq<seq<Fence>>, i: nat)
    requires Run(tables) && i < |tables|
    ensures Safe(tables[i])
  {
    if i > 0 {
      EveryRunIsSafe(tables, i - 1);
      assert StepTo(tables, i);
      StepKeepsSafe(tables[i - 1], tables[i]);
    }
  }

  /** Rows keep their place and repo, and once let go stay let go. */
  lemma {:induction false} RowsPersist(tables: seq<seq<Fence>>, i: nat, j: nat, k: nat)
    requires Run(tables) && i <= j < |tables| && k < |tables[i]|
    ensures k < |tables[j]|
    ensures tables[j][k].repoId == tables[i][k].repoId
    ensures tables[j][k].Held() ==> tables[i][k].Held()
    decreases j
  {
    if i < j {
      RowsPersist(tables, i, j - 1, k);
      EveryRunIsSafe(tables, j - 1);
      assert StepTo(tables, j);
      StepKeepsSafe(tables[j - 1], tables[j]);
    }
  }

  /**
   * While row k is held, whatever its expiry time and the clock say, no request for its repo is
   * allowed, and every other row of the repo is let go.
   */
  lemma HeldRowExcludesOthers(tables: seq<seq<Fence>>, j: nat, k: nat, request: Request, m: nat)
    requires Run(tables) && j < |tables| && k < |tables[j]|
    ensures tables[j][k].Held() && request.repoId == tables[j][k].repoId
        ==> !CanAcquire(request, tables[j]).allowed
    ensures m < |tables[j]| && m != k && tables[j][k].Held() && tables[j][m].repoId == tables[j][k].repoId
        ==> !tables[j][m].Held()
  {
    EveryRunIsSafe(tables, j);
    AllowedIff(request, tables[j]);
    assert tables[j][k] in tables[j];
  }

  /** Step s lets row k go: the row was held, and becomes a released or recovered one with its release time set. */
  predicate Frees(tables: seq<seq<Fence>>, s: nat, k: nat) {
    && s + 1 < |tables| && k < |tables[s]| && k < |tables[s + 1]|
    && var fence := tables[s + 1][k];
    && tables[s][k].Held() && Changes(tables[s], tables[s + 1], k, fence)
    && (fence.status.Released? || fence.status.Recovered?) && fence.releasedAt.Some?
  }

  lemma StepFrees(tables: seq<seq<Fence>>, s: nat, k: nat)
    requires s + 1 < |tables| && Safe(tables[s]) && StepTo(tables, s + 1)
    requires k < |tables[s]| && tables[s][k].Held()
    ensures k < |tables[s + 1]| && (tables[s + 1][k].Held() || Frees(tables, s, k))
  {
    var before, after := tables[s], tables[s + 1];
    assert Step(before, after);
    if at, fence :| Changes(before, after, at, fence) {
      assert at == k ==> fence == after[k];
    }
  }

  /**
   * Only release or recovery frees a repo. A row that is held in one table of a run and not in a
   * later one was let go by a step in between that released or recovered that very row; being
   * past its expiry, marked expired or flagged for recovery never does it.
   */
  lemma {:induction false} OnlyReleaseFrees(tables: seq<seq<Fence>>, i: nat, j: nat, k: nat) returns (s: nat)
    requires Run(tables) && i <= j < |tables| && k < |tables[i]| && tables[i][k].Held()
    ensures k < |tables[j]|
    ensures !tables[j][k].Held() ==> i <= s < j && Frees(tables, s, k)
    decreases j
  {
    s := i;
    if i < j {
      s := OnlyReleaseFrees(tables, i, j - 1, k);
      EveryRunIsSafe(tables, j - 1);
      assert StepTo(tables, j);
      if tables[j - 1][k].Held() {
        StepFrees(tables, j - 1, k);
        s := j - 1;
      } else {
        StaysLetGo(tables, j - 1, k);
      }
    }
  }

  lemma StaysLetGo(tables: seq<seq<Fence>>, s: nat, k: nat)
    requires s + 1 < |tables| && Safe(tables[s]) && StepTo(tables, s + 1)
    requires k < |tables[s]| && !tables[s][k].Held()
    ensures k < |tables[s + 1]| && !tables[s + 1][k].Held()
  {
    StepKeepsSafe(tables[s], tables[s + 1]);
  }
}
