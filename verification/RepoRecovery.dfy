/** What recovery may do with a repo, its held fences and their holders (internal/inspection/repo_recovery.go). */
module RepoRecovery {
  import opened Common
  import opened Fences
  import opened FenceOrder
  import opened Recovery

  datatype RepoStatus =
    | ActiveRepo | Archiving | Archived | RestoringArchived | Deleting | Tombstoned | RestoringTombstoned
    | Purging | Purged | OperatorInterventionRequired | OtherStatus(name: string)

  datatype Repo = Repo(id: string, namespaceId: string, status: RepoStatus, lastLifecycleOperationId: string)

  /** Everything the inspection reads besides the held fences; `repoValid` is the outcome of repo.Validate(). */
  datatype Snapshot = Snapshot(
    repo: Repo,
    repoValid: bool,
    operations: map<string, OperationRecord>,
    ctx: RecoveryContext)

  datatype FenceInspection = FenceInspection(
    fenceId: string,
    kind: Kind,
    holderOperationId: string,
    holderOperationType: string,
    fencePlan: RecoveryPlan,
    holderPlan: Option<RecoveryPlan>)

  datatype Finding = Finding(code: string, action: RecoveryAction, reason: string)

  datatype Inspection = Inspection(
    repoId: string,
    namespaceId: string,
    status: RepoStatus,
    plan: RecoveryPlan,
    findings: seq<Finding>,
    lifecycleFence: Option<FenceInspection>,
    writerSessionFences: seq<FenceInspection>)
  {
    /** Settles the plan; every finding's code is the plan's reason. */
    function WithPlan(p: RecoveryPlan): Inspection {
      this.(plan := p, findings := findings + [Finding(p.reason, p.action, p.reason)])
    }
  }

  predicate InProgress(status: RepoStatus) {
    status.Archiving? || status.RestoringArchived? || status.Deleting? || status.RestoringTombstoned? || status.Purging?
  }

  predicate TerminalStatus(status: RepoStatus) {
    status.Archived? || status.Tombstoned? || status.Purged?
  }

  function LifecycleOperationType(status: RepoStatus): Option<string> {
    match status
    case Archiving => Some("repo_archive")
    case RestoringArchived => Some("repo_restore_archived")
    case Deleting => Some("repo_delete")
    case RestoringTombstoned => Some("repo_restore_tombstoned")
    case Purging => Some("repo_purge")
    case _ => None
  }

  function InspectHeldFence(snapshot: Snapshot, fence: Fence): (FenceInspection, RecoveryPlan) {
    var found := FenceInspection(fence.id, fence.kind, fence.holderOperationId, "", ClassifyFence(fence), None);
    if fence.holderOperationId !in snapshot.operations then (found, Manual("missing_holder_operation_record"))
    else
      var record := snapshot.operations[fence.holderOperationId];
      if record.id != fence.holderOperationId then (found, Manual("holder_operation_id_mismatch"))
      else if Blank(record.repoId) then (found, Manual("holder_operation_missing_repo_id"))
      else if record.repoId != snapshot.repo.id then (found, Manual("holder_operation_repo_mismatch"))
      else if Blank(record.namespaceId) then (found, Manual("holder_operation_missing_namespace_id"))
      else if record.namespaceId != snapshot.repo.namespaceId
          then (found, Manual("holder_operation_namespace_mismatch"))
      else if fence.kind.WriterSession? && record.operationType != "restore" then
        (found, Manual("writer_session_operation_type_mismatch"))
      else
        (found.(holderOperationType := record.operationType,
                holderPlan := Some(ClassifyOperation(record, snapshot.ctx))),
         RecoveryPlan(Noop, "fence_inspected"))
  }

  /** The first check of the fence loop that fails, as the plan it ends with. */
  function Complaint(snapshot: Snapshot, fence: Fence): Option<RecoveryPlan> {
    if !ValidFence(fence) then Some(Manual("invalid_fence"))
    else if fence.repoId != snapshot.repo.id then Some(Manual("fence_repo_mismatch"))
    else if !fence.Held() then Some(Manual("fence_not_held"))
    else
      var (_, fail) := InspectHeldFence(snapshot, fence);
      if fail.action.ManualIntervention? then Some(fail) else None
  }

  /** The index of the first fence with a complaint, or the length of the list. */
  function FirstComplaint(snapshot: Snapshot, fences: seq<Fence>): (k: nat)
    ensures k <= |fences|
    ensures forall i | 0 <= i < k :: Complaint(snapshot, fences[i]).None?
    ensures k < |fences| ==> Complaint(snapshot, fences[k]).Some?
  {
    if fences == [] || Complaint(snapshot, fences[0]).Some? then 0
    else 1 + FirstComplaint(snapshot, fences[1..])
  }

  /** The inspections of the fences of one kind, in order. */
  function Collect(snapshot: Snapshot, fences: seq<Fence>, kind: Kind): seq<FenceInspection> {
    if fences == [] then []
    else
      var last := fences[|fences| - 1];
      Collect(snapshot, fences[..|fences| - 1], kind)
      + (if last.kind == kind then [InspectHeldFence(snapshot, last).0] else [])
  }

  function FirstOf<T>(items: seq<T>): Option<T> {
    if items == [] then None else Some(items[0])
  }

  predicate HolderEnded(found: FenceInspection) {
    found.holderPlan.Some? && found.holderPlan.value.action.Noop?
  }

  /** The plan for a repo in the middle of a lifecycle operation. */
  function LifecyclePlan(snapshot: Snapshot, lifecycle: seq<FenceInspection>,
                         writers: seq<FenceInspection>): RecoveryPlan {
    if Blank(snapshot.repo.lastLifecycleOperationId) then Manual("missing_last_lifecycle_operation_id")
    else if |lifecycle| == 0 then Manual("missing_lifecycle_fence")
    else if |lifecycle| > 1 then Manual("multiple_lifecycle_fences")
    else
      var found := lifecycle[0];
      if found.holderOperationId != snapshot.repo.lastLifecycleOperationId
          then Manual("lifecycle_fence_holder_mismatch")
      else if LifecycleOperationType(snapshot.repo.status) != Some(found.holderOperationType) then
        Manual("lifecycle_operation_type_mismatch")
      else if HolderEnded(found) then Manual("holder_operation_terminal_while_fence_held")
      else if found.holderPlan.Some? && found.holderPlan.value.action.ManualIntervention? then found.holderPlan.value
      else if |writers| > 0 then Manual("writer_session_fence_held_during_lifecycle")
      else if found.holderPlan.Some? && found.holderPlan.value.action.Reclaim? then found.holderPlan.value
      else if found.fencePlan.action.Recover? then found.fencePlan
      else if found.holderPlan.Some? && !found.holderPlan.value.action.Noop? then found.holderPlan.value
      else found.fencePlan
  }

  /** What one held writer fence asks for in a stable repo. */
  function Candidate(found: FenceInspection): RecoveryPlan {
    var asked :=
      if found.holderPlan.Some?
         && (found.holderPlan.value.action.ManualIntervention? || found.holderPlan.value.action.Reclaim?)
      then found.holderPlan.value
      else found.fencePlan;
    if found.kind.WriterSession? && asked.action.Wait? then RecoveryPlan(Wait, "writer_session_fence_active_held")
    else asked
  }

  /** The left fold of moreUrgentPlan over the candidates. */
  function Fold(best: RecoveryPlan, founds: seq<FenceInspection>): RecoveryPlan {
    if founds == [] then best
    else MoreUrgent(Fold(best, founds[..|founds| - 1]), Candidate(founds[|founds| - 1]))
  }

  const NOTHING_YET := RecoveryPlan(Noop, "held_fences_inspected")

  function StablePlan(founds: seq<FenceInspection>): RecoveryPlan {
    if exists found <- founds :: HolderEnded(found) then Manual("holder_operation_terminal_while_fence_held")
    else Fold(NOTHING_YET, founds)
  }

  /** The plan once every fence has been inspected without complaint. */
  function Settle(snapshot: Snapshot, held: nat, lifecycle: seq<FenceInspection>,
                  writers: seq<FenceInspection>): RecoveryPlan {
    var status := snapshot.repo.status;
    if TerminalStatus(status) && held > 0 then Manual("terminal_repo_has_held_fence")
    else if status.OperatorInterventionRequired? then Manual("operator_intervention_required")
    else if InProgress(status) then LifecyclePlan(snapshot, lifecycle, writers)
    else if held == 0 then RecoveryPlan(Noop, "stable_repo_no_held_fence")
    else if |lifecycle| > 0 then Manual("stable_repo_has_lifecycle_fence")
    else StablePlan(lifecycle + writers)
  }

  function Blankly(snapshot: Snapshot): Inspection {
    Inspection(snapshot.repo.id, snapshot.repo.namespaceId, snapshot.repo.status, NOTHING_YET, [], None, [])
  }

  function Gathered(snapshot: Snapshot, fences: seq<Fence>): Inspection {
    Blankly(snapshot).(lifecycleFence := FirstOf(Collect(snapshot, fences, Lifecycle)),
                       writerSessionFences := Collect(snapshot, fences, WriterSession))
  }

  /** The specification of the inspection: a function of the sorted list of held fences. */
  function Inspect(snapshot: Snapshot, held: seq<Fence>): Inspection {
    if !snapshot.repoValid then Blankly(snapshot).WithPlan(Manual("invalid_repo"))
    else
      var sorted := Sort(held);
      var k := FirstComplaint(snapshot, sorted);
      if k < |sorted| then Gathered(snapshot, sorted[..k]).WithPlan(Complaint(snapshot, sorted[k]).value)
      else
        Gathered(snapshot, sorted).WithPlan(
          Settle(snapshot, |sorted|, Collect(snapshot, sorted, Lifecycle), Collect(snapshot, sorted, WriterSession)))
  }

  /** One more fence without complaint, in the terms of the loop's accumulators. */
  lemma GatherOne(snapshot: Snapshot, fences: seq<Fence>, i: nat)
    requires i < |fences| && i <= FirstComplaint(snapshot, fences)
    ensures Complaint(snapshot, fences[i]).Some? ==> FirstComplaint(snapshot, fences) == i
    ensures Complaint(snapshot, fences[i]).None? ==> FirstComplaint(snapshot, fences) > i
    ensures forall kind :: Collect(snapshot, fences[..i + 1], kind)
                           == Collect(snapshot, fences[..i], kind)
                            + if fences[i].kind == kind then [InspectHeldFence(snapshot, fences[i]).0] else []
  {
    assert fences[..i + 1][..i] == fences[..i];
    assert fences[..i + 1][i] == fences[i];
  }

  lemma GatheredOne(snapshot: Snapshot, fences: seq<Fence>, i: nat)
    requires i < |fences| && i <= FirstComplaint(snapshot, fences)
    ensures var before, found := Gathered(snapshot, fences[..i]), InspectHeldFence(snapshot, fences[i]).0;
            Gathered(snapshot, fences[..i + 1])
            == match fences[i].kind
               case Lifecycle => if before.lifecycleFence.None? then before.(lifecycleFence := Some(found)) else before
               case WriterSession => before.(writerSessionFences := before.writerSessionFences + [found])
               case UnknownKind(_) => before
  {
    GatherOne(snapshot, fences, i);
  }

  /** InspectRepoRecovery, with the loops and accumulators of the source. */
  method InspectRepoRecovery(snapshot: Snapshot, held: seq<Fence>) returns (inspection: Inspection)
    ensures inspection == Inspect(snapshot, held)
  {
    inspection := Blankly(snapshot);
    if !snapshot.repoValid {
      return inspection.WithPlan(Manual("invalid_repo"));
    }
    var sorted := Sort(held);
    var lifecycle: seq<FenceInspection> := [];
    for i := 0 to |sorted|
      invariant lifecycle == Collect(snapshot, sorted[..i], Lifecycle)
      invariant inspection == Gathered(snapshot, sorted[..i])
      invariant i <= FirstComplaint(snapshot, sorted)
    {
      var fence := sorted[i];
      var complaint := Complaint(snapshot, fence);
      GatherOne(snapshot, sorted, i);
      GatheredOne(snapshot, sorted, i);
      if complaint.Some? {
        return inspection.WithPlan(complaint.value);
      }
      var found := InspectHeldFence(snapshot, fence).0;
      if fence.kind.Lifecycle? {
        lifecycle := lifecycle + [found];
        if inspection.lifecycleFence.None? {
          inspection := inspection.(lifecycleFence := Some(found));
        }
      } else if fence.kind.WriterSession? {
        inspection := inspection.(writerSessionFences := inspection.writerSessionFences + [found]);
      }
    }
    assert sorted[..|sorted|] == sorted;
    var writers, status := inspection.writerSessionFences, snapshot.repo.status;
    var plan := Settle(snapshot, |sorted|, lifecycle, writers);
    if !status.OperatorInterventionRequired? && !InProgress(status) && !TerminalStatus(status) && |sorted| > 0
        && |lifecycle| == 0 {
      plan := StableInOrder(lifecycle + writers);
    }
    return inspection.WithPlan(plan);
  }

  /** The loop that keeps the most urgent candidate so far. */
  method StableInOrder(founds: seq<FenceInspection>) returns (best: RecoveryPlan)
    ensures best == StablePlan(founds)
  {
    best := NOTHING_YET;
    for i := 0 to |founds|
      invariant best == Fold(NOTHING_YET, founds[..i])
      invariant forall found <- founds[..i] :: !HolderEnded(found)
    {
      if HolderEnded(founds[i]) {
        assert founds[i] in founds;
        return Manual("holder_operation_terminal_while_fence_held");
      }
      assert founds[..i + 1] == founds[..i] + [founds[i]];
      assert founds[..i + 1][..i] == founds[..i];
      best := MoreUrgent(best, Candidate(founds[i]));
    }
    assert founds[..|founds|] == founds;
  }

  /* ---------- Order independence ---------- */

  /** The whole inspection is the same for every order of a tie-free list of held fences. */
  lemma InspectionIgnoresOrder(snapshot: Snapshot, a: seq<Fence>, b: seq<Fence>)
    requires multiset(a) == multiset(b)
    requires TieFree(a)
    ensures Inspect(snapshot, a) == Inspect(snapshot, b)
  {
    SortIgnoresOrder(a, b);
  }

  /** Pairwise distinct fence ids make a list tie-free. */
  lemma DistinctIdsAreTieFree(fences: seq<Fence>)
    requires forall i, j | 0 <= i < j < |fences| :: fences[i].id != fences[j].id
    ensures TieFree(fences)
  {
  }

  /* ---------- When recovery is not left to an operator ---------- */

  /** The fence is valid, held, of this repo, and its holder record matches and can still move. */
  predicate Backed(snapshot: Snapshot, fence: Fence) {
    && ValidFence(fence) && fence.Held() && fence.repoId == snapshot.repo.id
    && fence.holderOperationId in snapshot.operations
    && var record := snapshot.operations[fence.holderOperationId];
    && record.id == fence.holderOperationId
    && !Blank(record.repoId) && record.repoId == snapshot.repo.id
    && !Blank(record.namespaceId) && record.namespaceId == snapshot.repo.namespaceId
    && (fence.kind.WriterSession? ==> record.operationType == "restore")
    && StillMoves(record, snapshot.ctx)
  }

  /** The type of operation that takes a repo through each status in progress. */
  predicate TypeOf(status: RepoStatus, operationType: string) {
    || (status.Archiving? && operationType == "repo_archive")
    || (status.RestoringArchived? && operationType == "repo_restore_archived")
    || (status.Deleting? && operationType == "repo_delete")
    || (status.RestoringTombstoned? && operationType == "repo_restore_tombstoned")
    || (status.Purging? && operationType == "repo_purge")
  }

  /** A status is in progress exactly when some type of operation takes a repo through it, and then one does. */
  lemma InProgressIffTyped(status: RepoStatus, operationType: string)
    ensures LifecycleOperationType(status) == Some(operationType) <==> TypeOf(status, operationType)
    ensures InProgress(status) <==> exists t :: TypeOf(status, t)
    ensures InProgress(status) ==> !TerminalStatus(status) && !status.OperatorInterventionRequired?
  {
    if InProgress(status) {
      assert TypeOf(status, LifecycleOperationType(status).value);
    }
  }

  /** The only fence of a repo in the middle of a lifecycle operation: that operation's own. */
  predicate OwnLifecycleFence(snapshot: Snapshot, fence: Fence) {
    && fence.kind.Lifecycle?
    && !Blank(snapshot.repo.lastLifecycleOperationId)
    && fence.holderOperationId == snapshot.repo.lastLifecycleOperationId
    && fence.holderOperationId in snapshot.operations
    && TypeOf(snapshot.repo.status, snapshot.operations[fence.holderOperationId].operationType)
  }

  predicate AllBacked(snapshot: Snapshot, held: seq<Fence>) {
    forall fence <- held :: Backed(snapshot, fence)
  }

  predicate AllWriters(held: seq<Fence>) {
    forall fence <- held :: fence.kind.WriterSession?
  }

  /** A repo that recovery may handle without an operator, said without the order of checks. */
  predicate Healthy(snapshot: Snapshot, held: seq<Fence>) {
    && snapshot.repoValid
    && !snapshot.repo.status.OperatorInterventionRequired?
    && AllBacked(snapshot, held)
    && (snapshot.repo.status.Archived? || snapshot.repo.status.Tombstoned? || snapshot.repo.status.Purged? ==>
        held == [])
    && (InProgress(snapshot.repo.status) ==> |held| == 1 && OwnLifecycleFence(snapshot, held[0]))
    && (!InProgress(snapshot.repo.status) ==> AllWriters(held))
  }

  function HolderPlan(snapshot: Snapshot, fence: Fence): RecoveryPlan
    requires fence.holderOperationId in snapshot.operations
  {
    ClassifyOperation(snapshot.operations[fence.holderOperationId], snapshot.ctx)
  }

  predicate HolderCanMove(snapshot: Snapshot, fence: Fence) {
    && fence.holderOperationId in snapshot.operations
    && !HolderPlan(snapshot, fence).action.Noop?
    && !HolderPlan(snapshot, fence).action.ManualIntervention?
  }

  lemma BackedMeansNoComplaint(snapshot: Snapshot, fence: Fence)
    ensures Backed(snapshot, fence) <==> Complaint(snapshot, fence).None? && HolderCanMove(snapshot, fence)
    ensures Complaint(snapshot, fence).Some? ==> Complaint(snapshot, fence).value.action.ManualIntervention?
    ensures Complaint(snapshot, fence).None? ==>
              && ValidFence(fence) && fence.Held()
              && fence.holderOperationId in snapshot.operations
              && InspectHeldFence(snapshot, fence).0
                 == FenceInspection(fence.id, fence.kind, fence.holderOperationId,
                                    snapshot.operations[fence.holderOperationId].operationType,
                                    ClassifyFence(fence), Some(HolderPlan(snapshot, fence)))
  {
    if fence.holderOperationId in snapshot.operations {
      OperationPlanIff(snapshot.operations[fence.holderOperationId], snapshot.ctx);
    }
  }

  /** What Collect gathers: exactly the fences of the kind. */
  lemma {:induction false} CollectGathers(snapshot: Snapshot, fences: seq<Fence>, kind: Kind)
    ensures forall found :: found in Collect(snapshot, fences, kind) <==>
              exists fence :: fence in fences && fence.kind == kind && found == InspectHeldFence(snapshot, fence).0
    ensures |Collect(snapshot, fences, kind)| <= |fences|
    ensures (forall fence <- fences :: fence.kind == kind) ==> |Collect(snapshot, fences, kind)| == |fences|
  {
    if fences != [] {
      var init := fences[..|fences| - 1];
      CollectGathers(snapshot, init, kind);
      assert fences == init + [fences[|fences| - 1]];
    }
  }

  /** Kinds partition the list. */
  lemma {:induction false} CollectPartitions(snapshot: Snapshot, fences: seq<Fence>)
    requires forall fence <- fences :: !fence.kind.UnknownKind?
    ensures |Collect(snapshot, fences, Lifecycle)| + |Collect(snapshot, fences, WriterSession)| == |fences|
  {
    if fences != [] {
      var init := fences[..|fences| - 1];
      assert fences == init + [fences[|fences| - 1]];
      CollectPartitions(snapshot, init);
    }
  }

  /** The fold returns a most urgent candidate, and the start only if no candidate beats it. */
  lemma {:induction false} FoldIsMostUrgent(best: RecoveryPlan, founds: seq<FenceInspection>)
    ensures Fold(best, founds) == best || exists found <- founds :: Candidate(found) == Fold(best, founds)
    ensures Urgency(best.action) <= Urgency(Fold(best, founds).action)
    ensures forall found <- founds :: Urgency(Candidate(found).action) <= Urgency(Fold(best, founds).action)
  {
    if founds != [] {
      var init, last := founds[..|founds| - 1], founds[|founds| - 1];
      FoldIsMostUrgent(best, init);
      assert founds == init + [last];
    }
  }

  /* ---------- Main results ---------- */

  /** Without complaint, the inspections are those of the list and say what each fence asks. */
  lemma InspectedWhole(snapshot: Snapshot, held: seq<Fence>)
    requires snapshot.repoValid
    ensures (forall fence <- held :: Complaint(snapshot, fence).None?)
       <==> FirstComplaint(snapshot, Sort(held)) == |Sort(held)|
  {
    SortPermutes(held);
    var sorted := Sort(held);
    forall fence <- held ensures exists i :: 0 <= i < |sorted| && sorted[i] == fence {
      assert fence in sorted;
    }
  }

  /** An inspection of a fence without complaint: its holder was read, its own plan is wait or recover. */
  predicate Sound(found: FenceInspection) {
    found.holderPlan.Some? && (found.fencePlan.action.Wait? || found.fencePlan.action.Recover?)
  }

  predicate Movable(found: FenceInspection) {
    && found.holderPlan.Some?
    && !found.holderPlan.value.action.Noop?
    && !found.holderPlan.value.action.ManualIntervention?
  }

  lemma InspectionIsSound(snapshot: Snapshot, fence: Fence)
    requires Complaint(snapshot, fence).None?
    ensures Sound(InspectHeldFence(snapshot, fence).0)
    ensures InspectHeldFence(snapshot, fence).0.kind == fence.kind
    ensures !fence.kind.UnknownKind?
    ensures Movable(InspectHeldFence(snapshot, fence).0) <==> HolderCanMove(snapshot, fence)
  {
    BackedMeansNoComplaint(snapshot, fence);
    HeldFencePlan(fence);
  }

  lemma CollectIsSound(snapshot: Snapshot, fences: seq<Fence>, kind: Kind)
    requires forall fence <- fences :: Complaint(snapshot, fence).None?
    ensures forall found <- Collect(snapshot, fences, kind) :: Sound(found) && found.kind == kind
    ensures (forall found <- Collect(snapshot, fences, kind) :: Movable(found))
       <==> (forall fence <- fences | fence.kind == kind :: HolderCanMove(snapshot, fence))
  {
    CollectGathers(snapshot, fences, kind);
    var founds := Collect(snapshot, fences, kind);
    forall found <- founds ensures Sound(found) && found.kind == kind {
      var fence :| fence in fences && fence.kind == kind && found == InspectHeldFence(snapshot, fence).0;
      InspectionIsSound(snapshot, fence);
    }
    if forall found <- founds :: Movable(found) {
      forall fence <- fences | fence.kind == kind ensures HolderCanMove(snapshot, fence) {
        InspectionIsSound(snapshot, fence);
        assert InspectHeldFence(snapshot, fence).0 in founds;
      }
    }
    if forall fence <- fences | fence.kind == kind :: HolderCanMove(snapshot, fence) {
      forall found <- founds ensures Movable(found) {
        var fence :| fence in fences && fence.kind == kind && found == InspectHeldFence(snapshot, fence).0;
        InspectionIsSound(snapshot, fence);
      }
    }
  }

  /** Over writer fences the plan is never noop, and manual exactly when some holder cannot move. */
  lemma StablePlanManualIff(founds: seq<FenceInspection>)
    requires founds != []
    requires forall found <- founds :: Sound(found)
    ensures StablePlan(founds).action.ManualIntervention? <==> !(forall found <- founds :: Movable(found))
    ensures !StablePlan(founds).action.Noop?
  {
    FoldIsMostUrgent(NOTHING_YET, founds);
    assert founds[0] in founds;
    assert Urgency(Candidate(founds[0]).action) > 0;
    if exists found <- founds :: HolderEnded(found) {
    } else if found :| found in founds && !Movable(found) {
      assert Candidate(found).action.ManualIntervention?;
    } else {
      forall found <- founds ensures !Candidate(found).action.ManualIntervention? {
        assert Movable(found);
      }
    }
  }

  lemma LifecyclePlanManualIff(snapshot: Snapshot, lifecycle: seq<FenceInspection>, writers: seq<FenceInspection>)
    requires forall found <- lifecycle :: Sound(found)
    ensures LifecyclePlan(snapshot, lifecycle, writers).action.ManualIntervention? <==>
            !(&& !Blank(snapshot.repo.lastLifecycleOperationId)
              && |lifecycle| == 1 && |writers| == 0
              && lifecycle[0].holderOperationId == snapshot.repo.lastLifecycleOperationId
              && LifecycleOperationType(snapshot.repo.status) == Some(lifecycle[0].holderOperationType)
              && Movable(lifecycle[0]))
    ensures !LifecyclePlan(snapshot, lifecycle, writers).action.Noop?
  {
    if |lifecycle| == 1 {
      assert lifecycle[0] in lifecycle;
    }
  }

  /**
   * Recovery is left to an operator exactly when the repo is not healthy; and the answer is noop
   * exactly for a healthy repo that is stable and has no fence.
   */
  lemma ManualIffNotHealthy(snapshot: Snapshot, held: seq<Fence>)
    ensures Inspect(snapshot, held).plan.action.ManualIntervention? <==> !Healthy(snapshot, held)
    ensures Inspect(snapshot, held).plan.action.Noop?
       <==> Healthy(snapshot, held) && held == [] && !InProgress(snapshot.repo.status)
  {
    if snapshot.repoValid {
      SortPermutes(held);
      InspectedWhole(snapshot, held);
      if fence :| fence in held && Complaint(snapshot, fence).Some? {
        BackedMeansNoComplaint(snapshot, fence);
        var sorted := Sort(held);
        BackedMeansNoComplaint(snapshot, sorted[FirstComplaint(snapshot, sorted)]);
      } else {
        SettleManualIff(snapshot, held, Sort(held));
      }
    }
  }

  function SettledPlan(snapshot: Snapshot, sorted: seq<Fence>): RecoveryPlan {
    Settle(snapshot, |sorted|, Collect(snapshot, sorted, Lifecycle), Collect(snapshot, sorted, WriterSession))
  }

  /** Two lists of the same fences, without a complaint among them. */
  predicate SameAndClean(snapshot: Snapshot, held: seq<Fence>, sorted: seq<Fence>) {
    && snapshot.repoValid
    && |held| == |sorted|
    && (forall fence <- held :: fence in sorted)
    && (forall fence <- sorted :: fence in held)
    && (forall fence <- held :: Complaint(snapshot, fence).None?)
  }

  lemma BackedIffMovable(snapshot: Snapshot, held: seq<Fence>)
    requires forall fence <- held :: Complaint(snapshot, fence).None?
    ensures forall fence <- held :: Backed(snapshot, fence) <==> HolderCanMove(snapshot, fence)
    ensures forall fence <- held :: !fence.kind.UnknownKind?
  {
    forall fence <- held
      ensures (Backed(snapshot, fence) <==> HolderCanMove(snapshot, fence)) && !fence.kind.UnknownKind?
    {
      BackedMeansNoComplaint(snapshot, fence);
      InspectionIsSound(snapshot, fence);
    }
  }

  lemma SettleManualIff(snapshot: Snapshot, held: seq<Fence>, sorted: seq<Fence>)
    requires SameAndClean(snapshot, held, sorted)
    ensures SettledPlan(snapshot, sorted).action.ManualIntervention? <==> !Healthy(snapshot, held)
    ensures SettledPlan(snapshot, sorted).action.Noop?
       <==> Healthy(snapshot, held) && held == [] && !InProgress(snapshot.repo.status)
  {
    if InProgress(snapshot.repo.status) {
      SettleInProgress(snapshot, held, sorted);
    } else if held != [] && !TerminalStatus(snapshot.repo.status) {
      SettleStable(snapshot, held, sorted);
    }
  }

  lemma AllBackedIffAllMove(snapshot: Snapshot, held: seq<Fence>, sorted: seq<Fence>)
    requires SameAndClean(snapshot, held, sorted)
    ensures AllBacked(snapshot, held) <==> forall fence <- sorted :: HolderCanMove(snapshot, fence)
    ensures AllWriters(held) <==> AllWriters(sorted)
  {
    BackedIffMovable(snapshot, held);
  }

  lemma NoLifecycleIff(snapshot: Snapshot, sorted: seq<Fence>)
    requires forall fence <- sorted :: !fence.kind.UnknownKind?
    ensures Collect(snapshot, sorted, Lifecycle) == [] <==> AllWriters(sorted)
  {
    var lifecycle := Collect(snapshot, sorted, Lifecycle);
    CollectGathers(snapshot, sorted, Lifecycle);
    if lifecycle == [] {
      forall fence <- sorted ensures fence.kind.WriterSession? {
        assert fence.kind.Lifecycle? ==> InspectHeldFence(snapshot, fence).0 in lifecycle;
      }
    } else {
      assert lifecycle[0] in lifecycle;
    }
  }

  lemma SettleStable(snapshot: Snapshot, held: seq<Fence>, sorted: seq<Fence>)
    requires SameAndClean(snapshot, held, sorted) && held != []
    requires !InProgress(snapshot.repo.status) && !TerminalStatus(snapshot.repo.status)
    ensures SettledPlan(snapshot, sorted).action.ManualIntervention?
       <==> snapshot.repo.status.OperatorInterventionRequired? || !AllBacked(snapshot, held) || !AllWriters(held)
    ensures !SettledPlan(snapshot, sorted).action.Noop?
  {
    AllBackedIffAllMove(snapshot, held, sorted);
    StableByKinds(snapshot, sorted);
  }

  lemma StableByKinds(snapshot: Snapshot, sorted: seq<Fence>)
    requires sorted != [] && forall fence <- sorted :: Complaint(snapshot, fence).None?
    requires !InProgress(snapshot.repo.status) && !TerminalStatus(snapshot.repo.status)
    ensures SettledPlan(snapshot, sorted).action.ManualIntervention?
       <==> || snapshot.repo.status.OperatorInterventionRequired?
            || !AllWriters(sorted)
            || !(forall fence <- sorted :: HolderCanMove(snapshot, fence))
    ensures !SettledPlan(snapshot, sorted).action.Noop?
  {
    var lifecycle, writers := Collect(snapshot, sorted, Lifecycle), Collect(snapshot, sorted, WriterSession);
    CollectIsSound(snapshot, sorted, WriterSession);
    BackedIffMovable(snapshot, sorted);
    NoLifecycleIff(snapshot, sorted);
    CollectPartitions(snapshot, sorted);
    if lifecycle == [] {
      assert lifecycle + writers == writers;
      StablePlanManualIff(writers);
    }
  }

  lemma SettleInProgress(snapshot: Snapshot, held: seq<Fence>, sorted: seq<Fence>)
    requires SameAndClean(snapshot, held, sorted) && InProgress(snapshot.repo.status)
    ensures SettledPlan(snapshot, sorted).action.ManualIntervention?
       <==> !(|held| == 1 && AllBacked(snapshot, held) && OwnLifecycleFence(snapshot, held[0]))
    ensures !SettledPlan(snapshot, sorted).action.Noop?
  {
    if |held| == 1 {
      SingleHeld(snapshot, held, sorted);
      SingleBacked(snapshot, held[0]);
      SingleInProgress(snapshot, held[0]);
    } else {
      assert forall fence <- sorted :: Complaint(snapshot, fence).None?;
      NotSingleInProgress(snapshot, sorted);
    }
  }

  lemma SingleHeld(snapshot: Snapshot, held: seq<Fence>, sorted: seq<Fence>)
    requires SameAndClean(snapshot, held, sorted) && |held| == 1
    ensures held == [held[0]] && sorted == [held[0]] && Complaint(snapshot, held[0]).None?
  {
    assert held[0] in held;
    assert held[0] in sorted;
  }

  lemma SingleBacked(snapshot: Snapshot, fence: Fence)
    requires Complaint(snapshot, fence).None?
    ensures AllBacked(snapshot, [fence]) <==> HolderCanMove(snapshot, fence)
  {
    BackedMeansNoComplaint(snapshot, fence);
    assert fence in [fence];
  }

  lemma NotSingleInProgress(snapshot: Snapshot, sorted: seq<Fence>)
    requires forall fence <- sorted :: Complaint(snapshot, fence).None?
    requires InProgress(snapshot.repo.status) && |sorted| != 1
    ensures SettledPlan(snapshot, sorted).action.ManualIntervention?
  {
    CollectIsSound(snapshot, sorted, Lifecycle);
    BackedIffMovable(snapshot, sorted);
    CollectPartitions(snapshot, sorted);
    LifecyclePlanManualIff(snapshot, Collect(snapshot, sorted, Lifecycle), Collect(snapshot, sorted, WriterSession));
  }

  lemma SingleInProgress(snapshot: Snapshot, fence: Fence)
    requires Complaint(snapshot, fence).None? && InProgress(snapshot.repo.status)
    ensures SettledPlan(snapshot, [fence]).action.ManualIntervention?
       <==> !(HolderCanMove(snapshot, fence) && OwnLifecycleFence(snapshot, fence))
    ensures !SettledPlan(snapshot, [fence]).action.Noop?
  {
    var found := InspectHeldFence(snapshot, fence).0;
    BackedMeansNoComplaint(snapshot, fence);
    InspectionIsSound(snapshot, fence);
    CollectSingle(snapshot, fence);
    InProgressIffTyped(snapshot.repo.status, found.holderOperationType);
    LifecyclePlanManualIff(snapshot, Collect(snapshot, [fence], Lifecycle), Collect(snapshot, [fence], WriterSession));
  }

  lemma CollectSingle(snapshot: Snapshot, fence: Fence)
    ensures forall kind :: Collect(snapshot, [fence], kind)
                           == if fence.kind == kind then [InspectHeldFence(snapshot, fence).0] else []
  {
    assert [fence][..0] == [];
  }

  /** What one backed writer fence asks for, from its status and its holder alone. */
  function Asks(snapshot: Snapshot, fence: Fence): RecoveryPlan
    requires fence.holderOperationId in snapshot.operations
  {
    if HolderPlan(snapshot, fence).action.Reclaim? then HolderPlan(snapshot, fence)
    else if fence.status.Active? then RecoveryPlan(Wait, "writer_session_fence_active_held")
    else RecoveryPlan(Recover, "fence_held_recovery_required")
  }

  lemma CandidateIsWhatIsAsked(snapshot: Snapshot, fence: Fence)
    requires Backed(snapshot, fence)
    ensures InspectHeldFence(snapshot, fence).0.kind == fence.kind
    ensures InspectHeldFence(snapshot, fence).0.holderPlan == Some(HolderPlan(snapshot, fence))
    ensures InspectHeldFence(snapshot, fence).0.fencePlan == ClassifyFence(fence)
    ensures ClassifyFence(fence) == if fence.status.Active? then RecoveryPlan(Wait, "fence_active_held")
                                    else RecoveryPlan(Recover, "fence_held_recovery_required")
    ensures fence.kind.WriterSession? ==> Candidate(InspectHeldFence(snapshot, fence).0) == Asks(snapshot, fence)
  {
    BackedMeansNoComplaint(snapshot, fence);
    HeldFencePlan(fence);
  }

  /** The plan of a healthy repo is what its settled inspections say. */
  lemma HealthyPlanSettles(snapshot: Snapshot, held: seq<Fence>)
    requires Healthy(snapshot, held)
    ensures Inspect(snapshot, held).plan == SettledPlan(snapshot, Sort(held))
  {
    forall fence <- held ensures Complaint(snapshot, fence).None? {
      BackedMeansNoComplaint(snapshot, fence);
    }
    InspectedWhole(snapshot, held);
  }

  /** The holder of the fence is a running operation whose lease has run out. */
  predicate HolderIsDead(snapshot: Snapshot, fence: Fence) {
    && fence.holderOperationId in snapshot.operations
    && var record := snapshot.operations[fence.holderOperationId];
    record.state.Running? && LeaseOver(record, snapshot.ctx.now)
  }

  lemma DeadIffReclaimed(snapshot: Snapshot, fence: Fence)
    requires Backed(snapshot, fence)
    ensures HolderPlan(snapshot, fence).action.Reclaim? <==> HolderIsDead(snapshot, fence)
    ensures Fitting(snapshot.operations[fence.holderOperationId], snapshot.ctx, HolderPlan(snapshot, fence).action)
  {
    OperationPlanIff(snapshot.operations[fence.holderOperationId], snapshot.ctx);
  }

  /**
   * A healthy repo in progress: a holder whose lease has run out is reclaimed first; else a fence that is
   * no longer active is recovered; else the holder is waited for while its lease is live, and otherwise
   * its cancellation is finished, it is retried or claimed, or it is recovered as an operator asked.
   */
  lemma HealthyInProgressPlan(snapshot: Snapshot, held: seq<Fence>)
    requires Healthy(snapshot, held) && InProgress(snapshot.repo.status)
    ensures held != [] && held[0].holderOperationId in snapshot.operations
    ensures var record := snapshot.operations[held[0].holderOperationId];
            Inspect(snapshot, held).plan.action
            == if HolderIsDead(snapshot, held[0]) then Reclaim
               else if !held[0].status.Active? then Recover
               else if !record.state.Queued? && !record.state.OperatorInterventionState?
                       && LeaseLive(record, snapshot.ctx.now) then Wait
               else
                 match record.state
                 case CancelRequested => FinalizeCancellation
                 case Queued => if record.attempt > 0 then Retry else Claimable
                 case _ => Recover
  {
    assert Backed(snapshot, held[0]);
    FollowsHolder(snapshot, held);
    DeadIffReclaimed(snapshot, held[0]);
  }

  /**
   * A healthy stable repo with fences: recover if a fence that is no longer active has a holder that is
   * not to be reclaimed; else reclaim if any holder's lease has run out; else wait.
   */
  lemma HealthyStablePlan(snapshot: Snapshot, held: seq<Fence>)
    requires Healthy(snapshot, held) && held != [] && !InProgress(snapshot.repo.status)
    ensures Inspect(snapshot, held).plan.action
         == if exists fence <- held :: !fence.status.Active? && !HolderIsDead(snapshot, fence) then Recover
            else if exists fence <- held :: HolderIsDead(snapshot, fence) then Reclaim
            else Wait
  {
    var action := Inspect(snapshot, held).plan.action;
    MostUrgentWins(snapshot, held);
    forall fence <- held ensures Backed(snapshot, fence) && AsksFor(snapshot, fence, Asks(snapshot, fence).action) {
      BackedAsks(snapshot, fence);
    }
    MostUrgentIs(snapshot, held, action);
  }

  predicate AsksFor(snapshot: Snapshot, fence: Fence, action: RecoveryAction) {
    action == if HolderIsDead(snapshot, fence) then Reclaim else if fence.status.Active? then Wait else Recover
  }

  lemma BackedAsks(snapshot: Snapshot, fence: Fence)
    requires Backed(snapshot, fence)
    ensures AsksFor(snapshot, fence, Asks(snapshot, fence).action)
  {
    DeadIffReclaimed(snapshot, fence);
  }

  lemma MostUrgentIs(snapshot: Snapshot, held: seq<Fence>, action: RecoveryAction)
    requires exists fence <- held :: AsksFor(snapshot, fence, action)
    requires forall fence <- held, asked :: AsksFor(snapshot, fence, asked) ==> Urgency(asked) <= Urgency(action)
    ensures action
         == if exists fence <- held :: !fence.status.Active? && !HolderIsDead(snapshot, fence) then Recover
            else if exists fence <- held :: HolderIsDead(snapshot, fence) then Reclaim
            else Wait
  {
    if fence :| fence in held && !fence.status.Active? && !HolderIsDead(snapshot, fence) {
      assert AsksFor(snapshot, fence, Recover);
    } else if fence :| fence in held && HolderIsDead(snapshot, fence) {
      assert AsksFor(snapshot, fence, Reclaim);
    }
  }

  /** A healthy repo in progress: reclaim an expired holder first, then a dead fence, else follow the holder. */
  lemma FollowsHolder(snapshot: Snapshot, held: seq<Fence>)
    requires Healthy(snapshot, held) && InProgress(snapshot.repo.status)
    ensures var holder := HolderPlan(snapshot, held[0]);
            Inspect(snapshot, held).plan
            == if holder.action.Reclaim? || held[0].status.Active? then holder
               else RecoveryPlan(Recover, "fence_held_recovery_required")
  {
    HealthyPlanSettles(snapshot, held);
    SortSingle(held);
    assert Backed(snapshot, held[0]);
    OwnFenceSettles(snapshot, held[0]);
  }

  lemma SortSingle(held: seq<Fence>)
    requires |held| == 1
    ensures Sort(held) == [held[0]]
  {
    SortPermutes(held);
  }

  lemma OwnFenceSettles(snapshot: Snapshot, fence: Fence)
    requires Backed(snapshot, fence) && OwnLifecycleFence(snapshot, fence) && InProgress(snapshot.repo.status)
    ensures var holder := HolderPlan(snapshot, fence);
            SettledPlan(snapshot, [fence])
            == if holder.action.Reclaim? || fence.status.Active? then holder
               else RecoveryPlan(Recover, "fence_held_recovery_required")
  {
    CandidateIsWhatIsAsked(snapshot, fence);
    BackedMeansNoComplaint(snapshot, fence);
    CollectSingle(snapshot, fence);
    InProgressIffTyped(snapshot.repo.status, snapshot.operations[fence.holderOperationId].operationType);
  }

  /** A healthy stable repo with fences: the plan is the most urgent thing any of them asks for. */
  lemma MostUrgentWins(snapshot: Snapshot, held: seq<Fence>)
    requires Healthy(snapshot, held) && held != [] && !InProgress(snapshot.repo.status)
    ensures exists fence <- held :: Backed(snapshot, fence) && Asks(snapshot, fence) == Inspect(snapshot, held).plan
    ensures forall fence <- held :: Backed(snapshot, fence)
              && Urgency(Asks(snapshot, fence).action) <= Urgency(Inspect(snapshot, held).plan.action)
  {
    HealthyPlanSettles(snapshot, held);
    SortPermutes(held);
    StableFold(snapshot, Sort(held));
  }

  lemma FoundsCanMove(snapshot: Snapshot, sorted: seq<Fence>)
    requires AllBacked(snapshot, sorted)
    ensures forall found <- Collect(snapshot, sorted, WriterSession) :: Movable(found) && Sound(found)
  {
    var founds := Collect(snapshot, sorted, WriterSession);
    CollectGathers(snapshot, sorted, WriterSession);
    forall found <- founds ensures Movable(found) && Sound(found) {
      var fence :| fence in sorted && found == InspectHeldFence(snapshot, fence).0;
      BackedCanMove(snapshot, fence);
    }
  }

  lemma BackedCanMove(snapshot: Snapshot, fence: Fence)
    requires Backed(snapshot, fence)
    ensures Movable(InspectHeldFence(snapshot, fence).0) && Sound(InspectHeldFence(snapshot, fence).0)
  {
    CandidateIsWhatIsAsked(snapshot, fence);
    OperationPlanIff(snapshot.operations[fence.holderOperationId], snapshot.ctx);
  }

  lemma StablePlanIsSettled(snapshot: Snapshot, sorted: seq<Fence>)
    requires AllWriters(sorted) && sorted != [] && !snapshot.repo.status.OperatorInterventionRequired?
    requires !InProgress(snapshot.repo.status) && !TerminalStatus(snapshot.repo.status)
    ensures SettledPlan(snapshot, sorted) == StablePlan(Collect(snapshot, sorted, WriterSession))
  {
    NoLifecycleIff(snapshot, sorted);
    assert [] + Collect(snapshot, sorted, WriterSession) == Collect(snapshot, sorted, WriterSession);
  }

  lemma StableFold(snapshot: Snapshot, sorted: seq<Fence>)
    requires AllBacked(snapshot, sorted) && AllWriters(sorted) && sorted != []
    requires !snapshot.repo.status.OperatorInterventionRequired?
    requires !InProgress(snapshot.repo.status) && !TerminalStatus(snapshot.repo.status)
    ensures exists fence <- sorted :: Backed(snapshot, fence) && Asks(snapshot, fence) == SettledPlan(snapshot, sorted)
    ensures forall fence <- sorted :: Backed(snapshot, fence)
              && Urgency(Asks(snapshot, fence).action) <= Urgency(SettledPlan(snapshot, sorted).action)
  {
    var founds := Collect(snapshot, sorted, WriterSession);
    FoundsCanMove(snapshot, sorted);
    StablePlanIsSettled(snapshot, sorted);
    FoundAsks(snapshot, sorted, sorted[0]);
    MostUrgentFound(founds);
    var top :| top in founds && Candidate(top) == StablePlan(founds);
    var first := FenceOf(snapshot, sorted, top);
    FoundAsks(snapshot, sorted, first);
    forall fence <- sorted
      ensures Urgency(Asks(snapshot, fence).action) <= Urgency(SettledPlan(snapshot, sorted).action)
    {
      FoundAsks(snapshot, sorted, fence);
    }
  }

  lemma FenceOf(snapshot: Snapshot, sorted: seq<Fence>, found: FenceInspection) returns (fence: Fence)
    requires found in Collect(snapshot, sorted, WriterSession)
    ensures fence in sorted && found == InspectHeldFence(snapshot, fence).0
  {
    CollectGathers(snapshot, sorted, WriterSession);
    fence :| fence in sorted && found == InspectHeldFence(snapshot, fence).0;
  }

  lemma FoundAsks(snapshot: Snapshot, sorted: seq<Fence>, fence: Fence)
    requires AllBacked(snapshot, sorted) && AllWriters(sorted) && fence in sorted
    ensures fence.holderOperationId in snapshot.operations
    ensures InspectHeldFence(snapshot, fence).0 in Collect(snapshot, sorted, WriterSession)
    ensures Candidate(InspectHeldFence(snapshot, fence).0) == Asks(snapshot, fence)
  {
    CollectGathers(snapshot, sorted, WriterSession);
    CandidateIsWhatIsAsked(snapshot, fence);
  }

  lemma MostUrgentFound(founds: seq<FenceInspection>)
    requires founds != [] && forall found <- founds :: Movable(found) && Sound(found)
    ensures exists found <- founds :: Candidate(found) == StablePlan(founds)
    ensures forall found <- founds :: Urgency(Candidate(found).action) <= Urgency(StablePlan(founds).action)
  {
    FoldIsMostUrgent(NOTHING_YET, founds);
    assert founds[0] in founds;
    assert Urgency(Candidate(founds[0]).action) > 0;
  }

  /* ---------- Agreement with fence acquisition ---------- */

  /** The rows that ListHeldRepoFences returns for a repo. */
  function HeldOf(table: seq<Fence>, repoId: string): seq<Fence> {
    if table == [] then []
    else (if Holds(table[0], repoId) then [table[0]] else []) + HeldOf(table[1..], repoId)
  }

  lemma {:induction false} HeldOfSelects(table: seq<Fence>, repoId: string)
    ensures forall fence :: fence in HeldOf(table, repoId) <==> fence in table && Holds(fence, repoId)
  {
    if table != [] {
      HeldOfSelects(table[1..], repoId);
      assert table == [table[0]] + table[1..];
    }
  }

  /**
   * The two deciders agree. Over any table of valid fences, recovery has nothing to do for a valid
   * repo exactly when the repo is neither in progress nor with an operator and any well-formed
   * request for it would be allowed.
   */
  lemma NoopIffFree(snapshot: Snapshot, table: seq<Fence>, request: Request)
    requires snapshot.repoValid && AllValid(table)
    requires WellFormed(request) && request.repoId == snapshot.repo.id
    ensures Inspect(snapshot, HeldOf(table, snapshot.repo.id)).plan.action.Noop? <==>
            && !InProgress(snapshot.repo.status)
            && !snapshot.repo.status.OperatorInterventionRequired?
            && CanAcquire(request, table).allowed
    ensures CanAcquire(request, table).allowed <==> HeldOf(table, snapshot.repo.id) == []
  {
    var held := HeldOf(table, snapshot.repo.id);
    HeldOfSelects(table, snapshot.repo.id);
    ManualIffNotHealthy(snapshot, held);
    if held == [] {
      NobodyHolds(request, table);
    } else {
      AllowedIff(request, table);
      assert held[0] in held;
    }
  }
}
