/** The terminal reconcile pass over export sessions (internal/exportreconcile/reconcile.go). */
module ExportReconcile {
  import opened Common
  import opened ExportLedger

  /** targetStatus, with the reason it states. */
  function TargetOf(session: Session, now: Time): Option<(Target, string)> {
    if session.requests != 0 || session.writes != 0 then None
    else if session.status.Revoking? then Some((ToRevoked, "export session drained after revoke"))
    else if session.status.Active? && session.expiresAt <= now
        then Some((ToExpired, "export session expired with no active requests"))
    else None
  }

  /** The rows ListExportSessionsForTerminalReconcile may return. */
  predicate Listed(ledger: Ledger, id: string, now: Time) {
    && id in ledger.sessions
    && var s := ledger.sessions[id];
    && s.requests == 0 && s.writes == 0 && OpenOf(ledger, id) == {}
    && (s.status.Revoking? || (s.status.Active? && s.expiresAt <= now))
  }

  /** Once terminal, a session is never listed again, whatever happens next. */
  lemma TerminalIsNeverListed(ledger: Ledger, calls: seq<Call>, id: string, now: Time)
    requires LedgerOk(ledger)
    requires id in ledger.sessions && ledger.sessions[id].status.Terminal()
    ensures !Listed(Run(ledger, calls), id, now)
    ensures OpenOf(Run(ledger, calls), id) == {}
  {
    RunKeeps(ledger, calls);
    assert SessionOk(Run(ledger, calls), id);
  }

  /** The runner's configuration, with the library functions it hashes with; a request hash may fail. */
  datatype Config = Config(
    owner: string,
    limit: int,
    digest: string -> string,
    hash: (string, string, string) -> Option<string>)

  datatype Operation = Operation(
    id: string,
    key: string,
    scope: Scope,
    requestHash: string,
    correlationId: string,
    caller: string,
    exportId: string,
    namespaceId: string,
    createdAt: Time,
    startedAt: Time,
    finishedAt: Time)

  datatype AuditEvent = AuditEvent(id: string, time: Time, operationId: string, correlationId: string, reason: string)

  datatype Request = Request(
    exportId: string,
    namespaceId: string,
    target: Target,
    observedAt: Time,
    reason: string,
    operation: Operation,
    event: AuditEvent)

  /** reconcileRequest; `eventId` is what the configured audit id generator answers, if there is one. */
  function ReconcileRequest(config: Config, id: string, session: Session, target: Target, reason: string, now: Time,
                            eventId: string)
    : Option<Request>
  {
    var key, owner := Key(id, target), TrimSpace(config.owner);
    var operationId := "op_exportreconcile_" + config.digest(key);
    match config.hash(id, session.namespaceId, TargetName(target))
    case None => None
    case Some(requestHash) =>
      var operation := Operation(operationId, key, Scope(owner, session.namespaceId, key), requestHash,
                                 "corr_" + operationId, owner, id, session.namespaceId, now, now, now);
      var event := AuditEvent(if Blank(eventId) then "evt_exportreconcile_" + config.digest(key)
                              else TrimSpace(eventId),
                              now, operationId, operation.correlationId, reason);
      Some(Request(id, session.namespaceId, target, now, reason, operation, event))
  }

  /** The store call a request makes. */
  function CallOf(request: Request): Call {
    Reconcile(request.exportId, request.namespaceId, request.operation.caller, request.target, request.observedAt,
              request.reason)
  }

  /**
   * What makes a reconcile idempotent depends on the session's stored identity and the target only:
   * two requests built at different times, from different readings of the session, with different
   * reasons and event ids, have the same operation id, key, scope and request hash.
   */
  lemma IdentityIsStable(config: Config, id: string, a: Session, b: Session, target: Target,
                         reason: string, why: string, now: Time, later: Time, eventId: string, other: string)
    requires a.namespaceId == b.namespaceId
    ensures var first := ReconcileRequest(config, id, a, target, reason, now, eventId);
            var second := ReconcileRequest(config, id, b, target, why, later, other);
            && (first.Some? <==> second.Some?)
            && (first.Some? ==>
                  && first.value.operation.id == second.value.operation.id
                  && first.value.operation.key == second.value.operation.key
                  && first.value.operation.scope == second.value.operation.scope
                  && first.value.operation.requestHash == second.value.operation.requestHash
                  && first.value.operation.correlationId == second.value.operation.correlationId)
  {
  }

  /**
   * So reconciling is idempotent at the store: once a request was carried out, another one built for
   * the same session and target, later and from another reading of it, is answered as reused and
   * changes nothing, whatever calls came in between.
   */
  lemma RetryIsReused(ledger: Ledger, config: Config, id: string, a: Session, b: Session, target: Target,
                      reason: string, why: string, now: Time, later: Time, eventId: string, other: string,
                      calls: seq<Call>)
    requires LedgerOk(ledger) && a.namespaceId == b.namespaceId
    requires !IsZero(later) && (target.ToFailed? ==> !Blank(why))
    ensures var first := ReconcileRequest(config, id, a, target, reason, now, eventId);
            var second := ReconcileRequest(config, id, b, target, why, later, other);
            first.Some? && Do(ledger, CallOf(first.value)).1 in {Ok, Reused} ==>
              && second.Some?
              && var then_ := Run(Do(ledger, CallOf(first.value)).0, calls);
              Do(then_, CallOf(second.value)) == (then_, Reused)
  {
    IdentityIsStable(config, id, a, b, target, reason, why, now, later, eventId, other);
    var first := ReconcileRequest(config, id, a, target, reason, now, eventId);
    if first.Some? && Do(ledger, CallOf(first.value)).1 in {Ok, Reused} {
      var call := CallOf(first.value);
      var done := Do(ledger, call).0;
      DoKeeps(ledger, call);
      RunKeeps(done, calls);
      assert first.value.operation.scope in done.finished;
      assert id in done.sessions && done.sessions[id].namespaceId == a.namespaceId;
    }
  }

  /** Requests for different sessions or targets never share an idempotency key or scope. */
  lemma IdentitiesDiffer(config: Config, first: string, a: Session, s: Target, second: string, b: Session, t: Target,
                         reason: string, now: Time, eventId: string)
    requires first != second || s != t
    ensures var x := ReconcileRequest(config, first, a, s, reason, now, eventId);
            var y := ReconcileRequest(config, second, b, t, reason, now, eventId);
            x.Some? && y.Some? ==>
              x.value.operation.key != y.value.operation.key && x.value.operation.scope != y.value.operation.scope
  {
    KeysDiffer(first, s, second, t);
  }

  /** The terminal status that a reading of a session calls for. */
  predicate CallsFor(session: Session, status: Status) {
    status == if session.status.Revoking? then Revoked else Expired
  }

  /**
   * In an ordered ledger the sessions listed are exactly those without an open row that are revoking, or
   * active past their expiry; and they are exactly those whose reading has a target.
   */
  lemma ListedIff(ledger: Ledger, id: string, now: Time)
    requires LedgerOk(ledger) && id in ledger.sessions
    ensures var session := ledger.sessions[id];
            && (Listed(ledger, id, now) <==>
                && OpenOf(ledger, id) == {}
                && (session.status.Revoking? || (session.status.Active? && session.expiresAt <= now)))
            && (TargetOf(session, now).Some? <==> Listed(ledger, id, now))
  {
    assert SessionOk(ledger, id);
    WritesWithinRequests(ledger, id);
  }

  /**
   * A listed session has a target, and the request built for it, if sent at once, makes it revoked if it
   * was revoking and expired if it was active.
   */
  lemma ListedIsReconcilable(ledger: Ledger, config: Config, id: string, now: Time, eventId: string)
    requires LedgerOk(ledger) && Listed(ledger, id, now) && !IsZero(now)
    ensures TargetOf(ledger.sessions[id], now).Some?
    ensures var (target, reason) := TargetOf(ledger.sessions[id], now).value;
            var request := ReconcileRequest(config, id, ledger.sessions[id], target, reason, now, eventId);
            request.Some? ==>
              && Do(ledger, CallOf(request.value)).1.Ok?
              && CallsFor(ledger.sessions[id], Do(ledger, CallOf(request.value)).0.sessions[id].status)
  {
    var (target, reason) := TargetOf(ledger.sessions[id], now).value;
    var request := ReconcileRequest(config, id, ledger.sessions[id], target, reason, now, eventId);
    if request.Some? {
      assert SessionOk(ledger, id);
      if request.value.operation.scope in ledger.finished {
        ReusedMeansAlreadyTerminal(ledger, CallOf(request.value));
      }
    }
  }

  datatype Result = Result(recovered: nat, scanned: nat, terminalized: nat, reused: nat, skipped: nat, raceLost: nat,
                           failed: nat)

  /** Per listed session: the event id generated, what others do first, and whether the store call fails. */
  datatype Turn = Turn(eventId: string, others: seq<Call>, reply: StoreReply)

  const DEFAULT_LIMIT := 10

  /** What became of one listed session. */
  datatype Verdict = Skipped | Terminalized | AlreadyDone | RaceLost | Errored

  function Swept(ledger: Ledger, call: Call, turn: Turn): Ledger {
    var before := Run(ledger, turn.others);
    if turn.reply.TookEffect() then Do(before, call).0 else before
  }

  /** How the loop counts the answer to a reconcile call. */
  function Counted(answer: Answer, reply: StoreReply): Verdict {
    if reply.Errored() then Errored
    else
      match answer
      case NoRows => RaceLost
      case Reused => AlreadyDone
      case Ok => Terminalized
      case Invalid => Errored
  }

  /** One listed session: skipped without a target, else reconciled after whatever others did first. */
  function SweepOne(config: Config, ledger: Ledger, item: (string, Session), now: Time, turn: Turn): (Ledger, Verdict) {
    var (id, session) := item;
    match TargetOf(session, now)
    case None => (ledger, Skipped)
    case Some((target, reason)) =>
      match ReconcileRequest(config, id, session, target, reason, now, turn.eventId)
      case None => (ledger, Errored)
      case Some(request) =>
        var answer := Do(Run(ledger, turn.others), CallOf(request)).1;
        (Swept(ledger, CallOf(request), turn), Counted(answer, turn.reply))
  }

  /** The reconcile loop: in order, stopping after the first store error. */
  function Sweep(config: Config, ledger: Ledger, listed: seq<(string, Session)>, now: Time,
                 turns: seq<Turn>): (Ledger, seq<Verdict>)
    requires |listed| == |turns|
    decreases |listed|
  {
    if listed == [] then (ledger, [])
    else
      var (next, verdict) := SweepOne(config, ledger, listed[0], now, turns[0]);
      if verdict.Errored? then (next, [verdict])
      else
        var (end, verdicts) := Sweep(config, next, listed[1..], now, turns[1..]);
        (end, [verdict] + verdicts)
  }

  predicate Tallies(result: Result, verdicts: seq<Verdict>) {
    && result.terminalized == Count(verdicts, Terminalized)
    && result.reused == Count(verdicts, AlreadyDone)
    && result.skipped == Count(verdicts, Skipped)
    && result.raceLost == Count(verdicts, RaceLost)
    && result.failed == Count(verdicts, Errored)
  }

  /** One more listed session dealt with. */
  function Tallied(result: Result, verdict: Verdict): Result {
    match verdict
    case Terminalized => result.(terminalized := result.terminalized + 1)
    case AlreadyDone => result.(reused := result.reused + 1)
    case Skipped => result.(skipped := result.skipped + 1)
    case RaceLost => result.(raceLost := result.raceLost + 1)
    case Errored => result.(failed := result.failed + 1)
  }

  lemma TallyOne(result: Result, verdicts: seq<Verdict>, verdict: Verdict)
    requires Tallies(result, verdicts)
    ensures Tallies(Tallied(result, verdict), verdicts + [verdict])
  {
    CountAppend(verdicts, verdict, Terminalized);
    CountAppend(verdicts, verdict, AlreadyDone);
    CountAppend(verdicts, verdict, Skipped);
    CountAppend(verdicts, verdict, RaceLost);
    CountAppend(verdicts, verdict, Errored);
  }

  /** From `ledger`, with `verdicts` behind it, the loop is on its way to `goal`. */
  predicate Heading(config: Config, ledger: Ledger, listed: seq<(string, Session)>, i: nat, now: Time, turns: seq<Turn>,
                    verdicts: seq<Verdict>, goal: (Ledger, seq<Verdict>))
    requires |listed| == |turns| && i <= |listed|
  {
    var rest := Sweep(config, ledger, listed[i..], now, turns[i..]);
    goal == (rest.0, verdicts + rest.1)
  }

  lemma HeadingStep(config: Config, ledger: Ledger, listed: seq<(string, Session)>, i: nat, now: Time, turns: seq<Turn>,
                    verdicts: seq<Verdict>, goal: (Ledger, seq<Verdict>))
    requires |listed| == |turns| && i < |listed| && Heading(config, ledger, listed, i, now, turns, verdicts, goal)
    ensures var (next, verdict) := SweepOne(config, ledger, listed[i], now, turns[i]);
            if verdict.Errored? then goal == (next, verdicts + [Errored])
            else Heading(config, next, listed, i + 1, now, turns, verdicts + [verdict], goal)
  {
    var (next, verdict) := SweepOne(config, ledger, listed[i], now, turns[i]);
    assert listed[i..][0] == listed[i] && listed[i..][1..] == listed[i + 1..];
    assert turns[i..][0] == turns[i] && turns[i..][1..] == turns[i + 1..];
    if !verdict.Errored? {
      var rest := Sweep(config, next, listed[i + 1..], now, turns[i + 1..]);
      assert verdicts + ([verdict] + rest.1) == verdicts + [verdict] + rest.1;
    }
  }

  /** How many of the listed sessions a pass looks at. */
  function Taken(listed: seq<(string, Session)>, limit: int): (n: nat)
    ensures n <= |listed|
  {
    var most := if limit <= 0 then DEFAULT_LIMIT else limit;
    if |listed| > most then most else |listed|
  }

  /** The session is terminal with no open row. */
  predicate Finished(ledger: Ledger, id: string) {
    id in ledger.sessions && ledger.sessions[id].status.Terminal() && OpenOf(ledger, id) == {}
  }

  lemma DoneStaysDone(before: Ledger, after: Ledger, id: string)
    requires LedgerOk(after) && Follows(before, after) && Finished(before, id)
    ensures Finished(after, id)
  {
    assert SessionOk(after, id);
  }

  /** A reconcile call, after whatever others did, answered without an error. */
  lemma SweptFinishes(ledger: Ledger, call: Call, turn: Turn)
    requires LedgerOk(ledger) && call.Reconcile?
    ensures LedgerOk(Swept(ledger, call, turn)) && Follows(ledger, Swept(ledger, call, turn))
    ensures var verdict := Counted(Do(Run(ledger, turn.others), call).1, turn.reply);
            verdict.Terminalized? || verdict.AlreadyDone? ==> Finished(Swept(ledger, call, turn), call.exportId)
  {
    var before := Run(ledger, turn.others);
    RunKeeps(ledger, turn.others);
    DoKeeps(before, call);
    FollowsOn(ledger, before, Do(before, call).0);
    ReconciledIsFinished(before, call);
  }

  lemma ReconciledIsFinished(before: Ledger, call: Call)
    requires LedgerOk(before) && call.Reconcile?
    ensures Do(before, call).1.Ok? || Do(before, call).1.Reused? ==> Finished(Do(before, call).0, call.exportId)
  {
    var (after, answer) := Do(before, call);
    if answer.Reused? {
      ReusedMeansAlreadyTerminal(before, call);
      assert SessionOk(before, call.exportId);
    } else if answer.Ok? {
      SameRowsSameOpen(before, after, call.exportId);
    }
  }

  /** One listed session: a session counted as terminalized or reused is left finished. */
  lemma SweepOneFinishes(config: Config, ledger: Ledger, item: (string, Session), now: Time, turn: Turn)
    requires LedgerOk(ledger)
    ensures var (next, verdict) := SweepOne(config, ledger, item, now, turn);
            && LedgerOk(next) && Follows(ledger, next)
            && (verdict.Terminalized? || verdict.AlreadyDone? ==> Finished(next, item.0))
  {
    FollowsItself(ledger);
    match TargetOf(item.1, now)
    case None =>
    case Some((target, reason)) =>
      match ReconcileRequest(config, item.0, item.1, target, reason, now, turn.eventId)
      case None =>
      case Some(request) => SweptFinishes(ledger, CallOf(request), turn);
  }

  /**
   * A session is skipped exactly when its reading has a count that is not zero, or is neither revoking
   * nor active past its expiry; and one that is terminalized gets the status its reading calls for.
   */
  lemma SweepOneDecides(config: Config, ledger: Ledger, item: (string, Session), now: Time, turn: Turn)
    ensures var (next, verdict) := SweepOne(config, ledger, item, now, turn);
            && (verdict.Skipped? <==>
                || item.1.requests != 0 || item.1.writes != 0
                || !(item.1.status.Revoking? || (item.1.status.Active? && item.1.expiresAt <= now)))
            && (verdict.Skipped? ==> next == ledger)
            && (verdict.Terminalized? ==> item.0 in next.sessions && CallsFor(item.1, next.sessions[item.0].status))
  {
  }

  /** No reconcile to failed among the calls. */
  predicate NoneFails(calls: seq<Call>) {
    forall call <- calls :: !(call.Reconcile? && call.target.ToFailed?)
  }

  lemma {:induction false} RunKeepsStatus(ledger: Ledger, calls: seq<Call>, id: string)
    requires LedgerOk(ledger) && id in ledger.sessions && ledger.sessions[id].status.Terminal() && NoneFails(calls)
    ensures id in Run(ledger, calls).sessions && Run(ledger, calls).sessions[id].status == ledger.sessions[id].status
    decreases |calls|
  {
    if calls != [] {
      assert calls == [calls[0]] + calls[1..];
      var next := if Sendable(ledger, calls[0]) then Do(ledger, calls[0]).0 else ledger;
      if Sendable(ledger, calls[0]) {
        DoKeeps(ledger, calls[0]);
        TerminalChangesIff(ledger, calls[0], id);
        StaysTerminal(ledger, calls[0], id);
      }
      RunKeepsStatus(next, calls[1..], id);
    }
  }

  lemma SweptKeepsStatus(ledger: Ledger, call: Call, turn: Turn, id: string)
    requires LedgerOk(ledger) && id in ledger.sessions && ledger.sessions[id].status.Terminal()
    requires NoneFails(turn.others) && call.Reconcile? && !call.target.ToFailed?
    ensures id in Swept(ledger, call, turn).sessions
    ensures Swept(ledger, call, turn).sessions[id].status == ledger.sessions[id].status
  {
    var before := Run(ledger, turn.others);
    RunKeeps(ledger, turn.others);
    RunKeepsStatus(ledger, turn.others, id);
    TerminalChangesIff(before, call, id);
    StaysTerminal(before, call, id);
  }

  lemma SweepOneKeepsStatus(config: Config, ledger: Ledger, item: (string, Session), now: Time, turn: Turn, id: string)
    requires LedgerOk(ledger) && id in ledger.sessions && ledger.sessions[id].status.Terminal()
    requires NoneFails(turn.others)
    ensures var next := SweepOne(config, ledger, item, now, turn).0;
            id in next.sessions && next.sessions[id].status == ledger.sessions[id].status
  {
    match TargetOf(item.1, now)
    case None =>
    case Some((target, reason)) =>
      match ReconcileRequest(config, item.0, item.1, target, reason, now, turn.eventId)
      case None =>
      case Some(request) => SweptKeepsStatus(ledger, CallOf(request), turn, id);
  }

  lemma {:induction false} SweepKeepsStatus(config: Config, ledger: Ledger, listed: seq<(string, Session)>, now: Time,
                                            turns: seq<Turn>, id: string)
    requires LedgerOk(ledger) && |listed| == |turns| && (forall turn <- turns :: NoneFails(turn.others))
    requires id in ledger.sessions && ledger.sessions[id].status.Terminal()
    ensures var after := Sweep(config, ledger, listed, now, turns).0;
            id in after.sessions && after.sessions[id].status == ledger.sessions[id].status
    decreases |listed|
  {
    if listed != [] {
      SweepOneKeepsStatus(config, ledger, listed[0], now, turns[0], id);
      SweepOneFinishes(config, ledger, listed[0], now, turns[0]);
      var (next, verdict) := SweepOne(config, ledger, listed[0], now, turns[0]);
      if !verdict.Errored? {
        SweepKeepsStatus(config, next, listed[1..], now, turns[1..], id);
      }
    }
  }

  /**
   * Over the whole loop: a session it terminalized ends revoked if it was read as revoking and expired if
   * it was read as active, unless someone else's reconcile to failed came after.
   */
  lemma {:induction false} TerminalizedAsCalledFor(config: Config, ledger: Ledger, listed: seq<(string, Session)>,
                                                   now: Time, turns: seq<Turn>, i: nat)
    requires LedgerOk(ledger) && |listed| == |turns| && (forall turn <- turns :: NoneFails(turn.others))
    requires i < |Sweep(config, ledger, listed, now, turns).1|
    requires Sweep(config, ledger, listed, now, turns).1[i].Terminalized?
    ensures i < |listed|
    ensures var after := Sweep(config, ledger, listed, now, turns).0;
            listed[i].0 in after.sessions && CallsFor(listed[i].1, after.sessions[listed[i].0].status)
    decreases |listed|
  {
    SweepOneFinishes(config, ledger, listed[0], now, turns[0]);
    SweepOneDecides(config, ledger, listed[0], now, turns[0]);
    var (next, verdict) := SweepOne(config, ledger, listed[0], now, turns[0]);
    if !verdict.Errored? {
      if i == 0 {
        SweepKeepsStatus(config, next, listed[1..], now, turns[1..], listed[0].0);
      } else {
        TerminalizedAsCalledFor(config, next, listed[1..], now, turns[1..], i - 1);
      }
    }
  }

  /**
   * The reconcile loop keeps the ledger in order, and every session it counts as terminalized or
   * reused is still finished when it ends, whatever others did in between.
   */
  lemma {:induction false} SweepFinishes(config: Config, ledger: Ledger, listed: seq<(string, Session)>, now: Time,
                                         turns: seq<Turn>)
    requires LedgerOk(ledger) && |listed| == |turns|
    ensures var (after, verdicts) := Sweep(config, ledger, listed, now, turns);
            && LedgerOk(after) && Follows(ledger, after) && |verdicts| <= |listed|
            && forall i :: 0 <= i < |verdicts| && (verdicts[i].Terminalized? || verdicts[i].AlreadyDone?) ==>
               Finished(after, listed[i].0)
    decreases |listed|
  {
    if listed == [] {
      FollowsItself(ledger);
    } else {
      SweepOneFinishes(config, ledger, listed[0], now, turns[0]);
      var (next, verdict) := SweepOne(config, ledger, listed[0], now, turns[0]);
      if !verdict.Errored? {
        SweepFinishes(config, next, listed[1..], now, turns[1..]);
        var (after, verdicts) := Sweep(config, next, listed[1..], now, turns[1..]);
        FollowsOn(ledger, next, after);
        if verdict.Terminalized? || verdict.AlreadyDone? {
          DoneStaysDone(next, after, listed[0].0);
        }
        assert forall i | 0 <= i < |verdicts| ::
                 ([verdict] + verdicts)[i + 1] == verdicts[i] && listed[1..][i] == listed[i + 1];
      }
    }
  }

  /** Every listed session gets a verdict unless one fails, and that one is the last. */
  lemma {:induction false} SweepCovers(config: Config, ledger: Ledger, listed: seq<(string, Session)>, now: Time,
                                       turns: seq<Turn>)
    requires |listed| == |turns|
    ensures var verdicts := Sweep(config, ledger, listed, now, turns).1;
            && Count(verdicts, Errored) <= 1
            && (Count(verdicts, Errored) == 0 ==> |verdicts| == |listed|)
            && (Count(verdicts, Errored) == 1 ==> verdicts != [] && verdicts[|verdicts| - 1].Errored?)
    decreases |listed|
  {
    if listed != [] {
      var (next, verdict) := SweepOne(config, ledger, listed[0], now, turns[0]);
      if !verdict.Errored? {
        SweepCovers(config, next, listed[1..], now, turns[1..]);
        CountPrepend(Sweep(config, next, listed[1..], now, turns[1..]).1, verdict, Errored);
      } else {
        CountAppend([], verdict, Errored);
      }
    }
  }

  lemma {:induction false} VerdictsAddUp(verdicts: seq<Verdict>)
    ensures Count(verdicts, Terminalized) + Count(verdicts, AlreadyDone) + Count(verdicts, Skipped)
          + Count(verdicts, RaceLost) + Count(verdicts, Errored) == |verdicts|
  {
    if verdicts != [] {
      var init, last := verdicts[..|verdicts| - 1], verdicts[|verdicts| - 1];
      VerdictsAddUp(init);
      assert verdicts == init + [last];
      assert last == Terminalized || last == AlreadyDone || last == Skipped || last == RaceLost || last == Errored;
      CountAppend(init, last, Terminalized);
      CountAppend(init, last, AlreadyDone);
      CountAppend(init, last, Skipped);
      CountAppend(init, last, RaceLost);
      CountAppend(init, last, Errored);
    }
  }

  function Drained(ledger: Ledger, now: Time, offered: set<string>, reply: StoreReply): Ledger {
    if reply.TookEffect() then Do(ledger, RecoverStale(now, offered)).0 else ledger
  }

  predicate RecoverySucceeds(ledger: Ledger, now: Time, offered: set<string>, reply: StoreReply) {
    reply.Done? && Do(ledger, RecoverStale(now, offered)).1.Ok?
  }

  /** Stale recovery fails only when the store call does, or without a time. */
  lemma RecoveryFailsOnlyWithTheStore(ledger: Ledger, now: Time, offered: set<string>, reply: StoreReply)
    requires LedgerOk(ledger)
    ensures RecoverySucceeds(ledger, now, offered, reply) <==> reply.Done? && !IsZero(now)
  {
    RecoveryIsAlwaysEligible(ledger, StaleAmong(ledger, offered, now));
  }

  /** The loop over as many of the listed sessions as the limit allows. */
  function SweepUpTo(config: Config, ledger: Ledger, now: Time, listed: seq<(string, Session)>,
                     turns: seq<Turn>): (Ledger, seq<Verdict>)
    requires |turns| == |listed|
  {
    Sweep(config, ledger, listed[..Taken(listed, config.limit)], now, turns[..Taken(listed, config.limit)])
  }

  /** A whole pass: stale recovery, then the loop; nothing without an owner. */
  function Pass(config: Config, ledger: Ledger, now: Time, offered: set<string>, recovery: StoreReply,
                listed: seq<(string, Session)>, listing: StoreReply, turns: seq<Turn>): (Ledger, seq<Verdict>)
    requires |turns| == |listed|
  {
    var drained := Drained(ledger, now, offered, recovery);
    if Blank(config.owner) then (ledger, [])
    else if RecoverySucceeds(ledger, now, offered, recovery) && listing.Done?
        then SweepUpTo(config, drained, now, listed, turns)
    else (drained, [])
  }

  lemma DrainedKeeps(ledger: Ledger, now: Time, offered: set<string>, reply: StoreReply)
    requires LedgerOk(ledger)
    ensures LedgerOk(Drained(ledger, now, offered, reply)) && Follows(ledger, Drained(ledger, now, offered, reply))
  {
    DoKeeps(ledger, RecoverStale(now, offered));
    FollowsItself(ledger);
  }

  lemma SweepUpToKeeps(config: Config, ledger: Ledger, now: Time, listed: seq<(string, Session)>, turns: seq<Turn>)
    requires LedgerOk(ledger) && |turns| == |listed|
    ensures LedgerOk(SweepUpTo(config, ledger, now, listed, turns).0)
    ensures Follows(ledger, SweepUpTo(config, ledger, now, listed, turns).0)
  {
    var n := Taken(listed, config.limit);
    SweepFinishes(config, ledger, listed[..n], now, turns[..n]);
  }

  lemma PassKeeps(config: Config, ledger: Ledger, now: Time, offered: set<string>, recovery: StoreReply,
                  listed: seq<(string, Session)>, listing: StoreReply, turns: seq<Turn>)
    requires LedgerOk(ledger) && |turns| == |listed|
    ensures var after := Pass(config, ledger, now, offered, recovery, listed, listing, turns).0;
            LedgerOk(after) && Follows(ledger, after)
  {
    if Blank(config.owner) {
      FollowsItself(ledger);
    } else {
      var drained := Drained(ledger, now, offered, recovery);
      DrainedKeeps(ledger, now, offered, recovery);
      if RecoverySucceeds(ledger, now, offered, recovery) && listing.Done? {
        SweepUpToKeeps(config, drained, now, listed, turns);
        FollowsOn(ledger, drained, SweepUpTo(config, drained, now, listed, turns).0);
      }
    }
  }

  /** The counters of an error-free loop account for every listed session. */
  lemma SweepAddsUp(config: Config, ledger: Ledger, listed: seq<(string, Session)>, now: Time, turns: seq<Turn>,
                    result: Result)
    requires |listed| == |turns| && Tallies(result, Sweep(config, ledger, listed, now, turns).1)
    ensures result.failed <= 1
    ensures result.failed == 0 ==> result.terminalized + result.reused + result.skipped + result.raceLost == |listed|
  {
    SweepCovers(config, ledger, listed, now, turns);
    VerdictsAddUp(Sweep(config, ledger, listed, now, turns).1);
  }

  /**
   * A session that a pass terminalized, or found already done, is never listed again: not after any
   * calls that follow, at any later time.
   */
  lemma DoneIsNeverListedAgain(config: Config, ledger: Ledger, now: Time, offered: set<string>, recovery: StoreReply,
                               listed: seq<(string, Session)>, listing: StoreReply, turns: seq<Turn>,
                               i: nat, later: seq<Call>, when: Time)
    requires LedgerOk(ledger) && |turns| == |listed|
    requires var verdicts := Pass(config, ledger, now, offered, recovery, listed, listing, turns).1;
             i < |verdicts| && (verdicts[i].Terminalized? || verdicts[i].AlreadyDone?)
    ensures var after := Pass(config, ledger, now, offered, recovery, listed, listing, turns).0;
            i < |listed| && !Listed(Run(after, later), listed[i].0, when)
  {
    var drained := Drained(ledger, now, offered, recovery);
    var n := Taken(listed, config.limit);
    DrainedKeeps(ledger, now, offered, recovery);
    SweepFinishes(config, drained, listed[..n], now, turns[..n]);
    TerminalIsNeverListed(Sweep(config, drained, listed[..n], now, turns[..n]).0, later, listed[i].0, when);
  }

  class Runner {
    const config: Config
    var ledger: Ledger

    constructor (config: Config, ledger: Ledger)
      ensures this.config == config && this.ledger == ledger
    {
      this.config, this.ledger := config, ledger;
    }

    /** RecoverStaleExportRuntimeRequests: closes the picked rows, or fails. */
    method Recover(now: Time, offered: set<string>, reply: StoreReply) returns (recovered: nat, ok: bool)
      modifies this
      ensures ledger == Drained(old(ledger), now, offered, reply)
      ensures ok == RecoverySucceeds(old(ledger), now, offered, reply)
      ensures recovered == |StaleAmong(old(ledger), offered, now)|
    {
      var (after, answer) := Do(ledger, RecoverStale(now, offered));
      recovered, ok := |StaleAmong(ledger, offered, now)|, reply.Done? && answer.Ok?;
      if reply.TookEffect() {
        ledger := after;
      }
    }

    /** One terminal reconcile call, after whatever others did first. */
    method Send(call: Call, turn: Turn) returns (answer: Answer)
      modifies this
      ensures ledger == Swept(old(ledger), call, turn)
      ensures answer == Do(Run(old(ledger), turn.others), call).1
    {
      ledger := Run(ledger, turn.others);
      var (after, a) := Do(ledger, call);
      answer := a;
      if turn.reply.TookEffect() {
        ledger := after;
      }
    }

    /** One iteration of the reconcile loop. */
    method HandleOne(item: (string, Session), now: Time, turn: Turn) returns (verdict: Verdict)
      modifies this
      ensures (ledger, verdict) == SweepOne(config, old(ledger), item, now, turn)
    {
      var (id, session) := item;
      var target := TargetOf(session, now);
      if target.None? {
        return Skipped;
      }
      var request := ReconcileRequest(config, id, session, target.value.0, target.value.1, now, turn.eventId);
      if request.None? {
        return Errored;
      }
      var answer := Send(CallOf(request.value), turn);
      if turn.reply.Errored() {
        return Errored;
      }
      match answer
      case NoRows => return RaceLost;
      case Reused => return AlreadyDone;
      case Ok => return Terminalized;
      case Invalid => return Errored;
    }

    /** The reconcile loop of Runner.RunOnce, with its counters: it refines Sweep. */
    method SweepListed(listed: seq<(string, Session)>, now: Time, turns: seq<Turn>, start: Result)
      returns (result: Result, ok: bool)
      requires |turns| == |listed| && Tallies(start, [])
      modifies this
      ensures var (after, verdicts) := Sweep(config, old(ledger), listed, now, turns);
              ledger == after && Tallies(result, verdicts)
      ensures ok == (result.failed == 0)
      ensures result.recovered == start.recovered && result.scanned == start.scanned
    {
      result := start;
      ghost var goal := Sweep(config, ledger, listed, now, turns);
      ghost var verdicts: seq<Verdict> := [];
      assert listed[0..] == listed && turns[0..] == turns && [] + goal.1 == goal.1;
      for i := 0 to |listed|
        invariant Heading(config, ledger, listed, i, now, turns, verdicts, goal)
        invariant result.failed == 0 && Tallies(result, verdicts)
        invariant result.recovered == start.recovered && result.scanned == start.scanned
      {
        HeadingStep(config, ledger, listed, i, now, turns, verdicts, goal);
        var verdict := HandleOne(listed[i], now, turns[i]);
        TallyOne(result, verdicts, verdict);
        result := Tallied(result, verdict);
        if verdict.Errored? {
          return result, false;
        }
        verdicts := verdicts + [verdict];
      }
      assert verdicts + [] == verdicts;
      ok := true;
    }

    /** The loop over at most the limit of the listed sessions. */
    method ReconcileListed(now: Time, listed: seq<(string, Session)>, turns: seq<Turn>, recovered: nat)
      returns (result: Result, ok: bool)
      requires |turns| == |listed|
      modifies this
      ensures (var (after, verdicts) := SweepUpTo(config, old(ledger), now, listed, turns);
               ledger == after && Tallies(result, verdicts))
      ensures ok ==> result.scanned == result.terminalized + result.reused + result.skipped + result.raceLost
      ensures ok == (result.failed == 0) && result.failed <= 1
      ensures result.recovered == recovered && result.scanned == Taken(listed, config.limit)
    {
      var n := Taken(listed, config.limit);
      ghost var was := ledger;
      result, ok := SweepListed(listed[..n], now, turns[..n], Result(recovered, n, 0, 0, 0, 0, 0));
      SweepAddsUp(config, was, listed[..n], now, turns[..n], result);
    }

    /**
     * Runner.RunOnce: recovers stale rows, then reconciles the listed sessions up to the limit; it
     * refines Pass, so PassKeeps and DoneIsNeverListedAgain apply. An error-free pass accounts for
     * every session it scanned and scans at most the limit.
     */
    method RunOnce(now: Time, offered: set<string>, recovery: StoreReply,
                   listed: seq<(string, Session)>, listing: StoreReply, turns: seq<Turn>)
      returns (result: Result, ok: bool)
      requires |turns| == |listed|
      modifies this
      ensures (var (after, verdicts) := Pass(config, old(ledger), now, offered, recovery, listed, listing, turns);
               ledger == after && (ok ==> Tallies(result, verdicts)))
      ensures ok ==> result.scanned == result.terminalized + result.reused + result.skipped + result.raceLost
      ensures ok ==> result.failed == 0 && result.recovered == |StaleAmong(old(ledger), offered, now)|
      ensures var most := if config.limit <= 0 then 10 else config.limit;
              && result.scanned <= |listed| && result.scanned <= most
              && (ok ==> result.scanned == |listed| || result.scanned == most)
      ensures result.failed <= 1
      ensures ok ==> !Blank(config.owner) && RecoverySucceeds(old(ledger), now, offered, recovery) && listing.Done?
    {
      if Blank(config.owner) {
        return Result(0, 0, 0, 0, 0, 0, 0), false;
      }
      var recovered;
      recovered, ok := Recover(now, offered, recovery);
      if !ok {
        return Result(0, 0, 0, 0, 0, 0, 1), false;
      }
      if listing.Errored() {
        return Result(0, 0, 0, 0, 0, 0, 0), false;
      }
      result, ok := ReconcileListed(now, listed, turns, recovered);
    }
  }
}
