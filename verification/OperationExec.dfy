/** Lease-fenced execution of operation recovery handlers (internal/operationexec/operation.go). */
module OperationExec {
  import opened Common

  datatype Error =
    | Unsupported | TimeNotSet | HandlerFailed | HandlerFailedAfterCommit | AlreadyCommitted
    | IdMismatch | EventTypeMismatch | StoreFailed | NoCommit

  datatype HandlerKey = HandlerKey(operationType: string, phase: string)

  datatype Registration = Registration(operationType: string, phase: string, handler: Option<nat>)
  {
    function Key(): HandlerKey {
      HandlerKey(operationType, TrimSpace(phase))
    }

    predicate Valid(known: set<string>) {
      operationType != "" && operationType in known && !Blank(phase) && handler.Some?
    }
  }

  function Keys(registrations: seq<Registration>): (keys: seq<HandlerKey>)
    ensures |keys| == |registrations|
    ensures forall i | 0 <= i < |keys| ::
              keys[i] == HandlerKey(registrations[i].operationType, TrimSpace(registrations[i].phase))
  {
    seq(|registrations|, i requires 0 <= i < |registrations| => registrations[i].Key())
  }

  predicate AllDifferent(keys: seq<HandlerKey>) {
    forall i, j | 0 <= i < j < |keys| :: keys[i] != keys[j]
  }

  /** The map holds each registration's handler under its key, and nothing else. */
  ghost predicate Holds(handlers: map<HandlerKey, nat>, keys: seq<HandlerKey>, registrations: seq<Registration>)
    requires |keys| <= |registrations|
  {
    && (forall i | 0 <= i < |keys| :: keys[i] in handlers && Some(handlers[keys[i]]) == registrations[i].handler)
    && (forall key <- handlers :: key in keys)
  }

  /**
   * NewExecutor's handler map: built exactly when every registration is valid and no two share a
   * key, and then it holds each registration's handler under its key and nothing else.
   */
  method BuildHandlers(known: set<string>, registrations: seq<Registration>)
      returns (handlers: Option<map<HandlerKey, nat>>)
    ensures handlers.Some? <==>
            && (forall r <- registrations ::
                  r.operationType != "" && r.operationType in known && !Blank(r.phase) && r.handler.Some?)
            && AllDifferent(Keys(registrations))
    ensures handlers.Some? ==> Holds(handlers.value, Keys(registrations), registrations)
  {
    var built: map<HandlerKey, nat> := map[];
    var keys := Keys(registrations);
    for i := 0 to |registrations|
      invariant forall k | 0 <= k < i :: registrations[k].Valid(known)
      invariant AllDifferent(keys[..i]) && Holds(built, keys[..i], registrations)
    {
      if !registrations[i].Valid(known) || keys[i] in built {
        assert registrations[i] in registrations;
        assert keys[i] in built ==> keys[i] in keys[..i];
        return None;
      }
      assert keys[..i + 1] == keys[..i] + [keys[i]];
      HoldsOneMore(built, keys[..i], keys[i], registrations);
      built := built[keys[i] := registrations[i].handler.value];
    }
    assert keys[..|registrations|] == keys;
    handlers := Some(built);
  }

  lemma HoldsOneMore(built: map<HandlerKey, nat>, keys: seq<HandlerKey>, key: HandlerKey,
                     registrations: seq<Registration>)
    requires |keys| < |registrations| && Holds(built, keys, registrations) && AllDifferent(keys)
    requires key !in built && registrations[|keys|].handler.Some?
    ensures Holds(built[key := registrations[|keys|].handler.value], keys + [key], registrations)
    ensures AllDifferent(keys + [key])
  {
  }

  /** A Commit call a handler makes: the record and event it offers, and how the store would answer. */
  datatype Attempt = Attempt(recordId: string, eventType: string, stored: bool)

  /** The fields of operationCommitter, and the store commits it has made. */
  datatype State = State(attempted: bool, committed: bool, err: Option<Error>, sent: seq<(string, string)>)

  const FRESH := State(false, false, None, [])

  /** Whether an attempt may reach the store for this operation. */
  predicate Fits(operationId: string, wanted: Option<string>, attempt: Attempt) {
    attempt.recordId == operationId && wanted == Some(attempt.eventType)
  }

  function Committed(operationId: string, wanted: Option<string>, s: State, attempt: Attempt): State {
    if s.attempted then s.(err := Some(AlreadyCommitted))
    else if attempt.recordId != operationId then s.(attempted := true, err := Some(IdMismatch))
    else if wanted != Some(attempt.eventType) then s.(attempted := true, err := Some(EventTypeMismatch))
    else if !attempt.stored then
      s.(attempted := true, err := Some(StoreFailed), sent := s.sent + [(attempt.recordId, attempt.eventType)])
    else
      s.(attempted := true, committed := true, sent := s.sent + [(attempt.recordId, attempt.eventType)])
  }

  function AfterAll(operationId: string, wanted: Option<string>, attempts: seq<Attempt>): State {
    if attempts == [] then FRESH
    else Committed(operationId, wanted, AfterAll(operationId, wanted, attempts[..|attempts| - 1]),
                   attempts[|attempts| - 1])
  }

  /**
   * For every sequence of Commit calls: the store is called at most once, only with the executing
   * operation's id and its audit event type; the committer ends committed and without error exactly
   * when there was one call, it fitted, and the store accepted it.
   */
  lemma {:induction false} OneShot(operationId: string, wanted: Option<string>, attempts: seq<Attempt>)
    ensures var s := AfterAll(operationId, wanted, attempts);
            && |s.sent| <= 1
            && (forall call <- s.sent :: call.0 == operationId && wanted == Some(call.1))
            && (s.attempted <==> attempts != [])
            && (s.committed <==> attempts != [] && Fits(operationId, wanted, attempts[0]) && attempts[0].stored)
            && (s.sent != [] <==> attempts != [] && Fits(operationId, wanted, attempts[0]))
            && (s.err.None? <==>
                attempts == [] || (|attempts| == 1 && Fits(operationId, wanted, attempts[0]) && attempts[0].stored))
  {
    if attempts != [] {
      OneShot(operationId, wanted, attempts[..|attempts| - 1]);
    }
  }

  class Committer {
    const operationId: string
    const wanted: Option<string>
    var attempted: bool
    var committed: bool
    var err: Option<Error>
    var sent: seq<(string, string)>

    constructor (operationId: string, wanted: Option<string>)
      ensures this.operationId == operationId && this.wanted == wanted && Now() == FRESH
    {
      this.operationId, this.wanted := operationId, wanted;
      attempted, committed, err, sent := false, false, None, [];
    }

    ghost function Now(): State
      reads this
    {
      State(attempted, committed, err, sent)
    }

    /** operationCommitter.Commit */
    method Commit(attempt: Attempt) returns (failure: Option<Error>)
      modifies this
      ensures Now() == Committed(operationId, wanted, old(Now()), attempt)
      ensures failure.None? <==> !old(attempted) && Fits(operationId, wanted, attempt) && attempt.stored
    {
      if attempted {
        err := Some(AlreadyCommitted);
        return err;
      }
      attempted := true;
      if attempt.recordId != operationId {
        err := Some(IdMismatch);
        return err;
      }
      if wanted != Some(attempt.eventType) {
        err := Some(EventTypeMismatch);
        return err;
      }
      sent := sent + [(attempt.recordId, attempt.eventType)];
      if !attempt.stored {
        err := Some(StoreFailed);
        return err;
      }
      committed := true;
      failure := None;
    }
  }

  /** What a handler that returned nil is refused for, from its Commit calls. */
  function Refusal(operationId: string, wanted: Option<string>, attempts: seq<Attempt>): Option<Error> {
    if attempts == [] then Some(NoCommit)
    else if |attempts| > 1 then Some(AlreadyCommitted)
    else if attempts[0].recordId != operationId then Some(IdMismatch)
    else if wanted != Some(attempts[0].eventType) then Some(EventTypeMismatch)
    else if !attempts[0].stored then Some(StoreFailed)
    else None
  }

  /** The committer's error, with a missing commit, is exactly the refusal. */
  lemma {:induction false} ErrorIsRefusal(operationId: string, wanted: Option<string>, attempts: seq<Attempt>)
    ensures var s := AfterAll(operationId, wanted, attempts);
            Refusal(operationId, wanted, attempts)
            == if s.err.Some? then s.err else if !s.committed then Some(NoCommit) else None
  {
    OneShot(operationId, wanted, attempts);
    if |attempts| > 0 {
      ErrorIsRefusal(operationId, wanted, attempts[..|attempts| - 1]);
      OneShot(operationId, wanted, attempts[..|attempts| - 1]);
    }
  }

  datatype Record = Record(id: string, operationType: string, phase: string)

  /**
   * ExecuteOperationRecovery with a handler that makes the given Commit calls and then returns. It
   * succeeds exactly when a handler is registered, the time is set, the handler returned nil, and
   * it made exactly one Commit call, which fitted and was stored; whatever the handler does,
   * the store is called at most once and only for this operation.
   */
  method Execute(handlers: map<HandlerKey, nat>, eventTypes: map<string, string>, record: Record, fixedNow: Time,
                 clock: Option<Time>, attempts: seq<Attempt>, handlerFails: bool)
    returns (failure: Option<Error>, sent: seq<(string, string)>)
    ensures var wanted := if record.operationType in eventTypes then Some(eventTypes[record.operationType]) else None;
            var now := if clock.Some? then clock.value else fixedNow;
            && (failure.None? <==>
                && HandlerKey(record.operationType, TrimSpace(record.phase)) in handlers
                && !IsZero(now) && !handlerFails
                && |attempts| == 1 && Fits(record.id, wanted, attempts[0]) && attempts[0].stored)
            && |sent| <= 1
            && (forall call <- sent :: call.0 == record.id && wanted == Some(call.1))
            && failure == if HandlerKey(record.operationType, TrimSpace(record.phase)) !in handlers
                          then Some(Unsupported)
                          else if IsZero(now) then Some(TimeNotSet)
                          else if handlerFails then
                            if attempts != [] && Fits(record.id, wanted, attempts[0]) && attempts[0].stored
                            then Some(HandlerFailedAfterCommit) else Some(HandlerFailed)
                          else Refusal(record.id, wanted, attempts)
  {
    sent := [];
    if HandlerKey(record.operationType, TrimSpace(record.phase)) !in handlers {
      return Some(Unsupported), sent;
    }
    var now := if clock.Some? then clock.value else fixedNow;
    if IsZero(now) {
      return Some(TimeNotSet), sent;
    }
    var wanted := if record.operationType in eventTypes then Some(eventTypes[record.operationType]) else None;
    var committer := new Committer(record.id, wanted);
    for i := 0 to |attempts|
      invariant committer.Now() == AfterAll(record.id, wanted, attempts[..i])
    {
      assert attempts[..i + 1][..i] == attempts[..i];
      var _ := committer.Commit(attempts[i]);
    }
    assert attempts[..|attempts|] == attempts;
    OneShot(record.id, wanted, attempts);
    ErrorIsRefusal(record.id, wanted, attempts);
    sent := committer.sent;
    if handlerFails {
      failure := if committer.committed then Some(HandlerFailedAfterCommit) else Some(HandlerFailed);
    } else if committer.err.Some? {
      failure := committer.err;
    } else if !committer.committed {
      failure := Some(NoCommit);
    } else {
      failure := None;
    }
  }
}
