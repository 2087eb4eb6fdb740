/**
 * The export gateway (internal/exportgateway/gateway.go) as a concurrent program. Any number of
 * requests are in flight; each is a small machine with its own program counter, stack of deferred
 * calls, clock readings and file system handle. Their steps interleave with one another and with
 * everything else that touches the ledger, and a request may crash at any point.
 */
module ExportGateway {
  import opened Common
  import opened ExportLedger
  import opened Disk
  import opened SystemCalls

  predicate ReadMethod(verb: string) {
    verb in ["OPTIONS", "HEAD", "GET", "PROPFIND"]
  }

  predicate MethodMutates(verb: string) {
    verb in ["PUT", "DELETE", "MKCOL", "MOVE", "COPY", "PROPPATCH", "LOCK", "UNLOCK"]
  }

  predicate MethodAllowed(verb: string, mode: Mode) {
    ReadMethod(verb) || (MethodMutates(verb) && mode.ReadWrite?)
  }

  lemma ReadsDoNotMutate(verb: string)
    ensures ReadMethod(verb) ==> !MethodMutates(verb)
  {
  }

  /** A WebDAV session that is active and not past its expiry. */
  predicate CredentialUsable(session: Session, now: Time) {
    session.status.Active? && !IsZero(session.expiresAt) && session.expiresAt > now
  }

  /* ---------- One request ---------- */

  /** A call put on the deferred stack, with the arguments it captured. */
  datatype Deferred = CloseFs | StopHeartbeat | EndRow(requestId: string, exportId: string)

  /** Where a request is in ServeHTTP. */
  datatype Pc =
    | Arrived        // the credential has not been read
    | Admitted       // credential, method and paths were checked
    | Opened         // the payload file system is open
    | Named          // the request has an id
    | TurnedAway     // to close the file system by hand and answer with an error
    | Begun          // the begin call succeeded, nothing is deferred
    | CloseDeferred  // the close is deferred
    | StopDeferred   // the heartbeat runs and its stop is deferred
    | Serving        // the end call is deferred and the backend runs
    | Unwinding      // the deferred calls run
    | Finished

  /**
   * A request. `handle`, `stored`, `begun`, `settled` and `crashed` record its history: the
   * descriptor of its handle, whether its begin call took effect and whether it heard so, whether
   * an end call took effect, and where it crashed; `refusal` is the status it was turned away with.
   */
  datatype Thread = Thread(
    verb: string,
    exportId: string,
    pc: Pc,
    requestId: Option<string>,
    rootFD: int,
    stack: seq<Deferred>,
    beating: bool,
    handle: Option<int>,
    stored: bool,
    begun: bool,
    settled: bool,
    crashed: Option<Pc>,
    refusal: Option<int>)

  /** What a request has done that others can see: handles opened and closed, begins that succeeded, ends sent. */
  datatype Event =
    | OpenedFs(t: nat, fd: int)
    | ClosedFs(t: nat, fd: int)
    | BegunRow(t: nat, requestId: string, exportId: string, write: bool)
    | EndSent(t: nat, requestId: string, exportId: string)

  /** The store, the descriptor table with the descriptors of files the backends hold, the requests and the log. */
  datatype World = World(
    ledger: Ledger,
    fds: map<int, Ino>,
    files: set<int>,
    threads: map<nat, Thread>,
    log: multiset<Event>)

  const START := World(EMPTY, map[], {}, map[], multiset{})

  /** A step of a request's own program, with what the outside decides about it. */
  datatype Move =
    | Admit(now: Time, checksPass: bool)
    | OpenFs(fd: int, ino: Ino, ok: bool)
    | MakeId(id: Option<string>)
    | SendBegin(now: Time, ttl: int, restoring: bool, reply: StoreReply)
    | CloseByHand
    | DeferClose
    | StartHeartbeat
    | DeferEnd
    | Return
    | Crash
    | Unwind(now: Time, reply: StoreReply)
    | Finish

  /**
   * A request arrives or makes a move; its heartbeat beats; its backend opens or closes a file; or some
   * other component calls the store.
   */
  datatype Action =
    | Arrive(t: nat, verb: string, exportId: string)
    | Take(t: nat, move: Move)
    | Beat(t: nat, now: Time, ttl: int, reply: StoreReply)
    | BackendOpens(t: nat, fd: int, ino: Ino)
    | BackendCloses(fd: int)
    | Elsewhere(call: Call)

  function Applied(ledger: Ledger, call: Call, reply: StoreReply): Ledger {
    if reply.TookEffect() then Do(ledger, call).0 else ledger
  }

  /** The request id generator never repeats an id. */
  predicate UnusedId(w: World, id: string) {
    forall t <- w.threads :: w.threads[t].requestId != Some(id)
  }

  /** Whether a request can make a move now. */
  predicate CanMove(w: World, th: Thread, move: Move) {
    match move
    case Admit(_, _) => th.pc.Arrived?
    case OpenFs(fd, _, ok) => th.pc.Admitted? && (ok ==> fd >= 0 && fd !in w.fds)
    case MakeId(id) => th.pc.Opened? && (id.Some? ==> UnusedId(w, id.value))
    case SendBegin(_, _, _, _) => th.pc.Named? && th.requestId.Some?
    case CloseByHand => th.pc.TurnedAway?
    case DeferClose => th.pc.Begun?
    case StartHeartbeat => th.pc.CloseDeferred?
    case DeferEnd => th.pc.StopDeferred? && th.requestId.Some?
    case Return => th.pc.Serving?
    case Crash => !th.pc.Unwinding? && !th.pc.Finished?
    case Unwind(_, _) => th.pc.Unwinding? && th.stack != []
    case Finish => th.pc.Unwinding? && th.stack == []
  }

  /** Whether an action can happen now. */
  predicate Legal(w: World, a: Action) {
    match a
    case Arrive(t, _, _) => t !in w.threads
    case Take(t, move) => t in w.threads && CanMove(w, w.threads[t], move)
    case Beat(t, _, _, _) => t in w.threads && w.threads[t].beating && w.threads[t].requestId.Some?
    case BackendOpens(t, fd, _) => t in w.threads && w.threads[t].pc.Serving? && fd >= 0 && fd !in w.fds
    case BackendCloses(fd) => fd in w.files
    case Elsewhere(call) => !call.Begin? && !call.End?
  }

  /** What one step of a request does: to itself, to the log, to the store and to the descriptor table. */
  datatype Effect = Effect(thread: Thread, event: Option<Event>, ledger: Ledger, fds: map<int, Ino>)

  /** Close of the request's handle, as the file system does it. */
  function Closing(w: World, t: nat, th: Thread): Effect {
    var (fds, rootFD) := CloseRoot(w.fds, th.rootFD);
    Effect(th.(rootFD := rootFD), if th.rootFD < 0 then None else Some(ClosedFs(t, th.rootFD)), w.ledger, fds)
  }

  function BeginCall(th: Thread, move: Move): Call
    requires move.SendBegin? && th.requestId.Some?
  {
    Begin(th.requestId.value, th.exportId, move.now, move.now + move.ttl, MethodMutates(th.verb), move.restoring)
  }

  /** beginRuntimeRequest: a failed call may have taken effect. */
  function Beginning(w: World, t: nat, th: Thread, move: Move): Effect
    requires move.SendBegin? && th.requestId.Some?
  {
    var took := move.reply.TookEffect() && Do(w.ledger, BeginCall(th, move)).1.Ok?;
    var heard := took && move.reply.Done?;
    var refusal := if heard then None
                   else if move.reply.Done? && Do(w.ledger, BeginCall(th, move)).1.NoRows? then Some(403)
                   else Some(503);
    Effect(th.(pc := if heard then Begun else TurnedAway, stored := took, begun := heard, refusal := refusal),
           if heard then Some(BegunRow(t, th.requestId.value, th.exportId, MethodMutates(th.verb))) else None,
           Applied(w.ledger, BeginCall(th, move), move.reply), w.fds)
  }

  /** The deferred call on top of the stack, taken off and run. endRuntimeRequest ignores its error. */
  function Popping(w: World, t: nat, th: Thread, move: Move): Effect
    requires move.Unwind? && th.stack != []
  {
    var rest := th.(stack := th.stack[1..]);
    match th.stack[0]
    case CloseFs => Closing(w, t, rest)
    case StopHeartbeat => Effect(rest, None, w.ledger, w.fds)
    case EndRow(requestId, exportId) =>
      var call := End(requestId, exportId, move.now);
      Effect(rest.(settled := move.reply.TookEffect() && Do(w.ledger, call).1.Ok?),
             Some(EndSent(t, requestId, exportId)), Applied(w.ledger, call, move.reply), w.fds)
  }

  /** The checks before the file system is opened, on the credential as it is now. */
  predicate Passes(ledger: Ledger, th: Thread, now: Time, checksPass: bool) {
    && th.exportId in ledger.sessions
    && CredentialUsable(ledger.sessions[th.exportId], now)
    && MethodAllowed(th.verb, ledger.sessions[th.exportId].mode)
    && checksPass
  }

  /** Moves that look at nothing and change nothing but the request itself. */
  predicate IsAlone(move: Move) {
    move.DeferClose? || move.StartHeartbeat? || move.DeferEnd? || move.Return? || move.Crash? || move.Finish?
  }

  function Alone(th: Thread, move: Move): Thread
    requires IsAlone(move) && (move.DeferEnd? ==> th.requestId.Some?)
  {
    match move
    case DeferClose => th.(pc := CloseDeferred, stack := [CloseFs] + th.stack)
    case StartHeartbeat => th.(pc := StopDeferred, stack := [StopHeartbeat] + th.stack, beating := true)
    case DeferEnd => th.(pc := Serving, stack := [EndRow(th.requestId.value, th.exportId)] + th.stack)
    case Return => th.(pc := Unwinding)
    case Crash => th.(pc := Unwinding, crashed := Some(th.pc))
    case Finish => th.(pc := Finished)
  }

  /** One move of a request. */
  function Moved(w: World, t: nat, th: Thread, move: Move): Effect
    requires CanMove(w, th, move)
  {
    var same := Effect(th, None, w.ledger, w.fds);
    if IsAlone(move) then same.(thread := Alone(th, move))
    else
      match move
      case Admit(now, checksPass) =>
        same.(thread := if Passes(w.ledger, th, now, checksPass) then th.(pc := Admitted)
                        else th.(pc := Finished, refusal := Some(403)))
      case OpenFs(fd, ino, ok) =>
        if !ok then same.(thread := th.(pc := Finished, refusal := Some(403)))
        else Effect(th.(pc := Opened, rootFD := fd, handle := Some(fd)), Some(OpenedFs(t, fd)), w.ledger,
                    w.fds[fd := ino])
      case MakeId(id) =>
        same.(thread := if id.None? || Blank(id.value) then th.(pc := TurnedAway, refusal := Some(503))
                        else th.(pc := Named, requestId := id))
      case SendBegin(_, _, _, _) => Beginning(w, t, th, move)
      case CloseByHand => Closing(w, t, th.(pc := Finished))
      case Unwind(_, _) => Popping(w, t, th, move)
  }

  function Logged(log: multiset<Event>, event: Option<Event>): multiset<Event> {
    match event
    case None => log
    case Some(e) => log + multiset{e}
  }

  function NewThread(verb: string, exportId: string): Thread {
    Thread(verb, exportId, Arrived, None, -1, [], false, None, false, false, false, None, None)
  }

  function BeatCall(th: Thread, a: Action): Call
    requires a.Beat? && th.requestId.Some?
  {
    Heartbeat(th.requestId.value, th.exportId, a.now, a.now + a.ttl)
  }

  /** The world after a move of request t. */
  function AfterMove(w: World, t: nat, effect: Effect): World {
    w.(ledger := effect.ledger, fds := effect.fds, threads := w.threads[t := effect.thread],
       log := Logged(w.log, effect.event))
  }

  /** One step of the world; an action that cannot happen does nothing. */
  function Step(w: World, a: Action): World {
    if !Legal(w, a) then w
    else
      match a
      case Arrive(t, verb, exportId) => w.(threads := w.threads[t := NewThread(verb, exportId)])
      case Take(t, move) => AfterMove(w, t, Moved(w, t, w.threads[t], move))
      case Beat(t, _, _, reply) => w.(ledger := Applied(w.ledger, BeatCall(w.threads[t], a), reply))
      case BackendOpens(_, fd, ino) => w.(fds := w.fds[fd := ino], files := w.files + {fd})
      case BackendCloses(fd) => w.(fds := w.fds - {fd}, files := w.files - {fd})
      case Elsewhere(call) => w.(ledger := Do(w.ledger, call).0)
  }

  /** Any interleaving. */
  function Interleaved(w: World, actions: seq<Action>): World {
    if actions == [] then w else Step(Interleaved(w, actions[..|actions| - 1]), actions[|actions| - 1])
  }

  /* ---------- What is owed and what was skipped ---------- */

  predicate BeforeClose(pc: Pc) {
    pc.Opened? || pc.Named? || pc.TurnedAway? || pc.Begun?
  }

  predicate BeforeEnd(pc: Pc) {
    pc.Begun? || pc.CloseDeferred? || pc.StopDeferred?
  }

  /** The handle is still to be closed: by hand, or by the deferred call at the bottom of the stack. */
  predicate CloseOwed(th: Thread) {
    BeforeClose(th.pc) || th.stack != []
  }

  /** The crash came between opening the handle and deferring its close. */
  predicate CloseSkipped(th: Thread) {
    th.crashed.Some? && BeforeClose(th.crashed.value)
  }

  predicate EndOwed(th: Thread) {
    BeforeEnd(th.pc) || |th.stack| == 3
  }

  /** The crash came between the begin call and deferring the end call. */
  predicate EndSkipped(th: Thread) {
    th.crashed.Some? && BeforeEnd(th.crashed.value)
  }

  /** The three deferred calls, in the order they run. */
  function FullStack(th: Thread): seq<Deferred>
    requires th.requestId.Some?
  {
    [EndRow(th.requestId.value, th.exportId), StopHeartbeat, CloseFs]
  }

  predicate StackFits(th: Thread) {
    match th.pc
    case CloseDeferred => th.stack == [CloseFs]
    case StopDeferred => th.stack == [StopHeartbeat, CloseFs]
    case Serving => th.requestId.Some? && th.stack == FullStack(th)
    case Unwinding =>
      || th.stack == [] || th.stack == [CloseFs] || th.stack == [StopHeartbeat, CloseFs]
      || (th.requestId.Some? && th.stack == FullStack(th))
    case _ => th.stack == []
  }

  /** What the place in the program says about the request's history. */
  predicate Protocol(th: Thread) {
    && StackFits(th)
    && (th.crashed.Some? ==> th.pc.Unwinding? || th.pc.Finished?)
    && (CloseSkipped(th) ==> th.stack == [] && th.handle.Some?)
    && (EndSkipped(th) ==> |th.stack| < 3 && th.begun)
    && (CloseOwed(th) ==> th.handle.Some?)
    && (th.handle.Some? ==> !th.pc.Arrived? && !th.pc.Admitted?)
    && (EndOwed(th) || th.pc.Serving? ==> th.begun)
    && (th.begun ==> !th.pc.Arrived? && !th.pc.Admitted? && !th.pc.Opened? && !th.pc.Named? && !th.pc.TurnedAway?)
    && (th.begun ==> th.stored)
    && (th.stored ==> th.requestId.Some? && !th.pc.Arrived? && !th.pc.Admitted? && !th.pc.Opened? && !th.pc.Named?)
    && (th.requestId.Some? ==> !th.pc.Arrived? && !th.pc.Admitted? && !th.pc.Opened?)
    && (th.pc.Named? ==> th.requestId.Some?)
    && (th.beating ==> th.requestId.Some?)
    && (th.settled ==> th.begun && !EndOwed(th) && !EndSkipped(th))
    && (th.begun ==> th.refusal.None?)
    && (th.pc.TurnedAway? ==> th.refusal.Some?)
    && (th.crashed.None? && th.pc.Unwinding? ==> th.begun)
    && (th.crashed == Some(Serving) ==> th.begun)
    && (th.crashed.None? && th.pc.Finished? && !th.begun ==> th.refusal.Some?)
    && (th.rootFD >= 0 <==> th.handle.Some? && (CloseOwed(th) || CloseSkipped(th)))
    && (th.rootFD >= 0 ==> th.handle == Some(th.rootFD))
  }

  /** How often the log holds an event of a request, by that request's history. */
  function Expected(th: Thread, x: Event): nat {
    match x
    case OpenedFs(_, fd) => if th.handle == Some(fd) then 1 else 0
    case ClosedFs(_, fd) => if th.handle == Some(fd) && !CloseOwed(th) && !CloseSkipped(th) then 1 else 0
    case BegunRow(_, r, e, write) =>
      if th.begun && th.requestId == Some(r) && th.exportId == e && write == MethodMutates(th.verb) then 1 else 0
    case EndSent(_, r, e) =>
      if th.begun && th.requestId == Some(r) && th.exportId == e && !EndOwed(th) && !EndSkipped(th) then 1 else 0
  }

  lemma AloneKeepsProtocol(w: World, th: Thread, move: Move)
    requires IsAlone(move) && CanMove(w, th, move) && Protocol(th)
    ensures Protocol(Alone(th, move))
  {
  }

  lemma PoppingKeepsProtocol(w: World, t: nat, th: Thread, move: Move)
    requires move.Unwind? && CanMove(w, th, move) && Protocol(th)
    ensures Protocol(Popping(w, t, th, move).thread)
  {
  }

  lemma MoveKeepsProtocol(w: World, t: nat, th: Thread, move: Move)
    requires CanMove(w, th, move) && Protocol(th)
    ensures Protocol(Moved(w, t, th, move).thread)
  {
    if IsAlone(move) {
      AloneKeepsProtocol(w, th, move);
    } else if move.Unwind? {
      PoppingKeepsProtocol(w, t, th, move);
    }
  }

  lemma AloneLogs(w: World, th: Thread, move: Move, x: Event)
    requires IsAlone(move) && CanMove(w, th, move) && Protocol(th)
    ensures Expected(Alone(th, move), x) == Expected(th, x)
  {
  }

  lemma MoveLogs(w: World, t: nat, th: Thread, move: Move, x: Event)
    requires CanMove(w, th, move) && Protocol(th)
    ensures var effect := Moved(w, t, th, move);
            && (effect.event.Some? ==> effect.event.value.t == t)
            && (x.t == t ==> Expected(effect.thread, x) == Expected(th, x) + if effect.event == Some(x) then 1 else 0)
  {
    if IsAlone(move) {
      AloneLogs(w, th, move, x);
    }
  }

  /* ---------- The invariant of the world ---------- */

  predicate ThreadsFit(w: World) {
    forall t <- w.threads :: Protocol(w.threads[t])
  }

  /** The log holds what the requests' histories say, and nothing else. */
  ghost predicate LogFits(w: World) {
    forall x: Event :: w.log[x] == if x.t in w.threads then Expected(w.threads[x.t], x) else 0
  }

  predicate HoldsFd(w: World, fd: int) {
    exists t <- w.threads :: w.threads[t].rootFD == fd
  }

  /** The open descriptors are those of the backends' files and one for each open handle, all different. */
  predicate FdsFit(w: World) {
    && (forall fd <- w.files :: fd in w.fds)
    && (forall t <- w.threads | w.threads[t].rootFD >= 0 ::
        w.threads[t].rootFD in w.fds && w.threads[t].rootFD !in w.files)
    && (forall t <- w.threads, u <- w.threads | t != u && w.threads[t].rootFD >= 0 ::
        w.threads[u].rootFD != w.threads[t].rootFD)
    && (forall fd <- w.fds :: fd >= 0 && (fd in w.files || HoldsFd(w, fd)))
  }

  predicate BeforeBegin(pc: Pc) {
    pc.Admitted? || pc.Opened? || pc.Named?
  }

  /** What the ledger holds for a request. */
  predicate RowFits(ledger: Ledger, th: Thread) {
    && (BeforeBegin(th.pc) ==>
          && th.exportId in ledger.sessions && (ReadMethod(th.verb) || MethodMutates(th.verb))
          && (MethodMutates(th.verb) ==> ledger.sessions[th.exportId].mode.ReadWrite?))
    && (th.stored ==>
          && th.requestId.Some? && th.requestId.value in ledger.rows && ValidRequest(th.requestId.value, th.exportId)
          && var row := ledger.rows[th.requestId.value];
          && row.exportId == th.exportId && row.write == MethodMutates(th.verb)
          && (row.state.Open? ==> !th.settled) && (row.state.Closed? ==> th.settled))
  }

  predicate Owner(w: World, t: nat, id: string) {
    t in w.threads && w.threads[t].requestId == Some(id) && w.threads[t].stored
  }

  predicate IdsDiffer(threads: map<nat, Thread>) {
    forall t <- threads, u <- threads | t != u && threads[t].requestId.Some? ::
        threads[u].requestId != threads[t].requestId
  }

  predicate AllRowsFit(ledger: Ledger, threads: map<nat, Thread>) {
    forall t <- threads :: RowFits(ledger, threads[t])
  }

  ghost predicate RowsOwned(w: World) {
    forall id <- w.ledger.rows :: exists t :: Owner(w, t, id)
  }

  /** Request ids are not shared, and every row is the one of the request that began it. */
  ghost predicate RowsFit(w: World) {
    IdsDiffer(w.threads) && AllRowsFit(w.ledger, w.threads) && RowsOwned(w)
  }

  ghost predicate WorldOk(w: World) {
    ThreadsFit(w) && LogFits(w) && FdsFit(w) && LedgerOk(w.ledger) && RowsFit(w)
  }

  /* ---------- The log and the descriptors, step by step ---------- */

  lemma LogAfterMove(w: World, t: nat, effect: Effect)
    requires LogFits(w) && t in w.threads && (effect.event.Some? ==> effect.event.value.t == t)
    requires forall x: Event | x.t == t ::
               Expected(effect.thread, x) == Expected(w.threads[t], x) + if effect.event == Some(x) then 1 else 0
    ensures LogFits(AfterMove(w, t, effect))
  {
  }

  lemma MoveStepLogs(w: World, t: nat, move: Move)
    requires ThreadsFit(w) && LogFits(w) && t in w.threads && CanMove(w, w.threads[t], move)
    ensures LogFits(AfterMove(w, t, Moved(w, t, w.threads[t], move)))
  {
    var th := w.threads[t];
    var effect := Moved(w, t, th, move);
    MoveLogs(w, t, th, move, OpenedFs(t, 0));
    forall x: Event | x.t == t
      ensures Expected(effect.thread, x) == Expected(th, x) + if effect.event == Some(x) then 1 else 0
    {
      MoveLogs(w, t, th, move, x);
    }
    LogAfterMove(w, t, effect);
  }

  lemma StepLogs(w: World, a: Action)
    requires ThreadsFit(w) && LogFits(w)
    ensures ThreadsFit(Step(w, a)) && LogFits(Step(w, a))
  {
    if Legal(w, a) && a.Take? {
      MoveKeepsProtocol(w, a.t, w.threads[a.t], a.move);
      MoveStepLogs(w, a.t, a.move);
    }
  }

  /** What a move may do to descriptors. */
  predicate FdStep(fds: map<int, Ino>, rootFD: int, fds': map<int, Ino>, rootFD': int) {
    || (fds' == fds && rootFD' == rootFD)
    || (rootFD >= 0 && rootFD' < 0 && fds' == fds - {rootFD})
    || (rootFD < 0 && rootFD' >= 0 && rootFD' !in fds && fds'.Keys == fds.Keys + {rootFD'})
  }

  lemma MoveFdStep(w: World, t: nat, th: Thread, move: Move)
    requires CanMove(w, th, move) && Protocol(th)
    ensures FdStep(w.fds, th.rootFD, Moved(w, t, th, move).fds, Moved(w, t, th, move).thread.rootFD)
  {
  }

  predicate OthersSame(w: World, next: World, t: nat) {
    && t in w.threads && next.files == w.files && next.threads.Keys == w.threads.Keys
    && forall u <- w.threads | u != t :: next.threads[u] == w.threads[u]
  }

  lemma FdsAfterOpen(w: World, next: World, t: nat)
    requires FdsFit(w) && OthersSame(w, next, t) && w.threads[t].rootFD < 0
    requires next.threads[t].rootFD >= 0 && next.threads[t].rootFD !in w.fds
    requires next.fds.Keys == w.fds.Keys + {next.threads[t].rootFD}
    ensures FdsFit(next)
  {
    forall fd <- next.fds ensures fd >= 0 && (fd in next.files || HoldsFd(next, fd)) {
      if fd in w.fds && fd !in w.files {
        var u :| u in w.threads && w.threads[u].rootFD == fd;
        assert next.threads[u].rootFD == fd;
      } else if fd !in w.files {
        assert next.threads[t].rootFD == fd;
      }
    }
  }

  lemma FdsAfterClose(w: World, next: World, t: nat)
    requires FdsFit(w) && OthersSame(w, next, t) && w.threads[t].rootFD >= 0 && next.threads[t].rootFD < 0
    requires next.fds == w.fds - {w.threads[t].rootFD}
    ensures FdsFit(next)
  {
    forall fd <- next.fds ensures fd >= 0 && (fd in next.files || HoldsFd(next, fd)) {
      if fd !in w.files {
        var u :| u in w.threads && w.threads[u].rootFD == fd;
        assert next.threads[u].rootFD == fd;
      }
    }
  }

  lemma FdsAfterNothing(w: World, next: World, t: nat)
    requires FdsFit(w) && OthersSame(w, next, t) && next.threads[t].rootFD == w.threads[t].rootFD && next.fds == w.fds
    ensures FdsFit(next)
  {
    forall fd <- next.fds ensures fd >= 0 && (fd in next.files || HoldsFd(next, fd)) {
      if fd !in w.files {
        var u :| u in w.threads && w.threads[u].rootFD == fd;
        assert next.threads[u].rootFD == fd;
      }
    }
  }

  lemma FdsAfterMove(w: World, next: World, t: nat)
    requires FdsFit(w) && OthersSame(w, next, t)
    requires FdStep(w.fds, w.threads[t].rootFD, next.fds, next.threads[t].rootFD)
    ensures FdsFit(next)
  {
    if next.fds == w.fds && next.threads[t].rootFD == w.threads[t].rootFD {
      FdsAfterNothing(w, next, t);
    } else if w.threads[t].rootFD >= 0 {
      FdsAfterClose(w, next, t);
    } else {
      FdsAfterOpen(w, next, t);
    }
  }

  lemma MoveStepFds(w: World, t: nat, move: Move)
    requires FdsFit(w) && t in w.threads && Protocol(w.threads[t]) && CanMove(w, w.threads[t], move)
    ensures FdsFit(AfterMove(w, t, Moved(w, t, w.threads[t], move)))
  {
    MoveFdStep(w, t, w.threads[t], move);
    FdsAfterMove(w, AfterMove(w, t, Moved(w, t, w.threads[t], move)), t);
  }

  lemma StepFds(w: World, a: Action)
    requires ThreadsFit(w) && FdsFit(w)
    ensures FdsFit(Step(w, a))
  {
    if Legal(w, a) {
      match a
      case Take(t, move) => MoveStepFds(w, t, move);
      case _ => OtherFds(w, Step(w, a));
    }
  }

  /** Steps that keep every handle: at most a file is opened or closed. */
  lemma OtherFds(w: World, next: World)
    requires FdsFit(w)
    requires forall t <- w.threads :: t in next.threads && next.threads[t] == w.threads[t]
    requires forall t <- next.threads | t !in w.threads :: next.threads[t].rootFD < 0
    requires || (next.fds == w.fds && next.files == w.files)
             || (exists fd ::
                   fd >= 0 && fd !in w.fds && next.fds.Keys == w.fds.Keys + {fd} && next.files == w.files + {fd})
             || (exists fd :: fd in w.files && next.fds == w.fds - {fd} && next.files == w.files - {fd})
    ensures FdsFit(next)
  {
    forall fd <- next.fds ensures fd >= 0 && (fd in next.files || HoldsFd(next, fd)) {
      if fd in w.fds && fd !in w.files {
        var u :| u in w.threads && w.threads[u].rootFD == fd;
        assert u in next.threads && next.threads[u].rootFD == fd;
      }
    }
  }

  /* ---------- The rows, step by step ---------- */

  /** Rows stay, and an open one may be recovered. */
  predicate OnlyRecovers(before: Ledger, after: Ledger) {
    && before.rows.Keys == after.rows.Keys
    && forall id <- before.rows ::
         && after.rows[id].exportId == before.rows[id].exportId && after.rows[id].write == before.rows[id].write
         && (after.rows[id].state == before.rows[id].state
             || (before.rows[id].state.Open? && after.rows[id].state.Recovered?))
  }

  lemma QuietCalls(ledger: Ledger, call: Call)
    requires !call.Begin? && !call.End?
    ensures OnlyRecovers(ledger, Do(ledger, call).0)
  {
    if call.Heartbeat? {
      HeartbeatDoes(ledger, call);
    } else if call.RecoverStale? {
      RecoverStaleDoes(ledger, call);
      RecoveredRows(ledger, StaleAmong(ledger, call.offered, call.now));
    }
  }

  lemma RecoveredRows(ledger: Ledger, picked: set<string>)
    requires forall id <- picked :: id in ledger.rows ==> ledger.rows[id].state.Open?
    ensures OnlyRecovers(ledger, WithRecovered(ledger, picked))
  {
  }

  lemma RowFitsAfterQuiet(before: Ledger, after: Ledger, th: Thread)
    requires RowFits(before, th) && Follows(before, after) && OnlyRecovers(before, after)
    ensures RowFits(after, th)
  {
  }

  /** The same requests over a ledger in which at most some rows were recovered. */
  lemma RowsAfterQuiet(w: World, next: World)
    requires RowsFit(w) && Follows(w.ledger, next.ledger) && OnlyRecovers(w.ledger, next.ledger)
    requires next.threads == w.threads
    ensures RowsFit(next)
  {
    forall t <- next.threads ensures RowFits(next.ledger, next.threads[t]) {
      RowFitsAfterQuiet(w.ledger, next.ledger, w.threads[t]);
    }
    OwnedStays(w, next);
  }

  /** Owners stay owners when requests keep their ids and what they stored. */
  lemma OwnedStays(w: World, next: World)
    requires RowsOwned(w) && w.threads.Keys <= next.threads.Keys
    requires forall t <- w.threads | w.threads[t].stored ::
               next.threads[t].stored && next.threads[t].requestId == w.threads[t].requestId
    requires forall other <- next.ledger.rows :: other in w.ledger.rows || (exists t :: Owner(next, t, other))
    ensures RowsOwned(next)
  {
    forall other <- next.ledger.rows ensures exists t :: Owner(next, t, other) {
      if other in w.ledger.rows {
        var t :| Owner(w, t, other);
        assert Owner(next, t, other);
      }
    }
  }

  lemma DifferStays(threads: map<nat, Thread>, t: nat, th: Thread)
    requires IdsDiffer(threads)
    requires th.requestId.None? || (t in threads && th.requestId == threads[t].requestId)
          || forall u <- threads :: threads[u].requestId != th.requestId
    ensures IdsDiffer(threads[t := th])
  {
  }

  /** The other requests do not notice a call that touches one request's row only. */
  predicate OwnRowOnly(before: Ledger, after: Ledger, id: string) {
    && after.rows.Keys <= before.rows.Keys + {id}
    && forall other <- before.rows | other != id :: other in after.rows && after.rows[other] == before.rows[other]
  }

  lemma OthersRowFits(before: Ledger, after: Ledger, th: Thread, id: string)
    requires RowFits(before, th) && Follows(before, after) && th.requestId != Some(id) && OwnRowOnly(before, after, id)
    ensures RowFits(after, th)
  {
  }

  lemma OthersAfterCall(w: World, after: Ledger, t: nat, id: string, th: Thread)
    requires RowsFit(w) && t in w.threads && w.threads[t].requestId == Some(id)
    requires Follows(w.ledger, after) && OwnRowOnly(w.ledger, after, id) && RowFits(after, th)
    ensures AllRowsFit(after, w.threads[t := th])
  {
    forall u <- w.threads | u != t ensures RowFits(after, w.threads[u]) {
      OthersRowFits(w.ledger, after, w.threads[u], id);
    }
  }

  /** A begin or end call of one request, about its own row. */
  lemma RowsAfterCall(w: World, next: World, t: nat, id: string, th: Thread)
    requires RowsFit(w) && t in w.threads && w.threads[t].requestId == Some(id) == th.requestId
    requires Follows(w.ledger, next.ledger) && OwnRowOnly(w.ledger, next.ledger, id)
    requires next.threads == w.threads[t := th] && RowFits(next.ledger, th)
    requires (w.threads[t].stored || id in next.ledger.rows) ==> th.stored
    ensures RowsFit(next)
  {
    OthersAfterCall(w, next.ledger, t, id, th);
    DifferStays(w.threads, t, th);
    assert id in next.ledger.rows ==> Owner(next, t, id);
    OwnedStays(w, next);
  }

  /** A step of one request that leaves the ledger alone. */
  lemma RowsAfterLocal(w: World, next: World, t: nat, th: Thread)
    requires RowsFit(w) && t in w.threads && next.ledger == w.ledger && next.threads == w.threads[t := th]
    requires th.stored == w.threads[t].stored && RowFits(w.ledger, th)
    requires th.requestId == w.threads[t].requestId
          || (!th.stored && th.requestId.Some? && UnusedId(w, th.requestId.value))
    ensures RowsFit(next)
  {
    DifferStays(w.threads, t, th);
    OwnedStays(w, next);
  }

  /** The ledger is in order and later than another. */
  predicate Onward(before: Ledger, after: Ledger) {
    LedgerOk(after) && Follows(before, after)
  }

  lemma AppliedKeeps(ledger: Ledger, call: Call, reply: StoreReply)
    requires LedgerOk(ledger) && Sendable(ledger, call)
    ensures Onward(ledger, Applied(ledger, call, reply))
  {
    DoKeeps(ledger, call);
    FollowsItself(ledger);
  }

  lemma BeginLedger(w: World, th: Thread, move: Move)
    requires LedgerOk(w.ledger) && RowFits(w.ledger, th) && CanMove(w, th, move) && move.SendBegin?
    ensures Onward(w.ledger, Applied(w.ledger, BeginCall(th, move), move.reply))
  {
    AppliedKeeps(w.ledger, BeginCall(th, move), move.reply);
  }

  lemma MoveLedger(w: World, t: nat, th: Thread, move: Move)
    requires LedgerOk(w.ledger) && RowFits(w.ledger, th) && CanMove(w, th, move)
    ensures Onward(w.ledger, Moved(w, t, th, move).ledger)
  {
    if move.SendBegin? {
      BeginLedger(w, th, move);
    } else if move.Unwind? && th.stack[0].EndRow? {
      AppliedKeeps(w.ledger, End(th.stack[0].requestId, th.stack[0].exportId, move.now), move.reply);
    } else {
      FollowsItself(w.ledger);
    }
  }

  lemma TakeLedger(w: World, a: Action)
    requires LedgerOk(w.ledger) && a.Take? && Legal(w, a) && RowFits(w.ledger, w.threads[a.t])
    ensures Onward(w.ledger, Step(w, a).ledger)
  {
    MoveLedger(w, a.t, w.threads[a.t], a.move);
  }

  lemma StepBeats(w: World, a: Action)
    requires a.Beat? && Legal(w, a)
    ensures Step(w, a) == w.(ledger := Applied(w.ledger, BeatCall(w.threads[a.t], a), a.reply))
  {
  }

  lemma BeatLedger(w: World, a: Action)
    requires LedgerOk(w.ledger) && a.Beat? && Legal(w, a)
    ensures Onward(w.ledger, Step(w, a).ledger)
  {
    StepBeats(w, a);
    AppliedKeeps(w.ledger, BeatCall(w.threads[a.t], a), a.reply);
  }

  lemma ElsewhereLedger(w: World, a: Action)
    requires LedgerOk(w.ledger) && a.Elsewhere? && Legal(w, a)
    ensures Onward(w.ledger, Step(w, a).ledger)
  {
    DoKeeps(w.ledger, a.call);
  }

  lemma SameLedger(w: World, a: Action)
    requires LedgerOk(w.ledger) && (!Legal(w, a) || a.Arrive? || a.BackendOpens? || a.BackendCloses?)
    ensures Onward(w.ledger, Step(w, a).ledger)
  {
    FollowsItself(w.ledger);
  }

  /** Every step keeps the ledger in order and moves it forward. */
  lemma StepLedger(w: World, a: Action)
    requires LedgerOk(w.ledger) && AllRowsFit(w.ledger, w.threads)
    ensures Onward(w.ledger, Step(w, a).ledger)
  {
    if !Legal(w, a) {
      SameLedger(w, a);
    } else {
      match a
      case Take(_, _) => TakeLedger(w, a);
      case Beat(_, _, _, _) => BeatLedger(w, a);
      case Elsewhere(_) => ElsewhereLedger(w, a);
      case _ => SameLedger(w, a);
    }
  }

  lemma BeginRows(w: World, t: nat, move: Move)
    requires ThreadsFit(w) && RowsFit(w) && t in w.threads && CanMove(w, w.threads[t], move) && move.SendBegin?
    requires Follows(w.ledger, Beginning(w, t, w.threads[t], move).ledger)
    ensures RowsFit(AfterMove(w, t, Beginning(w, t, w.threads[t], move)))
  {
    var th := w.threads[t];
    assert Protocol(th) && RowFits(w.ledger, th);
    NamedHasNoRow(w, t, th.requestId.value);
    BegunRowFits(w, t, th, move);
    RowsAfterCall(w, AfterMove(w, t, Beginning(w, t, th, move)), t, th.requestId.value,
                  Beginning(w, t, th, move).thread);
  }

  lemma NamedHasNoRow(w: World, t: nat, id: string)
    requires IdsDiffer(w.threads) && RowsOwned(w) && t in w.threads && w.threads[t].requestId == Some(id)
             && !w.threads[t].stored
    ensures id !in w.ledger.rows
  {
    forall u ensures !Owner(w, u, id) {
    }
  }

  lemma BegunRowFits(w: World, t: nat, th: Thread, move: Move)
    requires move.SendBegin? && th.requestId.Some? && !th.stored && !th.settled && RowFits(w.ledger, th)
    requires th.requestId.value !in w.ledger.rows
    ensures var effect := Beginning(w, t, th, move);
            && RowFits(effect.ledger, effect.thread) && OwnRowOnly(w.ledger, effect.ledger, th.requestId.value)
            && (th.requestId.value in effect.ledger.rows ==> effect.thread.stored)
  {
  }

  lemma EndRows(w: World, t: nat, move: Move)
    requires move.Unwind? && t in w.threads && w.threads[t].pc.Unwinding? && w.threads[t].stack != []
             && w.threads[t].stack[0].EndRow?
    requires ThreadsFit(w) && RowsFit(w) && Follows(w.ledger, Popping(w, t, w.threads[t], move).ledger)
    ensures RowsFit(AfterMove(w, t, Popping(w, t, w.threads[t], move)))
  {
    var th := w.threads[t];
    assert Protocol(th) && RowFits(w.ledger, th) && th.stack == FullStack(th);
    EndedRowFits(w, t, th, move);
    RowsAfterCall(w, AfterMove(w, t, Popping(w, t, th, move)), t, th.requestId.value, Popping(w, t, th, move).thread);
  }

  lemma EndedRowFits(w: World, t: nat, th: Thread, move: Move)
    requires move.Unwind? && th.requestId.Some? && th.stored && !th.settled && RowFits(w.ledger, th)
    requires th.stack == FullStack(th) && th.pc.Unwinding?
    ensures var effect := Popping(w, t, th, move);
            && RowFits(effect.ledger, effect.thread) && OwnRowOnly(w.ledger, effect.ledger, th.requestId.value)
            && effect.thread.stored && effect.thread.requestId == th.requestId
            && effect.ledger == Applied(w.ledger, End(th.requestId.value, th.exportId, move.now), move.reply)
  {
    EndDoes(w.ledger, End(th.requestId.value, th.exportId, move.now));
  }

  lemma LocalRows(w: World, t: nat, move: Move)
    requires ThreadsFit(w) && RowsFit(w) && t in w.threads && CanMove(w, w.threads[t], move) && !move.SendBegin?
    requires move.Unwind? ==> !w.threads[t].stack[0].EndRow?
    ensures RowsFit(AfterMove(w, t, Moved(w, t, w.threads[t], move)))
  {
    var th := w.threads[t];
    assert Protocol(th) && RowFits(w.ledger, th);
    LocalThread(w, t, th, move);
    RowsAfterLocal(w, AfterMove(w, t, Moved(w, t, th, move)), t, Moved(w, t, th, move).thread);
  }

  lemma AloneRow(w: World, th: Thread, move: Move)
    requires IsAlone(move) && CanMove(w, th, move) && Protocol(th) && RowFits(w.ledger, th)
    ensures RowFits(w.ledger, Alone(th, move)) && Alone(th, move).stored == th.stored
            && Alone(th, move).requestId == th.requestId
  {
  }

  lemma LocalThread(w: World, t: nat, th: Thread, move: Move)
    requires CanMove(w, th, move) && !move.SendBegin? && (move.Unwind? ==> !th.stack[0].EndRow?)
    requires Protocol(th) && RowFits(w.ledger, th)
    ensures var effect := Moved(w, t, th, move);
            && effect.ledger == w.ledger && effect.thread.stored == th.stored && RowFits(w.ledger, effect.thread)
            && (effect.thread.requestId == th.requestId
                || (!th.stored && effect.thread.requestId.Some? && UnusedId(w, effect.thread.requestId.value)))
  {
    if IsAlone(move) {
      AloneRow(w, th, move);
    } else {
      ReadsDoNotMutate(th.verb);
    }
  }

  /** A call by a heartbeat or by another component. */
  lemma QuietRows(w: World, next: World, call: Call)
    requires RowsFit(w) && !call.Begin? && !call.End? && next.threads == w.threads
    requires Follows(w.ledger, next.ledger) && (next.ledger == w.ledger || next.ledger == Do(w.ledger, call).0)
    ensures RowsFit(next)
  {
    if next.ledger == w.ledger {
      OwnedStays(w, next);
    } else {
      QuietCalls(w.ledger, call);
      RowsAfterQuiet(w, next);
    }
  }

  lemma ArriveRows(w: World, a: Action)
    requires RowsFit(w) && a.Arrive? && Legal(w, a)
    ensures RowsFit(Step(w, a))
  {
    DifferStays(w.threads, a.t, NewThread(a.verb, a.exportId));
    OwnedStays(w, Step(w, a));
  }

  lemma BeatRows(w: World, a: Action)
    requires RowsFit(w) && a.Beat? && Legal(w, a) && Follows(w.ledger, Step(w, a).ledger)
    ensures RowsFit(Step(w, a))
  {
    QuietRows(w, Step(w, a), BeatCall(w.threads[a.t], a));
  }

  lemma ElsewhereRows(w: World, a: Action)
    requires RowsFit(w) && a.Elsewhere? && Legal(w, a) && Follows(w.ledger, Step(w, a).ledger)
    ensures RowsFit(Step(w, a))
  {
    QuietRows(w, Step(w, a), a.call);
  }

  lemma FileRows(w: World, a: Action)
    requires RowsFit(w) && (a.BackendOpens? || a.BackendCloses?) && Legal(w, a)
    ensures RowsFit(Step(w, a))
  {
    OwnedStays(w, Step(w, a));
  }

  lemma TakeRows(w: World, a: Action)
    requires ThreadsFit(w) && RowsFit(w) && a.Take? && Legal(w, a) && Follows(w.ledger, Step(w, a).ledger)
    ensures RowsFit(Step(w, a))
  {
    var t, move := a.t, a.move;
    if move.SendBegin? {
      BeginRows(w, t, move);
    } else if move.Unwind? && w.threads[t].stack[0].EndRow? {
      EndRows(w, t, move);
    } else {
      LocalRows(w, t, move);
    }
  }

  lemma StepRows(w: World, a: Action)
    requires ThreadsFit(w) && RowsFit(w) && Follows(w.ledger, Step(w, a).ledger)
    ensures RowsFit(Step(w, a))
  {
    if Legal(w, a) {
      match a
      case Arrive(_, _, _) => ArriveRows(w, a);
      case Take(_, _) => TakeRows(w, a);
      case Beat(_, _, _, _) => BeatRows(w, a);
      case Elsewhere(_) => ElsewhereRows(w, a);
      case _ => FileRows(w, a);
    }
  }

  lemma StepKeeps(w: World, a: Action)
    requires WorldOk(w)
    ensures WorldOk(Step(w, a))
  {
    StepLogs(w, a);
    StepFds(w, a);
    StepLedger(w, a);
    StepRows(w, a);
  }

  /** Every interleaving of any number of requests, and of anything else, keeps the invariant. */
  lemma {:induction false} EveryRunKeeps(w: World, actions: seq<Action>)
    requires WorldOk(w)
    ensures WorldOk(Interleaved(w, actions))
  {
    if actions != [] {
      EveryRunKeeps(w, actions[..|actions| - 1]);
      StepKeeps(Interleaved(w, actions[..|actions| - 1]), actions[|actions| - 1]);
    }
  }

  lemma StartIsOk()
    ensures WorldOk(START)
  {
  }

  /* ---------- What holds in every reachable world ---------- */

  /** In every reachable world, and so at every moment of every interleaving. */
  ghost predicate Reachable(w: World) {
    exists actions :: Interleaved(START, actions) == w
  }

  lemma ReachableIsOk(w: World)
    requires Reachable(w)
    ensures WorldOk(w)
  {
    var actions :| Interleaved(START, actions) == w;
    StartIsOk();
    EveryRunKeeps(START, actions);
  }

  /** What the history of a request and the log say in a reachable world. */
  lemma LogSays(w: World, x: Event)
    requires Reachable(w)
    ensures x.t in w.threads ==> Protocol(w.threads[x.t])
    ensures w.log[x] == if x.t in w.threads then Expected(w.threads[x.t], x) else 0
  {
    ReachableIsOk(w);
  }

  /** How often request t heard that its begin of (r, e) succeeded. */
  function Begins(w: World, t: nat, r: string, e: string): nat {
    w.log[BegunRow(t, r, e, true)] + w.log[BegunRow(t, r, e, false)]
  }

  function Ends(w: World, t: nat, r: string, e: string): nat {
    w.log[EndSent(t, r, e)]
  }

  /**
   * Begins and ends, at every moment of every interleaving: a request begins at most once and sends
   * at most one end, for the row it began and never before it began it. While the end is neither owed
   * nor skipped by a crash, each begin has exactly its one end; so a request that is over has sent
   * the end of its begin exactly when it did not crash between the two statements.
   */
  lemma EachBeginHasItsEnd(w: World, t: nat, r: string, e: string)
    requires Reachable(w)
    ensures Ends(w, t, r, e) <= Begins(w, t, r, e) <= 1
    ensures forall r', e' :: Begins(w, t, r, e) > 0 && Begins(w, t, r', e') > 0 ==> r' == r && e' == e
    ensures t !in w.threads ==> Begins(w, t, r, e) == 0
    ensures t in w.threads ==>
              (Begins(w, t, r, e) == Ends(w, t, r, e) <==>
                 Begins(w, t, r, e) == 0 || (!EndOwed(w.threads[t]) && !EndSkipped(w.threads[t])))
    ensures t in w.threads && w.threads[t].pc.Finished? ==>
              (Ends(w, t, r, e) < Begins(w, t, r, e) <==> Begins(w, t, r, e) == 1 && EndSkipped(w.threads[t]))
  {
    forall r', e' ensures Begins(w, t, r, e) > 0 && Begins(w, t, r', e') > 0 ==> r' == r && e' == e {
      LogSays(w, BegunRow(t, r', e', true));
      LogSays(w, BegunRow(t, r', e', false));
      LogSays(w, BegunRow(t, r, e, true));
      LogSays(w, BegunRow(t, r, e, false));
    }
    LogSays(w, BegunRow(t, r, e, true));
    LogSays(w, BegunRow(t, r, e, false));
    LogSays(w, EndSent(t, r, e));
  }

  /**
   * Handles, at every moment of every interleaving: each is opened once and closed at most once, and
   * when its request is over it has been closed unless the request crashed before the close was
   * deferred.
   */
  lemma EachHandleIsClosedOnce(w: World, t: nat, fd: int)
    requires Reachable(w)
    ensures w.log[ClosedFs(t, fd)] <= w.log[OpenedFs(t, fd)] <= 1
    ensures forall other :: w.log[OpenedFs(t, fd)] > 0 && w.log[OpenedFs(t, other)] > 0 ==> other == fd
    ensures t in w.threads && w.threads[t].pc.Finished? ==>
              (w.log[ClosedFs(t, fd)] < w.log[OpenedFs(t, fd)] <==>
               w.log[OpenedFs(t, fd)] == 1 && CloseSkipped(w.threads[t]))
  {
    forall other ensures w.log[OpenedFs(t, fd)] > 0 && w.log[OpenedFs(t, other)] > 0 ==> other == fd {
      LogSays(w, OpenedFs(t, other));
      LogSays(w, OpenedFs(t, fd));
    }
    LogSays(w, OpenedFs(t, fd));
    LogSays(w, ClosedFs(t, fd));
  }

  /* ---------- Runs that show what a crash skips ---------- */

  lemma OneMoreStep(w: World, a: Action)
    requires Reachable(w)
    ensures Reachable(Step(w, a))
  {
    var actions :| Interleaved(START, actions) == w;
    assert (actions + [a])[..|actions|] == actions;
    assert Interleaved(START, actions + [a]) == Step(w, a);
  }

  const EXPORT := "export_ab"
  const REQUEST := "errq_ab"
  const SESSION := Session("ns_ab", ReadOnly, Active, 9, None, 0, 0)

  /** Request 0 has opened its file system, in a world where its session is in use and nothing has begun. */
  predicate JustOpened(w: World) {
    && w.threads.Keys == {0} && w.ledger == Ledger(map[EXPORT := SESSION], map[], {})
    && w.threads[0] == NewThread("GET", EXPORT).(pc := Opened, rootFD := 3, handle := Some(3))
  }

  /** A request for a session in use, and nothing else. */
  lemma CanArrive() returns (w: World)
    ensures Reachable(w) && w.threads == map[0 := NewThread("GET", EXPORT)] && w.fds == map[]
    ensures w.ledger == Ledger(map[EXPORT := SESSION], map[], {})
  {
    assert Interleaved(START, []) == START;
    OneMoreStep(START, Elsewhere(Create(EXPORT, SESSION)));
    w := Step(START, Elsewhere(Create(EXPORT, SESSION)));
    OneMoreStep(w, Arrive(0, "GET", EXPORT));
    w := Step(w, Arrive(0, "GET", EXPORT));
  }

  lemma CanAdmit() returns (w: World)
    ensures Reachable(w) && w.threads == map[0 := NewThread("GET", EXPORT).(pc := Admitted)] && w.fds == map[]
    ensures w.ledger == Ledger(map[EXPORT := SESSION], map[], {})
  {
    w := CanArrive();
    assert Passes(w.ledger, w.threads[0], 1, true);
    OneMoreStep(w, Take(0, Admit(1, true)));
    w := Step(w, Take(0, Admit(1, true)));
  }

  lemma CanOpen() returns (w: World)
    ensures Reachable(w) && JustOpened(w)
  {
    w := CanAdmit();
    OneMoreStep(w, Take(0, OpenFs(3, 1, true)));
    w := Step(w, Take(0, OpenFs(3, 1, true)));
  }

  /** A crash, and the end of a request that has deferred nothing. */
  lemma CrashAndFinish(w: World) returns (after: World)
    requires Reachable(w) && 0 in w.threads && CanMove(w, w.threads[0], Crash) && w.threads[0].stack == []
    ensures Reachable(after) && 0 in after.threads
    ensures after.threads[0] == w.threads[0].(pc := Finished, crashed := Some(w.threads[0].pc))
  {
    OneMoreStep(w, Take(0, Crash));
    after := Step(w, Take(0, Crash));
    OneMoreStep(after, Take(0, Finish));
    after := Step(after, Take(0, Finish));
  }

  /** A reachable world in which a request is over and its handle was opened and never closed. */
  lemma HandleCanBeLeftOpen() returns (w: World)
    ensures Reachable(w) && 0 in w.threads && w.threads[0].pc.Finished? && CloseSkipped(w.threads[0])
    ensures w.log[OpenedFs(0, 3)] == 1 && w.log[ClosedFs(0, 3)] == 0 && 3 in w.fds
  {
    w := CanOpen();
    w := CrashAndFinish(w);
    LogSays(w, OpenedFs(0, 3));
    LogSays(w, ClosedFs(0, 3));
    ReachableIsOk(w);
  }

  lemma RequestIsNotBlank()
    ensures !Blank(REQUEST)
  {
    assert TrimLeft(REQUEST) == REQUEST && TrimRight(REQUEST) == REQUEST;
  }

  lemma CanName() returns (w: World)
    ensures Reachable(w) && w.ledger == Ledger(map[EXPORT := SESSION], map[], {}) && w.threads.Keys == {0}
    ensures w.threads[0]
         == NewThread("GET", EXPORT).(pc := Named, rootFD := 3, handle := Some(3), requestId := Some(REQUEST))
  {
    w := CanOpen();
    RequestIsNotBlank();
    OneMoreStep(w, Take(0, MakeId(Some(REQUEST))));
    w := Step(w, Take(0, MakeId(Some(REQUEST))));
  }

  lemma CanBegin() returns (w: World)
    ensures Reachable(w) && 0 in w.threads && w.threads[0].pc.Begun? && w.threads[0].begun
    ensures w.threads[0].requestId == Some(REQUEST) && w.threads[0].exportId == EXPORT && w.threads[0].verb == "GET"
    ensures w.threads[0].stack == []
  {
    w := CanName();
    BeginSucceeds(w.ledger);
    OneMoreStep(w, Take(0, SendBegin(1, 5, false, Done)));
    assert BeginCall(w.threads[0], SendBegin(1, 5, false, Done)) == Begin(REQUEST, EXPORT, 1, 6, false, false);
    w := Step(w, Take(0, SendBegin(1, 5, false, Done)));
  }

  lemma BeginSucceeds(ledger: Ledger)
    requires ledger == Ledger(map[EXPORT := SESSION], map[], {})
    ensures Do(ledger, Begin(REQUEST, EXPORT, 1, 6, false, false)).1.Ok?
  {
    assert REQUEST[5..] == "ab" && EXPORT[7..] == "ab";
    assert ValidRequest(REQUEST, EXPORT);
  }

  /** A reachable world in which a request is over and the end of its begin was never sent. */
  lemma EndCanBeSkipped() returns (w: World)
    ensures Reachable(w) && 0 in w.threads && w.threads[0].pc.Finished? && EndSkipped(w.threads[0])
    ensures Begins(w, 0, REQUEST, EXPORT) == 1 && Ends(w, 0, REQUEST, EXPORT) == 0
  {
    w := CanBegin();
    w := CrashAndFinish(w);
    LogSays(w, BegunRow(0, REQUEST, EXPORT, true));
    LogSays(w, BegunRow(0, REQUEST, EXPORT, false));
    LogSays(w, EndSent(0, REQUEST, EXPORT));
  }

  /**
   * Descriptors, at every moment of every interleaving: those open are the backends' files and the
   * handles of requests that still owe their close or skipped it; no two requests share one.
   */
  lemma DescriptorsAreAccountedFor(w: World, fd: int)
    requires Reachable(w)
    ensures fd in w.fds <==>
            fd in w.files || exists t <- w.threads :: w.threads[t].handle == Some(fd) && w.threads[t].rootFD == fd
                                                     && (CloseOwed(w.threads[t]) || CloseSkipped(w.threads[t]))
    ensures forall t <- w.threads, u <- w.threads | t != u && w.threads[t].rootFD == w.threads[u].rootFD ::
            w.threads[t].rootFD < 0
  {
    ReachableIsOk(w);
    if fd in w.fds && fd !in w.files {
      assert HoldsFd(w, fd);
      var t :| t in w.threads && w.threads[t].rootFD == fd;
      assert Protocol(w.threads[t]);
    }
    if t :| t in w.threads && w.threads[t].handle == Some(fd) && w.threads[t].rootFD == fd
            && (CloseOwed(w.threads[t]) || CloseSkipped(w.threads[t])) {
      assert Protocol(w.threads[t]);
    }
  }

  /** Requests of an export whose begin succeeded and whose end is still to be sent. */
  ghost function InFlight(w: World, e: string): set<string> {
    set t | t in w.threads && w.threads[t].exportId == e && w.threads[t].begun && EndOwed(w.threads[t])
            && w.threads[t].requestId.Some? :: w.threads[t].requestId.value
  }

  /** The row of the request was stored, but no end was or will be sent that took effect. */
  predicate IsLost(th: Thread) {
    || (th.stored && !th.begun)                                   // the answer to the begin call was lost
    || (th.begun && EndSkipped(th))                               // a crash came before the end was deferred
    || (th.begun && !EndOwed(th) && !EndSkipped(th) && !th.settled)  // the end call failed
  }

  ghost function Lost(w: World, e: string): set<string> {
    set t | t in w.threads && w.threads[t].exportId == e && IsLost(w.threads[t]) && w.threads[t].requestId.Some?
          :: w.threads[t].requestId.value
  }

  function RecoveredOf(ledger: Ledger, e: string): set<string> {
    set id | id in ledger.rows && ledger.rows[id].exportId == e && ledger.rows[id].state.Recovered?
  }

  lemma OpenIsInFlightOrLost(w: World, e: string, id: string)
    requires WorldOk(w)
    ensures id in OpenOf(w.ledger, e) <==> (id in InFlight(w, e) || id in Lost(w, e)) && id !in RecoveredOf(w.ledger, e)
  {
    if id in w.ledger.rows {
      var t :| Owner(w, t, id);
      var th := w.threads[t];
      assert Protocol(th) && RowFits(w.ledger, th);
      assert forall u <- w.threads | w.threads[u].requestId == Some(id) :: u == t;
    }
    if t :| t in w.threads && w.threads[t].requestId == Some(id) {
      assert Protocol(w.threads[t]) && RowFits(w.ledger, w.threads[t]);
    }
  }

  lemma InFlightIsNotLost(w: World, e: string, id: string)
    requires ThreadsFit(w) && IdsDiffer(w.threads)
    ensures !(id in InFlight(w, e) && id in Lost(w, e))
  {
    forall t <- w.threads, u <- w.threads
      ensures w.threads[t].requestId == w.threads[u].requestId == Some(id) ==>
                !(w.threads[t].begun && EndOwed(w.threads[t]) && IsLost(w.threads[u]))
    {
      assert Protocol(w.threads[t]);
    }
  }

  lemma CountIsOpenRows(ledger: Ledger, e: string)
    requires LedgerOk(ledger) && e in ledger.sessions
    ensures ledger.sessions[e].requests == |OpenOf(ledger, e)|
  {
    assert SessionOk(ledger, e);
  }

  /**
   * The ledger at every moment of every interleaving: the open rows of an export are its requests in
   * flight and its lost ones, without those that stale recovery has closed; and its counter is their
   * number.
   */
  lemma OpenRowsAreAccountedFor(w: World, e: string)
    requires Reachable(w)
    ensures OpenOf(w.ledger, e) == InFlight(w, e) + Lost(w, e) - RecoveredOf(w.ledger, e)
    ensures InFlight(w, e) !! Lost(w, e)
    ensures e in w.ledger.sessions ==>
              w.ledger.sessions[e].requests == |InFlight(w, e) + Lost(w, e) - RecoveredOf(w.ledger, e)|
  {
    ReachableIsOk(w);
    forall id
      ensures id in OpenOf(w.ledger, e) <==> id in InFlight(w, e) + Lost(w, e) - RecoveredOf(w.ledger, e)
      ensures !(id in InFlight(w, e) && id in Lost(w, e))
    {
      OpenIsInFlightOrLost(w, e, id);
      InFlightIsNotLost(w, e, id);
    }
    assert OpenOf(w.ledger, e) == InFlight(w, e) + Lost(w, e) - RecoveredOf(w.ledger, e);
    if e in w.ledger.sessions {
      CountIsOpenRows(w.ledger, e);
    }
  }

  /** The methods that only read. */
  const READS := ["OPTIONS", "HEAD", "GET", "PROPFIND"]

  /** The methods that a read-write session allows besides. */
  const WRITES := ["PUT", "DELETE", "MKCOL", "MOVE", "COPY", "PROPPATCH", "LOCK", "UNLOCK"]

  /**
   * Exactly which requests are admitted: those for a session that is active and not past its expiry at
   * this reading of the clock, by a method that only reads, or one that writes to a read-write session,
   * when the other checks pass. Others are answered with 403. So a read-only session admits reads only.
   */
  lemma AdmitIff(w: World, t: nat, now: Time, checksPass: bool)
    requires t in w.threads && w.threads[t].pc.Arrived?
    ensures var th, next := w.threads[t], Step(w, Take(t, Admit(now, checksPass))).threads[t];
            && (next.pc.Admitted? <==>
                && checksPass && th.exportId in w.ledger.sessions
                && var session := w.ledger.sessions[th.exportId];
                && session.status.Active? && !IsZero(session.expiresAt) && session.expiresAt > now
                && (th.verb in READS || (th.verb in WRITES && session.mode.ReadWrite?)))
            && (!next.pc.Admitted? ==> next.pc.Finished? && next.refusal == Some(403))
  {
  }

  /** A begin call of this request that the store can look at. */
  predicate BeginFormed(th: Thread, move: Move)
    requires move.SendBegin? && th.requestId.Some?
  {
    && ValidRequest(th.requestId.value, th.exportId) && !IsZero(move.now)
    && !IsZero(move.now + move.ttl) && move.ttl > 0
  }

  /**
   * Exactly which begins succeed: those that are well formed and answered, for a session that is active
   * and unexpired at the begin's own reading of the clock, whatever happened since the credential was
   * checked, and not writes during a restore. The row is a write exactly for a method that does not only
   * read, and then the session is read-write. A well-formed begin that was answered and did not succeed
   * is refused with 403, any other with 503.
   */
  lemma BeginIsLetIn(w: World, t: nat, move: Move)
    requires WorldOk(w) && t in w.threads && CanMove(w, w.threads[t], move) && move.SendBegin?
    ensures var th, next := w.threads[t], Step(w, Take(t, move));
            var sessions := w.ledger.sessions;
            && th.exportId in sessions
            && (next.threads[t].begun <==>
                && move.reply.Done? && BeginFormed(th, move) && sessions[th.exportId].status.Active?
                && sessions[th.exportId].expiresAt > move.now && (th.verb in READS || !move.restoring))
            && (next.threads[t].begun ==>
                  && th.requestId.value in next.ledger.rows
                  && (next.ledger.rows[th.requestId.value].write <==> th.verb !in READS)
                  && (th.verb !in READS ==> sessions[th.exportId].mode.ReadWrite?))
            && (!next.threads[t].begun ==>
                  next.threads[t].refusal == if move.reply.Done? && BeginFormed(th, move) then Some(403) else Some(503))
  {
    var th := w.threads[t];
    OwnRowFits(w, t);
    NamedHasNoRow(w, t, th.requestId.value);
    BegunOrNot(w, t, th, move);
    StepBegins(w, t, move);
  }

  lemma StepBegins(w: World, t: nat, move: Move)
    requires move.SendBegin? && t in w.threads && CanMove(w, w.threads[t], move)
    ensures Step(w, Take(t, move)) == AfterMove(w, t, Beginning(w, t, w.threads[t], move))
  {
  }

  lemma BegunOrNot(w: World, t: nat, th: Thread, move: Move)
    requires move.SendBegin? && th.pc.Named? && th.requestId.Some? && RowFits(w.ledger, th) && !th.begun
    requires th.requestId.value !in w.ledger.rows
    ensures var effect, session := Beginning(w, t, th, move), w.ledger.sessions[th.exportId];
            && (effect.thread.begun <==>
                && move.reply.Done? && BeginFormed(th, move) && session.status.Active?
                && session.expiresAt > move.now && (th.verb in READS || !move.restoring))
            && (effect.thread.begun ==>
                  && th.requestId.value in effect.ledger.rows
                  && (effect.ledger.rows[th.requestId.value].write <==> th.verb !in READS)
                  && (th.verb !in READS ==> session.mode.ReadWrite?))
            && (!effect.thread.begun ==>
                  effect.thread.refusal == if move.reply.Done? && BeginFormed(th, move) then Some(403) else Some(503))
  {
    ReadsDoNotMutate(th.verb);
    BeginIff(w.ledger, BeginCall(th, move));
  }

  /* ---------- Live requests keep their rows ---------- */

  /** No stale recovery by others at or after the promised time. */
  predicate Spares(a: Action, promise: Time) {
    a.Elsewhere? && a.call.RecoverStale? ==> a.call.now < promise
  }

  lemma StepKeepsAlive(w: World, a: Action, id: string, promise: Time)
    requires Alive(w.ledger, id, promise) && Spares(a, promise)
    ensures Alive(Step(w, a).ledger, id, promise)
  {
    if Legal(w, a) {
      match a
      case Take(t, move) => MoveKeepsAlive(w, t, w.threads[t], move, id, promise);
      case Beat(t, _, _, _) => CallKeepsAlive(w.ledger, BeatCall(w.threads[t], a), id, promise);
      case Elsewhere(call) => CallKeepsAlive(w.ledger, call, id, promise);
      case _ =>
    }
  }

  lemma MoveKeepsAlive(w: World, t: nat, th: Thread, move: Move, id: string, promise: Time)
    requires CanMove(w, th, move) && Alive(w.ledger, id, promise)
    ensures Alive(Moved(w, t, th, move).ledger, id, promise)
  {
    if move.SendBegin? {
      CallKeepsAlive(w.ledger, BeginCall(th, move), id, promise);
    } else if move.Unwind? && th.stack[0].EndRow? {
      CallKeepsAlive(w.ledger, End(th.stack[0].requestId, th.stack[0].exportId, move.now), id, promise);
    }
  }

  lemma {:induction false} InterleavedKeepsAlive(w: World, actions: seq<Action>, id: string, promise: Time)
    requires Alive(w.ledger, id, promise) && forall i | 0 <= i < |actions| :: Spares(actions[i], promise)
    ensures Alive(Interleaved(w, actions).ledger, id, promise)
  {
    if actions != [] {
      var n := |actions| - 1;
      InterleavedKeepsAlive(w, actions[..n], id, promise);
      StepKeepsAlive(Interleaved(w, actions[..n]), actions[n], id, promise);
    }
  }

  /**
   * A begin that succeeds, and a heartbeat that takes effect on an open row, promise the row a life of the
   * gateway's heartbeat time from their own reading of the clock.
   */
  lemma BeginPromises(w: World, t: nat, move: Move)
    requires WorldOk(w) && t in w.threads && CanMove(w, w.threads[t], move) && move.SendBegin?
    ensures Step(w, Take(t, move)).threads[t].begun ==>
              && w.threads[t].requestId.Some?
              && Alive(Step(w, Take(t, move)).ledger, w.threads[t].requestId.value, move.now + move.ttl)
  {
    OwnRowFits(w, t);
    NamedHasNoRow(w, t, w.threads[t].requestId.value);
    BeginIff(w.ledger, BeginCall(w.threads[t], move));
    StepBegins(w, t, move);
  }

  lemma BeatPromises(w: World, a: Action)
    requires WorldOk(w) && a.Beat? && Legal(w, a) && a.reply.TookEffect() && a.ttl > 0
    requires !IsZero(a.now) && !IsZero(a.now + a.ttl)
    requires w.threads[a.t].stored && w.ledger.rows[w.threads[a.t].requestId.value].state.Open?
    ensures Alive(Step(w, a).ledger, w.threads[a.t].requestId.value, a.now + a.ttl)
  {
    OwnRowFits(w, a.t);
    HeartbeatIff(w.ledger, BeatCall(w.threads[a.t], a));
    StepBeats(w, a);
  }

  /**
   * A request in flight keeps its row open: from a moment at which its row's heartbeat lasts to some time,
   * through any interleaving in which every stale recovery comes before that time, as long as its end
   * is still to be sent.
   */
  lemma LiveRequestKeepsItsRow(w: World, actions: seq<Action>, t: nat, id: string, promise: Time)
    requires WorldOk(w) && t in w.threads && w.threads[t].requestId == Some(id) && Alive(w.ledger, id, promise)
    requires forall i | 0 <= i < |actions| :: Spares(actions[i], promise)
    ensures var after := Interleaved(w, actions);
            t in after.threads && after.threads[t].begun && EndOwed(after.threads[t])
            && after.threads[t].requestId == Some(id) ==>
              id in after.ledger.rows && after.ledger.rows[id].state.Open?
  {
    EveryRunKeeps(w, actions);
    InterleavedKeepsAlive(w, actions, id, promise);
    var after := Interleaved(w, actions);
    if t in after.threads {
      OwnRowFits(after, t);
    }
  }

  /** The end of the request took effect, and its row is no longer open. */
  predicate Settled(next: World, t: nat, id: Option<string>) {
    && t in next.threads && next.threads[t].settled
    && id.Some? && id.value in next.ledger.rows && !next.ledger.rows[id.value].state.Open?
  }

  lemma EndSettlesStep(w: World, t: nat, move: Move)
    requires move.Unwind? && t in w.threads && w.threads[t].pc.Unwinding? && w.threads[t].stack != []
    requires w.threads[t].stack[0].EndRow? && Protocol(w.threads[t]) && RowFits(w.ledger, w.threads[t])
    requires LedgerOk(w.ledger) && move.reply.TookEffect() && !IsZero(move.now)
    ensures Settled(Step(w, Take(t, move)), t, w.threads[t].requestId)
  {
    EndSettlesRow(w, t, w.threads[t], move);
    StepPops(w, t, move);
  }

  /** An end that the store carries out, at a set time, always settles its row: the request is not lost. */
  lemma EndSettles(w: World, t: nat, move: Move)
    requires move.Unwind? && t in w.threads && w.threads[t].pc.Unwinding? && w.threads[t].stack != []
    requires w.threads[t].stack[0].EndRow? && WorldOk(w) && move.reply.TookEffect() && !IsZero(move.now)
    ensures Settled(Step(w, Take(t, move)), t, w.threads[t].requestId)
  {
    OwnRowFits(w, t);
    EndSettlesStep(w, t, move);
  }

  /** What the invariant says of one request. */
  lemma OwnRowFits(w: World, t: nat)
    requires ThreadsFit(w) && RowsFit(w) && t in w.threads
    ensures Protocol(w.threads[t]) && RowFits(w.ledger, w.threads[t])
  {
  }

  /** A step that runs a deferred call, in the terms of that call. */
  lemma StepPops(w: World, t: nat, move: Move)
    requires move.Unwind? && t in w.threads && w.threads[t].pc.Unwinding? && w.threads[t].stack != []
    ensures Step(w, Take(t, move)) == AfterMove(w, t, Popping(w, t, w.threads[t], move))
  {
  }

  lemma EndSettlesRow(w: World, t: nat, th: Thread, move: Move)
    requires LedgerOk(w.ledger) && RowFits(w.ledger, th) && th.stored && th.requestId.Some? && th.stack == FullStack(th)
    requires move.Unwind? && move.reply.TookEffect() && !IsZero(move.now)
    ensures var effect := Popping(w, t, th, move);
            && effect.thread.settled && th.requestId.value in effect.ledger.rows
            && !effect.ledger.rows[th.requestId.value].state.Open?
  {
    EndAlwaysCloses(w.ledger, End(th.requestId.value, th.exportId, move.now));
  }

  /* ---------- ServeHTTP, run to its end among the others ---------- */

  /**
   * Everything a request does not decide itself: the outcome of its checks and of opening the file
   * system, its readings of the clock, its generated id, which store calls fail, whether the backend
   * crashes, and what all others do before each of its steps.
   */
  datatype Surroundings = Surroundings(
    checksPass: bool,
    fsOpens: bool,
    ino: Ino,
    requestId: Option<string>,
    admitAt: Time,
    beginAt: Time,
    endAt: Time,
    ttl: int,
    restoring: bool,
    begin: StoreReply,
    end: StoreReply,
    backendCrashes: bool,
    others: nat -> seq<Action>)

  /** Steps of others: not of request t, and not making up its id again. */
  predicate Foreign(a: Action, t: nat, id: Option<string>) {
    match a
    case Arrive(u, _, _) => u != t
    case Take(u, move) => u != t && !(move.MakeId? && move.id == id && id.Some?)
    case Beat(u, _, _, _) => u != t
    case BackendOpens(u, _, _) => u != t
    case _ => true
  }

  lemma ForeignStep(w: World, a: Action, t: nat, id: Option<string>)
    requires Foreign(a, t, id) && t in w.threads
    ensures t in Step(w, a).threads && Step(w, a).threads[t] == w.threads[t]
    ensures id.Some? && UnusedId(w, id.value) ==> UnusedId(Step(w, a), id.value)
  {
    if Legal(w, a) && a.Take? {
      MoveKeepsId(w, a.t, w.threads[a.t], a.move);
    }
  }

  lemma PoppingShortens(w: World, t: nat, move: Move)
    requires move.Unwind? && t in w.threads && w.threads[t].pc.Unwinding? && w.threads[t].stack != []
    ensures var th, after := w.threads[t], Step(w, Take(t, move)).threads[t];
            after.pc == th.pc && after.crashed == th.crashed && |after.stack| < |th.stack|
  {
    StepPops(w, t, move);
  }

  lemma MoveKeepsUnused(w: World, t: nat, move: Move, id: Option<string>)
    requires t in w.threads && CanMove(w, w.threads[t], move) && !move.MakeId?
    ensures id.Some? && UnusedId(w, id.value) ==> UnusedId(Step(w, Take(t, move)), id.value)
  {
    MoveKeepsId(w, t, w.threads[t], move);
  }

  lemma MoveKeepsId(w: World, t: nat, th: Thread, move: Move)
    requires CanMove(w, th, move)
    ensures var after := Moved(w, t, th, move).thread.requestId;
            after == th.requestId || (move.MakeId? && after == move.id)
  {
  }

  lemma RefusedIffNotBegun(w: World, t: nat)
    requires Reachable(w) && t in w.threads && w.threads[t].pc.Finished?
    ensures w.threads[t].crashed.None? || w.threads[t].crashed == Some(Serving) ==>
              (w.threads[t].refusal.None? <==> w.threads[t].begun)
  {
    LogSays(w, OpenedFs(t, 0));
  }

  class Gateway {
    var world: World
    ghost var past: seq<Action>

    ghost predicate Valid()
      reads this
    {
      world == Interleaved(START, past)
    }

    constructor ()
      ensures Valid() && world == START
    {
      world, past := START, [];
    }

    method Perform(a: Action)
      requires Valid()
      modifies this
      ensures Valid() && world == Step(old(world), a)
    {
      assert (past + [a])[..|past|] == past;
      past := past + [a];
      world := Step(world, a);
    }

    /** What others do before the next step of request t, which they cannot touch. */
    method Others(actions: seq<Action>, t: nat, id: Option<string>)
      requires Valid() && t in world.threads
      modifies this
      ensures Valid() && t in world.threads && world.threads[t] == old(world).threads[t]
      ensures id.Some? && UnusedId(old(world), id.value) ==> UnusedId(world, id.value)
    {
      for i := 0 to |actions|
        invariant Valid() && t in world.threads && world.threads[t] == old(world).threads[t]
        invariant id.Some? && UnusedId(old(world), id.value) ==> UnusedId(world, id.value)
      {
        if Foreign(actions[i], t, id) {
          ForeignStep(world, actions[i], t, id);
          Perform(actions[i]);
        }
      }
    }

    method CheckCredential(t: nat, env: Surroundings) returns (ok: bool)
      requires Valid() && t in world.threads && world.threads[t].pc.Arrived?
      requires env.requestId.Some? ==> UnusedId(world, env.requestId.value)
      modifies this
      ensures Valid() && t in world.threads && world.threads[t].crashed == old(world).threads[t].crashed
      ensures if ok then world.threads[t].pc.Admitted? else world.threads[t].pc.Finished?
      ensures env.requestId.Some? ==> UnusedId(world, env.requestId.value)
    {
      Others(env.others(0), t, env.requestId);
      MoveKeepsUnused(world, t, Admit(env.admitAt, env.checksPass), env.requestId);
      Perform(Take(t, Admit(env.admitAt, env.checksPass)));
      ok := world.threads[t].pc.Admitted?;
    }

    method OpenFileSystem(t: nat, env: Surroundings)
      requires Valid() && t in world.threads && world.threads[t].pc.Admitted?
      requires env.requestId.Some? ==> UnusedId(world, env.requestId.value)
      modifies this
      ensures Valid() && t in world.threads && world.threads[t].crashed == old(world).threads[t].crashed
      ensures if env.fsOpens then world.threads[t].pc.Opened? else world.threads[t].pc.Finished?
      ensures env.requestId.Some? ==> UnusedId(world, env.requestId.value)
    {
      Others(env.others(1), t, env.requestId);
      var fd := LowestFree(world.fds.Keys);
      MoveKeepsUnused(world, t, OpenFs(fd, env.ino, env.fsOpens), env.requestId);
      Perform(Take(t, OpenFs(fd, env.ino, env.fsOpens)));
    }

    /** ServeHTTP up to the open file system. */
    method AdmitAndOpen(t: nat, verb: string, exportId: string, env: Surroundings) returns (ok: bool)
      requires Valid() && t !in world.threads && (env.requestId.Some? ==> UnusedId(world, env.requestId.value))
      modifies this
      ensures Valid() && t in world.threads && world.threads[t].crashed.None?
      ensures if ok then world.threads[t].pc.Opened? else world.threads[t].pc.Finished?
      ensures env.requestId.Some? ==> UnusedId(world, env.requestId.value)
    {
      Perform(Arrive(t, verb, exportId));
      ok := CheckCredential(t, env);
      if ok {
        OpenFileSystem(t, env);
        ok := env.fsOpens;
      }
    }

    /** Others' steps, then one of request t that concerns nobody else. */
    method Advance(t: nat, move: Move, actions: seq<Action>)
      requires Valid() && IsAlone(move) && t in world.threads && CanMove(world, world.threads[t], move)
      modifies this
      ensures Valid() && t in world.threads && world.threads[t] == Alone(old(world).threads[t], move)
    {
      Others(actions, t, None);
      Perform(Take(t, move));
    }

    /** beginRuntimeRequest. */
    method CallBegin(t: nat, env: Surroundings) returns (begun: bool)
      requires Valid() && t in world.threads && world.threads[t].pc.Named? && world.threads[t].requestId.Some?
      modifies this
      ensures Valid() && t in world.threads && world.threads[t].crashed == old(world).threads[t].crashed
      ensures world.threads[t].requestId == old(world).threads[t].requestId
      ensures if begun then world.threads[t].pc.Begun? else world.threads[t].pc.TurnedAway?
    {
      Others(env.others(3), t, None);
      Perform(Take(t, SendBegin(env.beginAt, env.ttl, env.restoring, env.begin)));
      begun := world.threads[t].pc.Begun?;
    }

    method CloseAndLeave(t: nat, env: Surroundings)
      requires Valid() && t in world.threads && world.threads[t].pc.TurnedAway?
      modifies this
      ensures Valid() && t in world.threads && world.threads[t].pc.Finished?
      ensures world.threads[t].crashed == old(world).threads[t].crashed
    {
      Others(env.others(4), t, None);
      Perform(Take(t, CloseByHand));
    }

    method GetId(t: nat, env: Surroundings) returns (ok: bool)
      requires Valid() && t in world.threads && world.threads[t].pc.Opened?
      requires env.requestId.Some? ==> UnusedId(world, env.requestId.value)
      modifies this
      ensures Valid() && t in world.threads && world.threads[t].crashed == old(world).threads[t].crashed
      ensures if ok then world.threads[t].pc.Named? && world.threads[t].requestId.Some?
              else world.threads[t].pc.TurnedAway?
    {
      Others(env.others(2), t, env.requestId);
      Perform(Take(t, MakeId(env.requestId)));
      ok := env.requestId.Some? && !Blank(env.requestId.value);
    }

    /** From the open file system to the begin call's answer; refused, it closes the file system by hand. */
    method BeginOrClose(t: nat, env: Surroundings) returns (ok: bool)
      requires Valid() && t in world.threads && world.threads[t].pc.Opened? && world.threads[t].crashed.None?
      requires env.requestId.Some? ==> UnusedId(world, env.requestId.value)
      modifies this
      ensures Valid() && t in world.threads && world.threads[t].crashed.None?
      ensures if ok then world.threads[t].pc.Begun? && world.threads[t].requestId.Some?
              else world.threads[t].pc.Finished?
    {
      ok := GetId(t, env);
      if ok {
        ok := CallBegin(t, env);
      }
      if !ok {
        CloseAndLeave(t, env);
      }
    }

    /** From the begin call to the end of the backend: three calls are deferred on the way. */
    method DeferAndServe(t: nat, env: Surroundings)
      requires Valid() && t in world.threads && world.threads[t].pc.Begun? && world.threads[t].requestId.Some?
      requires world.threads[t].crashed.None?
      modifies this
      ensures Valid() && t in world.threads && world.threads[t].pc.Unwinding?
      ensures world.threads[t].crashed == if env.backendCrashes then Some(Serving) else None
    {
      Advance(t, DeferClose, env.others(5));
      Advance(t, StartHeartbeat, env.others(6));
      Advance(t, DeferEnd, env.others(7));
      Advance(t, if env.backendCrashes then Crash else Return, env.others(8));
    }

    /** The deferred call on top of the stack. */
    method RunTop(t: nat, env: Surroundings)
      requires Valid() && t in world.threads && world.threads[t].pc.Unwinding? && world.threads[t].stack != []
      modifies this
      ensures Valid() && t in world.threads && world.threads[t].pc.Unwinding?
      ensures world.threads[t].crashed == old(world).threads[t].crashed
      ensures |world.threads[t].stack| < |old(world).threads[t].stack|
    {
      Others(env.others(8 + |world.threads[t].stack|), t, None);
      PoppingShortens(world, t, Unwind(env.endAt, env.end));
      Perform(Take(t, Unwind(env.endAt, env.end)));
    }

    /** The deferred calls, last first, and the end of the request. */
    method RunDeferred(t: nat, env: Surroundings)
      requires Valid() && t in world.threads && world.threads[t].pc.Unwinding?
      modifies this
      ensures Valid() && t in world.threads && world.threads[t].pc.Finished?
      ensures world.threads[t].crashed == old(world).threads[t].crashed
    {
      while world.threads[t].stack != []
        invariant Valid() && t in world.threads && world.threads[t].pc.Unwinding?
        invariant world.threads[t].crashed == old(world).threads[t].crashed
        decreases |world.threads[t].stack|
      {
        RunTop(t, env);
      }
      Advance(t, Finish, []);
    }

    /**
     * ServeHTTP, among any others, with a backend that may crash: it runs to its end, and then its
     * begin, if it made one, has exactly its one end, and its handle, if it opened one, has been
     * closed exactly once. It was refused with a status exactly when it did not begin.
     */
    method ServeHTTP(t: nat, verb: string, exportId: string, env: Surroundings) returns (refusal: Option<int>)
      requires Valid() && t !in world.threads && (env.requestId.Some? ==> UnusedId(world, env.requestId.value))
      modifies this
      ensures Valid() && t in world.threads && world.threads[t].pc.Finished?
      ensures refusal == world.threads[t].refusal && (refusal.None? <==> world.threads[t].begun)
      ensures forall r, e :: Begins(world, t, r, e) == Ends(world, t, r, e)
      ensures forall fd :: world.log[OpenedFs(t, fd)] == world.log[ClosedFs(t, fd)]
    {
      var ok := AdmitAndOpen(t, verb, exportId, env);
      if ok {
        ok := BeginOrClose(t, env);
        if ok {
          DeferAndServe(t, env);
          RunDeferred(t, env);
        }
      }
      refusal := world.threads[t].refusal;
      assert Reachable(world);
      RefusedIffNotBegun(world, t);
      forall r, e ensures Begins(world, t, r, e) == Ends(world, t, r, e) {
        EachBeginHasItsEnd(world, t, r, e);
      }
      forall fd ensures world.log[OpenedFs(t, fd)] == world.log[ClosedFs(t, fd)] {
        EachHandleIsClosedOnce(world, t, fd);
      }
    }
  }
}
