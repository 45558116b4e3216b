/**
 * Approving and sending changes, with every interleaving (app/agents/conversation-agent.ts,
 * `approveCloudflareExecution`, `runApprovedCloudflareExecution` and `onFiberRecovered`). Each event is one stretch
 * between two awaits: any number of fibers, rejections, proposals and command ends take turns in any order, the object
 * may be evicted at any point, and the fibers it lost are recovered later, in any order, any number of times.
 */
module CloudflareExecutionFibers {
  import opened Wrappers
  import opened CloudflareExecution

  /** What a fiber was started with: the execution and the digest the person approved. */
  datatype Job = Job(executionId: ExecutionId, digest: Digest)

  /** Where a fiber stands; the times are readings of the clock from before the await it is at. */
  datatype Stage =
    | Starting
    | Approving(asked: Time)
    | ReadingIdentity
    | Beginning(asked: Time)
    | Sending(request: Request)
    | AwaitingAnswer
    | Catching
    | Finished

  datatype Fiber = Fiber(job: Job, binding: Binding, stage: Stage)

  /** A rejection between its `verify` and its transaction. */
  datatype Rejection = Rejection(executionId: ExecutionId, binding: Binding, asked: Time)

  /** One request that left for Cloudflare. */
  datatype Sent = Sent(executionId: ExecutionId, request: Request, fiber: nat)

  /**
   * What is stored, and the clock. History: `wire`, every request sent, and `begunBy`, the fiber whose own transaction
   * moved an execution from approved to executing.
   */
  datatype Store = Store(rows: Rows, clock: Time, wire: seq<Sent>, begunBy: map<ExecutionId, nat>)

  /** `lost` are jobs of fibers an eviction ended. */
  datatype World = World(
    store: Store, fibers: map<nat, Fiber>, nextFiber: nat, rejections: map<nat, Rejection>, lost: set<Job>)

  function NewWorld(clock: Time): World {
    World(Store(map[], clock, [], map[]), map[], 0, map[], {})
  }

  /** What the commands, the chat and the clock do to the rows. */
  datatype RowEvent =
    | Proposed(id: ExecutionId, toolCallId: string, binding: Binding, request: Request, asked: Time)
    | OverdueLeft
    | CommandStopped(toolCallId: string)
    | LeftInChat(toolCallId: string, only: Option<ExecutionId>)
    | Recovered(job: Job)

  /** The stretches of a fiber between its awaits; `now` is a reading of the clock no earlier than the last. */
  datatype FiberEvent =
    | ApprovalVerified(now: Time)
    | ApprovalDecided
    | IdentityRead(same: bool, now: Time)
    | ExecutionBegun
    | RequestSent
    | Answered(status: Status, outcome: Outcome)
    | Threw
    | Caught

  datatype Event =
    | Tick(now: Time)
    | Rows(row: RowEvent)
    | FiberStarted(job: Job, binding: Binding)
    | FiberMoved(f: nat, move: FiberEvent)
    | RejectionVerified(r: nat, id: ExecutionId, binding: Binding, now: Time)
    | RejectionDecided(r: nat)
    | Evicted

  // ---------- Rows ----------

  predicate RowEnabled(w: World, event: RowEvent) {
    match event
    case Proposed(id, _, _, _, asked) => id !in w.store.rows && asked <= w.store.clock
    case Recovered(job) => job in w.lost
    case _ => true
  }

  function NextRows(rows: Rows, clock: Time, event: RowEvent): Rows
    requires event.Recovered? ==> event.job.executionId in rows
  {
    match event
    case Proposed(id, toolCallId, binding, request, asked) =>
      Propose(LeaveOverdueInChat(rows, clock), id, toolCallId, binding, request, asked)
    case OverdueLeft => LeaveOverdueInChat(rows, clock)
    case CommandStopped(toolCallId) => WithdrawHeld(rows, toolCallId, clock)
    case LeftInChat(toolCallId, only) => LeaveInChat(rows, toolCallId, only, clock)
    case Recovered(job) => RecoverIndeterminate(rows, job.executionId, job.digest, clock)
  }

  lemma NextRowsKeeps(rows: Rows, clock: Time, event: RowEvent)
    requires RowsInv(rows)
    requires event.Recovered? ==> event.job.executionId in rows
    requires event.Proposed? ==> event.id !in rows
    ensures RowsInv(NextRows(rows, clock, event)) && Later(rows, NextRows(rows, clock, event))
  {
    match event {
      case Proposed(id, toolCallId, binding, request, asked) =>
        var settled := LeaveOverdueInChat(rows, clock);
        OverdueKeeps(rows, clock);
        ProposeKeeps(settled, id, toolCallId, binding, request, asked);
        LaterTransitive(rows, settled, Propose(settled, id, toolCallId, binding, request, asked));
      case OverdueLeft => OverdueKeeps(rows, clock);
      case CommandStopped(toolCallId) =>
        CommandTransactionsStep(rows, toolCallId, None, clock);
        StepKeeps(rows, WithdrawHeld(rows, toolCallId, clock));
      case LeftInChat(toolCallId, only) =>
        CommandTransactionsStep(rows, toolCallId, only, clock);
        StepKeeps(rows, LeaveInChat(rows, toolCallId, only, clock));
      case Recovered(job) =>
        RecoveryStep(rows, job.executionId, job.digest, clock);
        StepKeeps(rows, RecoverIndeterminate(rows, job.executionId, job.digest, clock));
    }
  }

  lemma OverdueKeeps(rows: Rows, now: Time)
    requires RowsInv(rows)
    ensures RowsInv(LeaveOverdueInChat(rows, now)) && Later(rows, LeaveOverdueInChat(rows, now))
  {
    CommandTransactionsStep(rows, "", None, now);
    StepKeeps(rows, LeaveOverdueInChat(rows, now));
  }

  lemma DecisionKeeps(rows: Rows, id: ExecutionId, asked: Time)
    requires RowsInv(rows) && id in rows
    ensures RowsInv(Approve(rows, id, asked)) && Later(rows, Approve(rows, id, asked))
    ensures RowsInv(Reject(rows, id, asked)) && Later(rows, Reject(rows, id, asked))
    ensures RowsInv(BeginExecution(rows, id, asked)) && Later(rows, BeginExecution(rows, id, asked))
  {
    DecisionTransactionsStep(rows, id, asked);
    StepKeeps(rows, Approve(rows, id, asked));
    StepKeeps(rows, Reject(rows, id, asked));
    StepKeeps(rows, BeginExecution(rows, id, asked));
  }

  lemma CompleteKeeps(rows: Rows, id: ExecutionId, status: Status, outcome: Outcome, now: Time)
    requires RowsInv(rows) && id in rows && status in {Succeeded, Failed, Indeterminate}
    ensures
      var rows' := Complete(rows, id, status, outcome, now);
      RowsInv(rows') && Later(rows, rows')
  {
    EndTransactionsStep(rows, id, status, outcome, now);
    StepKeeps(rows, Complete(rows, id, status, outcome, now));
  }

  lemma SettleKeeps(rows: Rows, job: Job, now: Time)
    requires RowsInv(rows) && job.executionId in rows
    ensures RowsInv(Settle(rows, job, now)) && Later(rows, Settle(rows, job, now))
  {
    var id := job.executionId;
    LaterReflexive(rows);
    EndTransactionsStep(rows, id, Failed, NOT_SENT, now);
    RecoveryStep(rows, id, job.digest, now);
    StepKeeps(rows, Complete(rows, id, Failed, NOT_SENT, now));
    StepKeeps(rows, FailApproved(rows, id, NOT_SENT, now));
    StepKeeps(rows, RecoverIndeterminate(rows, id, job.digest, now));
  }

  // ---------- One fiber ----------

  predicate IsOk(httpStatus: int) {
    200 <= httpStatus < 300
  }

  /** What the client answers once a request left, and the status it is stored with. */
  predicate FromClient(status: Status, outcome: Outcome) {
    && (outcome.status.SentSuccess? || outcome.content.None?)
    && (match outcome.status
        case SentSuccess => outcome.httpStatus.Some? && IsOk(outcome.httpStatus.value)
        case SentFailure => outcome.httpStatus.Some? && !IsOk(outcome.httpStatus.value)
        case InsufficientScope => outcome.httpStatus == Some(403)
        case SentIndeterminate => outcome.httpStatus.Some? ==> IsOk(outcome.httpStatus.value)
        case Denied => false)
    && status == (if outcome.status.SentSuccess? then Succeeded
                  else if outcome.status.SentIndeterminate? then Indeterminate else Failed)
  }

  predicate FiberEnabled(stage: Stage, clock: Time, event: FiberEvent) {
    match event
    case ApprovalVerified(now) => stage.Starting? && clock <= now
    case ApprovalDecided => stage.Approving?
    case IdentityRead(_, now) => stage.ReadingIdentity? && clock <= now
    case ExecutionBegun => stage.Beginning?
    case RequestSent => stage.Sending?
    case Answered(status, outcome) => stage.AwaitingAnswer? && FromClient(status, outcome)
    // Sending throws only before the request leaves; after that the client answers.
    case Threw => !stage.Finished? && !stage.Catching? && !stage.AwaitingAnswer?
    case Caught => stage.Catching?
  }

  /** The catch of `runApprovedCloudflareExecution`, by what the record says now. */
  function Settle(rows: Rows, job: Job, now: Time): Rows
    requires job.executionId in rows
  {
    var status := rows[job.executionId].status;
    if IsTerminal(status) then rows
    else if status == Approved then FailApproved(rows, job.executionId, NOT_SENT, now)
    else if status == Executing then Complete(rows, job.executionId, Failed, NOT_SENT, now)
    else RecoverIndeterminate(rows, job.executionId, job.digest, now)
  }

  /** The second stretch of `verify`: the stored digest is still the proposal's. */
  predicate DigestHolds(record: Record) {
    record.digest == Digest(record.toolCallId, record.binding, record.request)
  }

  /** `leaveOverdueInChat`, at a later reading of the clock. */
  function LeftOverdue(store: Store, now: Time): Store {
    store.(rows := LeaveOverdueInChat(store.rows, now), clock := now)
  }

  /** The first stretch of `verify`: the caller read the clock, then `leaveOverdueInChat` reads it again. */
  function Verified(store: Store, fiber: Fiber, now: Time, stage: Stage): (Store, Stage)
    requires fiber.job.executionId in store.rows
  {
    var store' := LeftOverdue(store, now);
    (store', if store'.rows[fiber.job.executionId].binding == fiber.binding then stage else Catching)
  }

  function FiberNext(store: Store, f: nat, fiber: Fiber, event: FiberEvent): (Store, Stage)
    requires fiber.job.executionId in store.rows && FiberEnabled(fiber.stage, store.clock, event)
  {
    var id := fiber.job.executionId;
    var record := store.rows[id];
    match event
    case ApprovalVerified(now) => Verified(store, fiber, now, Approving(store.clock))
    case ApprovalDecided =>
      if !DigestHolds(record) then (store, Catching) else
      var rows := Approve(store.rows, id, fiber.stage.asked);
      (store.(rows := rows),
       if rows[id].status in {Rejected, Expired} || rows[id].digest != fiber.job.digest
       then Catching else ReadingIdentity)
    case IdentityRead(same, now) =>
      if !same then (store, Catching) else Verified(store, fiber, now, Beginning(store.clock))
    case ExecutionBegun =>
      if !DigestHolds(record) then (store, Catching)
      else if record.status != Approved then (store, Finished)
      else
        (store.(rows := BeginExecution(store.rows, id, fiber.stage.asked), begunBy := store.begunBy[id := f]),
         Sending(record.request))
    case RequestSent => (store.(wire := store.wire + [Sent(id, fiber.stage.request, f)]), AwaitingAnswer)
    case Answered(status, outcome) =>
      (store.(rows := Complete(store.rows, id, status, outcome, store.clock)), Finished)
    case Threw => (store, Catching)
    case Caught => (store.(rows := Settle(store.rows, fiber.job, store.clock)), Finished)
  }

  // ---------- What holds of the store and of a fiber ----------

  /** The states a request may have been sent in. */
  predicate MaySent(status: Status) {
    status in {Executing, Succeeded, Failed, Indeterminate}
  }

  predicate SentOf(wire: seq<Sent>, id: ExecutionId) {
    exists i | 0 <= i < |wire| :: wire[i].executionId == id
  }

  predicate StoreInv(store: Store) {
    && RowsInv(store.rows)
    && (forall id <- store.begunBy ::
          id in store.rows && MaySent(store.rows[id].status) && store.rows[id].startedAt.Some?)
    && (forall i | 0 <= i < |store.wire| ::
          && store.wire[i].executionId in store.begunBy
          && store.begunBy[store.wire[i].executionId] == store.wire[i].fiber
          && store.wire[i].request == store.rows[store.wire[i].executionId].request)
    && (forall i, j | 0 <= i < j < |store.wire| :: store.wire[i].executionId != store.wire[j].executionId)
  }

  predicate FiberInv(store: Store, f: nat, fiber: Fiber) {
    var id := fiber.job.executionId;
    && id in store.rows
    && (fiber.stage.Approving? || fiber.stage.ReadingIdentity? || fiber.stage.Beginning? || fiber.stage.Sending? ==>
          store.rows[id].binding == fiber.binding)
    && match fiber.stage
       case Approving(asked) => store.rows[id].status == AwaitingApproval ==> Decidable(store.rows[id], asked)
       case ReadingIdentity => store.rows[id].digest == fiber.job.digest && store.rows[id].status != AwaitingApproval
       case Beginning(_) => store.rows[id].digest == fiber.job.digest && store.rows[id].status != AwaitingApproval
       case Sending(request) =>
         && store.rows[id].digest == fiber.job.digest && request == store.rows[id].request
         && id in store.begunBy && store.begunBy[id] == f && !SentOf(store.wire, id)
       case _ => true
  }

  predicate RejectionInv(store: Store, rejection: Rejection) {
    && rejection.executionId in store.rows
    && store.rows[rejection.executionId].binding == rejection.binding
    && (store.rows[rejection.executionId].status == AwaitingApproval ==>
          Decidable(store.rows[rejection.executionId], rejection.asked))
  }

  /** How the store may change while fiber `mover` moves: only what it began is newly sent. */
  predicate StoreLater(store: Store, store': Store, mover: Option<nat>) {
    && Later(store.rows, store'.rows)
    && (forall id <- store.begunBy :: id in store'.begunBy && store'.begunBy[id] == store.begunBy[id])
    && (forall id <- store.rows :: SentOf(store'.wire, id) && !SentOf(store.wire, id) ==>
          id in store.begunBy && mover == Some(store.begunBy[id]))
  }

  /** What a fiber or a rejection knows of its record stays true while others move. */
  lemma FiberStays(store: Store, store': Store, mover: Option<nat>, f: nat, fiber: Fiber)
    requires StoreLater(store, store', mover) && mover != Some(f) && FiberInv(store, f, fiber)
    ensures FiberInv(store', f, fiber)
  {
    var id := fiber.job.executionId;
    assert RecordLater(store.rows[id], store'.rows[id]);
  }

  lemma RejectionStays(store: Store, store': Store, mover: Option<nat>, rejection: Rejection)
    requires StoreLater(store, store', mover) && RejectionInv(store, rejection)
    ensures RejectionInv(store', rejection)
  {
    assert RecordLater(store.rows[rejection.executionId], store'.rows[rejection.executionId]);
  }

  /** Rows that only follow the machine keep everything recorded of what was sent. */
  lemma RowsOnlyKeeps(store: Store, rows: Rows, clock: Time, mover: Option<nat>)
    requires StoreInv(store) && RowsInv(rows) && Later(store.rows, rows)
    ensures
      var store' := store.(rows := rows, clock := clock);
      StoreInv(store') && StoreLater(store, store', mover)
  {
    forall id | id in store.rows
      ensures id in rows && rows[id].request == store.rows[id].request
      ensures MaySent(store.rows[id].status) ==> MaySent(rows[id].status)
      ensures store.rows[id].startedAt.Some? ==> rows[id].startedAt.Some?
    {
      assert RecordLater(store.rows[id], rows[id]);
    }
  }

  lemma StoreStays(store: Store, mover: Option<nat>)
    requires StoreInv(store)
    ensures StoreLater(store, store, mover)
  {
    LaterReflexive(store.rows);
  }

  lemma LeftOverdueKeeps(store: Store, now: Time, mover: Option<nat>)
    requires StoreInv(store)
    ensures StoreInv(LeftOverdue(store, now)) && StoreLater(store, LeftOverdue(store, now), mover)
  {
    OverdueKeeps(store.rows, now);
    RowsOnlyKeeps(store, LeaveOverdueInChat(store.rows, now), now, mover);
  }

  /** A record read by `verify` can still be decided by the clock its caller read before. */
  lemma LeftOverdueDecidable(store: Store, now: Time, id: ExecutionId)
    requires id in store.rows && store.clock <= now
    ensures
      var rows := LeftOverdue(store, now).rows;
      id in rows && (rows[id].status == AwaitingApproval ==> Decidable(rows[id], store.clock))
    ensures
      var rows := LeftOverdue(store, now).rows;
      && rows[id].status == store.rows[id].status && rows[id].digest == store.rows[id].digest
      && rows[id].binding == store.rows[id].binding
  {
    OverdueLeftIsDecidable(store.rows, store.clock, now, id);
  }

  /** After either `verify` of a fiber: what it then knows of its record. */
  lemma VerifiedFiberKeeps(store: Store, f: nat, fiber: Fiber, now: Time)
    requires FiberInv(store, f, fiber) && store.clock <= now
    ensures
      var (store', stage) := Verified(store, fiber, now, Approving(store.clock));
      FiberInv(store', f, fiber.(stage := stage))
    ensures fiber.stage.ReadingIdentity? ==>
      var (store', stage) := Verified(store, fiber, now, Beginning(store.clock));
      FiberInv(store', f, fiber.(stage := stage))
  {
    LeftOverdueDecidable(store, now, fiber.job.executionId);
  }

  lemma DecidedKeeps(store: Store, f: nat, fiber: Fiber)
    requires StoreInv(store) && FiberInv(store, f, fiber) && FiberEnabled(fiber.stage, store.clock, ApprovalDecided)
    ensures
      var (store', stage) := FiberNext(store, f, fiber, ApprovalDecided);
      StoreInv(store') && StoreLater(store, store', Some(f)) && FiberInv(store', f, fiber.(stage := stage))
  {
    DecisionKeeps(store.rows, fiber.job.executionId, fiber.stage.asked);
    RowsOnlyKeeps(store, Approve(store.rows, fiber.job.executionId, fiber.stage.asked), store.clock, Some(f));
  }

  lemma BegunKeeps(store: Store, f: nat, fiber: Fiber)
    requires StoreInv(store) && FiberInv(store, f, fiber) && fiber.stage.Beginning?
    requires store.rows[fiber.job.executionId].status == Approved
    ensures
      var id := fiber.job.executionId;
      var rows := BeginExecution(store.rows, id, fiber.stage.asked);
      var store' := store.(rows := rows, begunBy := store.begunBy[id := f]);
      && StoreInv(store') && StoreLater(store, store', Some(f))
      && FiberInv(store', f, fiber.(stage := Sending(store.rows[id].request)))
  {
    var id := fiber.job.executionId;
    assert id !in store.begunBy;
    assert !SentOf(store.wire, id);
    var rows := BeginExecution(store.rows, id, fiber.stage.asked);
    DecisionKeeps(store.rows, id, fiber.stage.asked);
    RowsOnlyKeeps(store, rows, store.clock, Some(f));
  }

  lemma SentKeeps(store: Store, f: nat, fiber: Fiber)
    requires StoreInv(store) && FiberInv(store, f, fiber) && FiberEnabled(fiber.stage, store.clock, RequestSent)
    ensures
      var (store', stage) := FiberNext(store, f, fiber, RequestSent);
      StoreInv(store') && StoreLater(store, store', Some(f)) && FiberInv(store', f, fiber.(stage := stage))
  {
    LaterReflexive(store.rows);
  }

  lemma SettledKeeps(store: Store, f: nat, fiber: Fiber, event: FiberEvent)
    requires StoreInv(store) && FiberInv(store, f, fiber) && FiberEnabled(fiber.stage, store.clock, event)
    requires event.Answered? || event.Threw? || event.Caught?
    ensures
      var (store', stage) := FiberNext(store, f, fiber, event);
      StoreInv(store') && StoreLater(store, store', Some(f)) && FiberInv(store', f, fiber.(stage := stage))
  {
    var id := fiber.job.executionId;
    LaterReflexive(store.rows);
    match event {
      case Answered(status, outcome) =>
        CompleteKeeps(store.rows, id, status, outcome, store.clock);
        RowsOnlyKeeps(store, Complete(store.rows, id, status, outcome, store.clock), store.clock, Some(f));
      case Caught =>
        SettleKeeps(store.rows, fiber.job, store.clock);
        RowsOnlyKeeps(store, Settle(store.rows, fiber.job, store.clock), store.clock, Some(f));
      case Threw =>
    }
  }

  lemma FiberNextKeeps(store: Store, f: nat, fiber: Fiber, event: FiberEvent)
    requires StoreInv(store) && FiberInv(store, f, fiber) && FiberEnabled(fiber.stage, store.clock, event)
    ensures
      var (store', stage) := FiberNext(store, f, fiber, event);
      StoreInv(store') && StoreLater(store, store', Some(f)) && FiberInv(store', f, fiber.(stage := stage))
  {
    StoreStays(store, Some(f));
    match event {
      case ApprovalVerified(now) =>
        LeftOverdueKeeps(store, now, Some(f));
        VerifiedFiberKeeps(store, f, fiber, now);
      case IdentityRead(_, now) =>
        LeftOverdueKeeps(store, now, Some(f));
        VerifiedFiberKeeps(store, f, fiber, now);
      case ApprovalDecided => DecidedKeeps(store, f, fiber);
      case ExecutionBegun =>
        if store.rows[fiber.job.executionId].status == Approved {
          BegunKeeps(store, f, fiber);
        }
      case RequestSent => SentKeeps(store, f, fiber);
      case _ => SettledKeeps(store, f, fiber, event);
    }
  }

  // ---------- The whole system ----------

  predicate Named(w: World) {
    && (forall f <- w.fibers :: w.fibers[f].job.executionId in w.store.rows)
    && (forall r <- w.rejections :: w.rejections[r].executionId in w.store.rows)
    && (forall job <- w.lost :: job.executionId in w.store.rows)
  }

  predicate Enabled(w: World, event: Event) {
    match event
    case Tick(now) => w.store.clock <= now
    case Rows(row) => RowEnabled(w, row)
    case FiberStarted(job, _) => job.executionId in w.store.rows
    case FiberMoved(f, move) => f in w.fibers && FiberEnabled(w.fibers[f].stage, w.store.clock, move)
    case RejectionVerified(r, id, _, now) => r !in w.rejections && id in w.store.rows && w.store.clock <= now
    case RejectionDecided(r) => r in w.rejections
    case Evicted => true
  }

  function Next(w: World, event: Event): World
    requires Named(w) && Enabled(w, event)
  {
    match event
    case Tick(now) => w.(store := w.store.(clock := now))
    case Rows(row) => w.(store := w.store.(rows := NextRows(w.store.rows, w.store.clock, row)))
    case FiberStarted(job, binding) =>
      w.(fibers := w.fibers[w.nextFiber := Fiber(job, binding, Starting)], nextFiber := w.nextFiber + 1)
    case FiberMoved(f, move) =>
      var (store, stage) := FiberNext(w.store, f, w.fibers[f], move);
      w.(store := store, fibers := w.fibers[f := w.fibers[f].(stage := stage)])
    case RejectionVerified(r, id, binding, now) =>
      var store := LeftOverdue(w.store, now);
      w.(store := store,
         rejections := if store.rows[id].binding == binding
                       then w.rejections[r := Rejection(id, binding, w.store.clock)] else w.rejections)
    case RejectionDecided(r) =>
      var rejection := w.rejections[r];
      w.(store := w.store.(rows := Reject(w.store.rows, rejection.executionId, rejection.asked)),
         rejections := w.rejections - {r})
    case Evicted =>
      w.(fibers := map[], rejections := map[],
         lost := w.lost + set f | f in w.fibers && !w.fibers[f].stage.Finished? :: w.fibers[f].job)
  }

  predicate Inv(w: World) {
    && StoreInv(w.store)
    && (forall f <- w.fibers :: FiberInv(w.store, f, w.fibers[f]))
    && (forall r <- w.rejections :: RejectionInv(w.store, w.rejections[r]))
    && (forall job <- w.lost :: job.executionId in w.store.rows)
  }

  /** Others' invariants survive any change of the store that follows the rules. */
  lemma OthersStay(w: World, store: Store, mover: Option<nat>)
    requires Inv(w) && StoreLater(w.store, store, mover)
    ensures forall f <- w.fibers | mover != Some(f) :: FiberInv(store, f, w.fibers[f])
    ensures forall r <- w.rejections :: RejectionInv(store, w.rejections[r])
    ensures forall job <- w.lost :: job.executionId in store.rows
  {
    forall f <- w.fibers | mover != Some(f) ensures FiberInv(store, f, w.fibers[f]) {
      FiberStays(w.store, store, mover, f, w.fibers[f]);
    }
    forall r <- w.rejections ensures RejectionInv(store, w.rejections[r]) {
      RejectionStays(w.store, store, mover, w.rejections[r]);
    }
  }

  /** The rows, and only they, moved by the rules: everyone's invariant holds. */
  lemma RowsMoveKeeps(w: World, rows: Rows, clock: Time)
    requires Inv(w) && RowsInv(rows) && Later(w.store.rows, rows)
    ensures Inv(w.(store := w.store.(rows := rows, clock := clock)))
  {
    RowsOnlyKeeps(w.store, rows, clock, None);
    OthersStay(w, w.store.(rows := rows, clock := clock), None);
  }

  lemma RejectionVerifiedKeeps(w: World, event: Event)
    requires Inv(w) && Enabled(w, event) && event.RejectionVerified?
    ensures Inv(Next(w, event)) && Later(w.store.rows, Next(w, event).store.rows)
  {
    var w' := w.(store := LeftOverdue(w.store, event.now));
    LeftOverdueKeeps(w.store, event.now, None);
    OthersStay(w, w'.store, None);
    if w'.store.rows[event.id].binding == event.binding {
      NewRejectionInv(w.store, event.now, event.id, event.binding);
      AddedRejectionKeeps(w', event.r, Rejection(event.id, event.binding, w.store.clock));
    }
  }

  lemma AddedRejectionKeeps(w: World, r: nat, rejection: Rejection)
    requires Inv(w) && RejectionInv(w.store, rejection)
    ensures Inv(w.(rejections := w.rejections[r := rejection]))
  {
  }

  lemma NewRejectionInv(store: Store, now: Time, id: ExecutionId, binding: Binding)
    requires id in store.rows && store.clock <= now && store.rows[id].binding == binding
    ensures RejectionInv(LeftOverdue(store, now), Rejection(id, binding, store.clock))
  {
    LeftOverdueDecidable(store, now, id);
  }

  /** One fiber moves, and the others know what they knew. */
  lemma MovedKeeps(w: World, f: nat, store: Store, stage: Stage)
    requires Inv(w) && f in w.fibers && StoreInv(store) && StoreLater(w.store, store, Some(f))
    requires FiberInv(store, f, w.fibers[f].(stage := stage))
    ensures Inv(w.(store := store, fibers := w.fibers[f := w.fibers[f].(stage := stage)]))
  {
    OthersStay(w, store, Some(f));
  }

  lemma FiberMovedKeeps(w: World, event: Event)
    requires Inv(w) && Enabled(w, event) && event.FiberMoved?
    ensures Inv(Next(w, event)) && Later(w.store.rows, Next(w, event).store.rows)
  {
    var (store, stage) := FiberNext(w.store, event.f, w.fibers[event.f], event.move);
    FiberNextKeeps(w.store, event.f, w.fibers[event.f], event.move);
    MovedKeeps(w, event.f, store, stage);
  }

  lemma RejectionDecidedKeeps(w: World, event: Event)
    requires Inv(w) && Enabled(w, event) && event.RejectionDecided?
    ensures Inv(Next(w, event)) && Later(w.store.rows, Next(w, event).store.rows)
  {
    var rejection := w.rejections[event.r];
    var rows := Reject(w.store.rows, rejection.executionId, rejection.asked);
    assert RowsInv(rows) && Later(w.store.rows, rows) by {
      DecisionKeeps(w.store.rows, rejection.executionId, rejection.asked);
    }
    RowsMoveKeeps(w, rows, w.store.clock);
  }

  lemma RowsEventKeeps(w: World, event: Event)
    requires Inv(w) && Enabled(w, event) && event.Rows?
    ensures Inv(Next(w, event)) && Later(w.store.rows, Next(w, event).store.rows)
  {
    var rows := NextRows(w.store.rows, w.store.clock, event.row);
    assert RowsInv(rows) && Later(w.store.rows, rows) by {
      NextRowsKeeps(w.store.rows, w.store.clock, event.row);
    }
    RowsMoveKeeps(w, rows, w.store.clock);
  }

  lemma LifecycleKeeps(w: World, event: Event)
    requires Inv(w) && Enabled(w, event) && (event.FiberStarted? || event.Evicted?)
    ensures Inv(Next(w, event)) && Next(w, event).store == w.store
  {
  }

  /** Every event keeps the invariant, and changes the rows only as the machine allows. */
  lemma NextKeeps(w: World, event: Event)
    requires Inv(w) && Enabled(w, event)
    ensures Inv(Next(w, event)) && Later(w.store.rows, Next(w, event).store.rows)
  {
    match event {
      case Rows(_) => RowsEventKeeps(w, event);
      case FiberMoved(_, _) => FiberMovedKeeps(w, event);
      case RejectionVerified(_, _, _, _) => RejectionVerifiedKeeps(w, event);
      case RejectionDecided(_) => RejectionDecidedKeeps(w, event);
      case Tick(now) =>
        LaterReflexive(w.store.rows);
        RowsMoveKeeps(w, w.store.rows, now);
      case _ =>
        LaterReflexive(w.store.rows);
        LifecycleKeeps(w, event);
    }
  }

  // ---------- Runs ----------

  ghost predicate IsRun(w: World, events: seq<Event>)
    decreases |events|
  {
    events == [] || (Named(w) && Enabled(w, events[0]) && IsRun(Next(w, events[0]), events[1..]))
  }

  ghost function Run(w: World, events: seq<Event>): World
    requires IsRun(w, events)
    decreases |events|
  {
    if events == [] then w else Run(Next(w, events[0]), events[1..])
  }

  lemma {:induction false} RunKeeps(w: World, events: seq<Event>)
    requires Inv(w) && IsRun(w, events)
    ensures Inv(Run(w, events)) && Later(w.store.rows, Run(w, events).store.rows)
    decreases |events|
  {
    LaterReflexive(w.store.rows);
    if events != [] {
      NextKeeps(w, events[0]);
      RunKeeps(Next(w, events[0]), events[1..]);
      LaterTransitive(w.store.rows, Next(w, events[0]).store.rows, Run(w, events).store.rows);
    }
  }

  /**
   * Over every run each request is sent at most once, exactly as proposed, by the fiber whose own transaction began
   * it; and a change that is awaiting, approved, rejected or expired was never sent.
   */
  lemma SentAtMostOnce(clock: Time, events: seq<Event>)
    requires IsRun(NewWorld(clock), events)
    ensures
      var store := Run(NewWorld(clock), events).store;
      && (forall i, j | 0 <= i < j < |store.wire| :: store.wire[i].executionId != store.wire[j].executionId)
      && (forall i | 0 <= i < |store.wire| ::
            var id := store.wire[i].executionId;
            && id in store.rows && store.wire[i].request == store.rows[id].request
            && store.rows[id].startedAt.Some?
            && id in store.begunBy && store.wire[i].fiber == store.begunBy[id])
      && (forall id <- store.rows :: store.rows[id].status in {AwaitingApproval, Approved, Rejected, Expired} ==>
            !SentOf(store.wire, id))
  {
    RunKeeps(NewWorld(clock), events);
  }

  /** What a fiber sends is the request whose digest the person approved, for that command and account. */
  lemma SentAsApproved(clock: Time, events: seq<Event>, f: nat)
    requires IsRun(NewWorld(clock), events)
    requires Enabled(Run(NewWorld(clock), events), FiberMoved(f, RequestSent))
    ensures
      var w := Run(NewWorld(clock), events);
      var job := w.fibers[f].job;
      && job.executionId in w.store.rows
      && FiberNext(w.store, f, w.fibers[f], RequestSent).0.wire
           == w.store.wire + [Sent(job.executionId, job.digest.request, f)]
      && !SentOf(w.store.wire, job.executionId)
      && w.store.rows[job.executionId].digest == job.digest
      && job.digest.binding == w.fibers[f].binding
  {
    RunKeeps(NewWorld(clock), events);
    var w := Run(NewWorld(clock), events);
    assert FiberInv(w.store, f, w.fibers[f]) && RecordInv(w.store.rows[w.fibers[f].job.executionId]);
  }

  predicate PastIdentity(w: World, f: nat) {
    f in w.fibers && (w.fibers[f].stage.Beginning? || w.fibers[f].stage.Sending?)
  }

  ghost predicate IdentityWasSame(events: seq<Event>, f: nat) {
    exists n, now :: 0 <= n < |events| && events[n] == FiberMoved(f, IdentityRead(true, now))
  }

  lemma {:induction false} IdentityIsReadFirst(w: World, events: seq<Event>, f: nat)
    requires IsRun(w, events) && PastIdentity(Run(w, events), f)
    ensures PastIdentity(w, f) || IdentityWasSame(events, f)
    decreases |events|
  {
    if events != [] {
      IdentityIsReadFirst(Next(w, events[0]), events[1..], f);
      if IdentityWasSame(events[1..], f) {
        var n, now :| 0 <= n < |events[1..]| && events[1..][n] == FiberMoved(f, IdentityRead(true, now));
        assert events[n + 1] == FiberMoved(f, IdentityRead(true, now));
      } else if !PastIdentity(w, f) {
        assert events[0].FiberMoved? && events[0].f == f;
        assert events[0] == FiberMoved(f, IdentityRead(true, events[0].move.now));
      }
    }
  }

  /** Nothing is sent for a person whose connection changed: the fiber read the identity, and it was the same. */
  lemma SentOnlyAsTheSamePerson(clock: Time, events: seq<Event>, f: nat)
    requires IsRun(NewWorld(clock), events)
    requires Enabled(Run(NewWorld(clock), events), FiberMoved(f, RequestSent))
    ensures IdentityWasSame(events, f)
  {
    assert PastIdentity(Run(NewWorld(clock), events), f);
    IdentityIsReadFirst(NewWorld(clock), events, f);
  }

  lemma ProposedKeepsOnePerCommand(rows: Rows, clock: Time, event: RowEvent)
    requires RowsInv(rows) && OnePerCommand(rows) && event.Proposed? && event.id !in rows
    ensures OnePerCommand(NextRows(rows, clock, event))
  {
    var settled := LeaveOverdueInChat(rows, clock);
    OverdueKeeps(rows, clock);
    OnePerCommandStays(rows, settled);
    ProposeKeepsOnePerCommand(settled, event.id, event.toolCallId, event.binding, event.request, event.asked);
  }

  lemma NextKeepsOnePerCommand(w: World, event: Event)
    requires Inv(w) && OnePerCommand(w.store.rows) && Enabled(w, event)
    ensures OnePerCommand(Next(w, event).store.rows)
  {
    if event.Rows? && event.row.Proposed? {
      ProposedKeepsOnePerCommand(w.store.rows, w.store.clock, event.row);
    } else {
      NextKeeps(w, event);
      SameKeys(w, event);
      OnePerCommandStays(w.store.rows, Next(w, event).store.rows);
    }
  }

  /** Only a proposal adds a record. */
  lemma SameKeys(w: World, event: Event)
    requires Named(w) && Enabled(w, event) && !(event.Rows? && event.row.Proposed?)
    ensures Next(w, event).store.rows.Keys == w.store.rows.Keys
  {
  }

  lemma {:induction false} RunKeepsOnePerCommand(w: World, events: seq<Event>)
    requires Inv(w) && OnePerCommand(w.store.rows) && IsRun(w, events)
    ensures OnePerCommand(Run(w, events).store.rows)
    decreases |events|
  {
    if events != [] {
      NextKeeps(w, events[0]);
      NextKeepsOnePerCommand(w, events[0]);
      RunKeepsOnePerCommand(Next(w, events[0]), events[1..]);
    }
  }

  /** In every reachable state each command has at most one change that is not over and not left in the chat. */
  lemma OneChangeInCommand(clock: Time, events: seq<Event>)
    requires IsRun(NewWorld(clock), events)
    ensures OnePerCommand(Run(NewWorld(clock), events).store.rows)
  {
    RunKeepsOnePerCommand(NewWorld(clock), events);
  }

  /** From any reachable state on: a terminal record never changes, nor a proposal, nor when it was left in the chat. */
  lemma TerminalIsAbsorbing(clock: Time, events: seq<Event>, more: seq<Event>, id: ExecutionId)
    requires IsRun(NewWorld(clock), events) && IsRun(Run(NewWorld(clock), events), more)
    requires id in Run(NewWorld(clock), events).store.rows
    ensures
      var r := Run(NewWorld(clock), events).store.rows[id];
      var rows' := Run(Run(NewWorld(clock), events), more).store.rows;
      && id in rows'
      && SameProposal(r, rows'[id])
      && RecordInv(rows'[id])
      && (IsTerminal(r.status) ==> rows'[id] == r)
      && (r.leftWaitingAt.Some? ==> rows'[id].leftWaitingAt == r.leftWaitingAt && rows'[id].status != Expired)
  {
    RunKeeps(NewWorld(clock), events);
    RunKeeps(Run(NewWorld(clock), events), more);
  }

  /** Time alone takes no decision away: an approval or a rejection that reaches its transaction always decides. */
  lemma DecisionsDecide(clock: Time, events: seq<Event>, event: Event)
    requires IsRun(NewWorld(clock), events) && Named(Run(NewWorld(clock), events))
    requires Enabled(Run(NewWorld(clock), events), event)
    requires event.RejectionDecided? || (event.FiberMoved? && event.move.ApprovalDecided?)
    ensures
      var w := Run(NewWorld(clock), events);
      var id := if event.FiberMoved? then w.fibers[event.f].job.executionId else w.rejections[event.r].executionId;
      var before, after := w.store.rows[id], Next(w, event).store.rows[id];
      && before.binding == (if event.FiberMoved? then w.fibers[event.f].binding else w.rejections[event.r].binding)
      && after.status != AwaitingApproval
      && (before.status == AwaitingApproval ==> after.status == if event.FiberMoved? then Approved else Rejected)
  {
    RunKeeps(NewWorld(clock), events);
    var w := Run(NewWorld(clock), events);
    if event.FiberMoved? {
      assert FiberInv(w.store, event.f, w.fibers[event.f]);
      assert RecordInv(w.store.rows[w.fibers[event.f].job.executionId]);
    } else {
      assert RejectionInv(w.store, w.rejections[event.r]);
    }
  }
}
