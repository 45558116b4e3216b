/**
 * What is and what is not true of the changes of a command and of what a person is told, over every run of
 * `CloudflareExecutionFibers`, each with the step that breaks it.
 */
module CloudflareExecutionClaims {
  import opened Wrappers
  import opened CloudflareExecution
  import opened CloudflareExecutionFibers

  // ---------- When two changes of a command are unsettled ----------

  predicate OneUnsettled(rows: Rows) {
    forall i, j | i in rows && j in rows && Unsettled(rows[i]) && Unsettled(rows[j]) ::
      rows[i].toolCallId == rows[j].toolCallId ==> i == j
  }

  /** The approval of a change left in the chat, while another of its command is unsettled. */
  predicate ApprovesBesideAnother(w: World, event: Event)
    requires Named(w) && Enabled(w, event)
  {
    && event.FiberMoved? && event.move.ApprovalDecided?
    && var record := w.store.rows[w.fibers[event.f].job.executionId];
    && record.status == AwaitingApproval && record.leftWaitingAt.Some?
    && UnsettledFor(w.store.rows, record.toolCallId)
  }

  predicate NoneMore(rows: Rows, rows': Rows) {
    rows'.Keys == rows.Keys && forall id <- rows :: Unsettled(rows'[id]) ==> Unsettled(rows[id])
  }

  lemma NoneNewlyUnsettled(rows: Rows, rows': Rows)
    requires OneUnsettled(rows) && Later(rows, rows') && NoneMore(rows, rows')
    ensures OneUnsettled(rows')
  {
    forall id | id in rows' && Unsettled(rows'[id]) ensures rows'[id].toolCallId == rows[id].toolCallId {
      assert RecordLater(rows[id], rows'[id]);
    }
  }

  lemma ProposedStaysOne(w: World, row: RowEvent)
    requires Inv(w) && OneUnsettled(w.store.rows) && row.Proposed? && RowEnabled(w, row)
    ensures OneUnsettled(NextRows(w.store.rows, w.store.clock, row))
  {
    var settled := LeaveOverdueInChat(w.store.rows, w.store.clock);
    OverdueKeeps(w.store.rows, w.store.clock);
    NoneNewlyUnsettled(w.store.rows, settled);
  }

  lemma ApprovedStaysOne(w: World, event: Event)
    requires Inv(w) && Enabled(w, event) && OneUnsettled(w.store.rows)
    requires event.FiberMoved? && event.move.ApprovalDecided?
    ensures OneUnsettled(Next(w, event).store.rows) <==> !ApprovesBesideAnother(w, event)
  {
    var rows, fiber := w.store.rows, w.fibers[event.f];
    var id := fiber.job.executionId;
    assert FiberInv(w.store, event.f, fiber) && RecordInv(rows[id]);
    var rows' := Approve(rows, id, fiber.stage.asked);
    assert Next(w, event).store.rows == rows';
    if ApprovesBesideAnother(w, event) {
      var other :| other in rows && rows[other].toolCallId == rows[id].toolCallId && Unsettled(rows[other]);
      assert other != id && Unsettled(rows'[other]) && Unsettled(rows'[id]);
    }
  }

  lemma RowsUnsettleNone(w: World, row: RowEvent)
    requires Named(w) && RowEnabled(w, row) && !row.Proposed?
    ensures NoneMore(w.store.rows, NextRows(w.store.rows, w.store.clock, row))
  {
  }

  lemma FiberUnsettlesNone(store: Store, f: nat, fiber: Fiber, move: FiberEvent)
    requires fiber.job.executionId in store.rows && FiberEnabled(fiber.stage, store.clock, move)
    requires !move.ApprovalDecided?
    ensures NoneMore(store.rows, FiberNext(store, f, fiber, move).0.rows)
  {
  }

  lemma OtherMovesUnsettleNone(w: World, event: Event)
    requires Named(w) && Enabled(w, event) && !(event.Rows? && event.row.Proposed?)
    requires !(event.FiberMoved? && event.move.ApprovalDecided?)
    ensures NoneMore(w.store.rows, Next(w, event).store.rows)
  {
    match event {
      case Rows(row) => RowsUnsettleNone(w, row);
      case FiberMoved(f, move) => FiberUnsettlesNone(w.store, f, w.fibers[f], move);
      case _ =>
    }
  }

  /** From a state with one unsettled change a command at most, exactly that approval leads to one with two. */
  lemma OneUnsettledExactly(w: World, event: Event)
    requires Inv(w) && Enabled(w, event) && OneUnsettled(w.store.rows)
    ensures OneUnsettled(Next(w, event).store.rows) <==> !ApprovesBesideAnother(w, event)
  {
    if event.Rows? && event.row.Proposed? {
      ProposedStaysOne(w, event.row);
    } else if event.FiberMoved? && event.move.ApprovalDecided? {
      ApprovedStaysOne(w, event);
    } else {
      NextKeeps(w, event);
      OtherMovesUnsettleNone(w, event);
      NoneNewlyUnsettled(w.store.rows, Next(w, event).store.rows);
    }
  }

  // ---------- Reaching a state ----------

  /** Some run from the empty store, at 0, ends there. */
  ghost predicate Reachable(w: World) {
    exists events :: IsRun(NewWorld(0), events) && Run(NewWorld(0), events) == w
  }

  lemma {:induction false} RunSnoc(w: World, events: seq<Event>, event: Event)
    requires IsRun(w, events) && Named(Run(w, events)) && Enabled(Run(w, events), event)
    ensures IsRun(w, events + [event]) && Run(w, events + [event]) == Next(Run(w, events), event)
    decreases |events|
  {
    if events == [] {
      assert [event][1..] == [];
    } else {
      assert (events + [event])[1..] == events[1..] + [event];
      RunSnoc(Next(w, events[0]), events[1..], event);
    }
  }

  lemma ReachNew()
    ensures Reachable(NewWorld(0))
  {
    assert Run(NewWorld(0), []) == NewWorld(0);
  }

  lemma ReachOne(w: World, event: Event)
    requires Reachable(w) && Named(w) && Enabled(w, event)
    ensures Reachable(Next(w, event))
  {
    var events :| IsRun(NewWorld(0), events) && Run(NewWorld(0), events) == w;
    RunSnoc(NewWorld(0), events, event);
  }

  lemma ReachFiber(w: World, f: nat, move: FiberEvent, store: Store, stage: Stage)
    requires Reachable(w) && Named(w) && f in w.fibers
    requires FiberEnabled(w.fibers[f].stage, w.store.clock, move)
    requires FiberNext(w.store, f, w.fibers[f], move) == (store, stage)
    ensures Reachable(w.(store := store, fibers := w.fibers[f := w.fibers[f].(stage := stage)]))
  {
    ReachOne(w, FiberMoved(f, move));
  }

  // ---------- A person told that nothing was sent ----------

  predicate SaysNotSent(record: Record) {
    record.outcome in {Some(DENIED_BY_USER), Some(STOPPED), Some(NOT_SENT)}
  }

  /** It left for Cloudflare, or a fiber is about to send it. */
  predicate MayBeSent(w: World, id: ExecutionId) {
    SentOf(w.store.wire, id) || exists f <- w.fibers :: w.fibers[f].job.executionId == id && w.fibers[f].stage.Sending?
  }

  predicate Truthful(w: World) {
    forall id <- w.store.rows :: SaysNotSent(w.store.rows[id]) ==> !MayBeSent(w, id)
  }

  /** A fiber that failed ends a change another fiber has begun. */
  predicate EndsAnothers(w: World, event: Event)
    requires Named(w) && Enabled(w, event)
  {
    && event.FiberMoved? && event.move.Caught?
    && var id := w.fibers[event.f].job.executionId;
    && w.store.rows[id].status == Executing && MayBeSent(w, id)
  }

  /** What was not begun is neither sent nor about to be. */
  lemma NotBegunNotSent(w: World, id: ExecutionId)
    requires Inv(w) && id in w.store.rows && w.store.rows[id].status in {AwaitingApproval, Approved}
    ensures !MayBeSent(w, id)
  {
    assert forall f <- w.fibers :: FiberInv(w.store, f, w.fibers[f]);
  }

  /** What is newly said not to be sent is of changes that waited. */
  predicate SaysOfWaiting(rows: Rows, rows': Rows) {
    forall id <- rows' :: SaysNotSent(rows'[id]) ==>
      id in rows && (SaysNotSent(rows[id]) || rows[id].status == AwaitingApproval)
  }

  lemma RowsSayOfWaiting(w: World, row: RowEvent)
    requires Named(w) && RowEnabled(w, row)
    ensures SaysOfWaiting(w.store.rows, NextRows(w.store.rows, w.store.clock, row))
  {
  }

  predicate NoneNewlySent(w: World, w': World) {
    && w'.store.wire == w.store.wire
    && (forall f <- w'.fibers :: w'.fibers[f].stage.Sending? ==> f in w.fibers && w'.fibers[f] == w.fibers[f])
  }

  lemma SaysOfWaitingKeeps(w: World, w': World)
    requires Inv(w) && Truthful(w) && SaysOfWaiting(w.store.rows, w'.store.rows) && NoneNewlySent(w, w')
    ensures Truthful(w')
  {
    forall id <- w'.store.rows | SaysNotSent(w'.store.rows[id]) ensures !MayBeSent(w', id) {
      if w.store.rows[id].status == AwaitingApproval {
        NotBegunNotSent(w, id);
      }
      assert !MayBeSent(w, id);
    }
  }

  lemma OthersSayOfWaiting(w: World, event: Event)
    requires Named(w) && Enabled(w, event) && !event.FiberMoved?
    ensures SaysOfWaiting(w.store.rows, Next(w, event).store.rows) && NoneNewlySent(w, Next(w, event))
  {
    if event.Rows? {
      RowsSayOfWaiting(w, event.row);
    }
  }

  /** A fiber that does not begin, send or end a change says nothing and sends nothing. */
  lemma FiberSaysNothing(w: World, f: nat, move: FiberEvent)
    requires Named(w) && Enabled(w, FiberMoved(f, move))
    requires !move.ExecutionBegun? && !move.RequestSent? && !move.Caught?
    ensures SaysOfWaiting(w.store.rows, Next(w, FiberMoved(f, move)).store.rows)
    ensures NoneNewlySent(w, Next(w, FiberMoved(f, move)))
  {
  }

  lemma BegunTruthful(w: World, f: nat)
    requires Inv(w) && Truthful(w) && Enabled(w, FiberMoved(f, ExecutionBegun))
    ensures Truthful(Next(w, FiberMoved(f, ExecutionBegun)))
  {
    var w' := Next(w, FiberMoved(f, ExecutionBegun));
    var id := w.fibers[f].job.executionId;
    assert RecordInv(w.store.rows[id]);
    forall other <- w'.store.rows | SaysNotSent(w'.store.rows[other]) ensures !MayBeSent(w', other) {
      assert other != id || w' == w.(fibers := w'.fibers);
      assert !MayBeSent(w, other);
    }
  }

  lemma SentTruthful(w: World, f: nat)
    requires Inv(w) && Truthful(w) && Enabled(w, FiberMoved(f, RequestSent))
    ensures Truthful(Next(w, FiberMoved(f, RequestSent)))
  {
    var w' := Next(w, FiberMoved(f, RequestSent));
    assert MayBeSent(w, w.fibers[f].job.executionId);
    forall other <- w'.store.rows | SaysNotSent(w'.store.rows[other]) ensures !MayBeSent(w', other) {
      assert !MayBeSent(w, other);
    }
  }

  /** The rows once a fiber that failed has ended its change, and nothing else. */
  lemma SettledTruthfulExactly(w: World, w': World, f: nat)
    requires Inv(w) && Truthful(w) && f in w.fibers && w.fibers[f].stage.Catching?
    requires w'.fibers == w.fibers[f := w.fibers[f].(stage := Finished)] && w'.store.wire == w.store.wire
    requires w.fibers[f].job.executionId in w.store.rows
    requires w'.store.rows == Settle(w.store.rows, w.fibers[f].job, w.store.clock)
    ensures
      var id := w.fibers[f].job.executionId;
      Truthful(w') <==> !(w.store.rows[id].status == Executing && MayBeSent(w, id))
  {
    var id := w.fibers[f].job.executionId;
    SameMayBeSent(w, w', f);
    if w.store.rows[id].status == Approved {
      NotBegunNotSent(w, id);
    }
    SettleSays(w.store.rows, w.fibers[f].job, w.store.clock);
    assert Truthful(w') <==> (SaysNotSent(w'.store.rows[id]) ==> !MayBeSent(w, id));
  }

  /** What the end of its change by a fiber says: not sent, of one that was approved or executing. */
  lemma SettleSays(rows: Rows, job: Job, now: Time)
    requires job.executionId in rows
    ensures
      var id, rows' := job.executionId, Settle(rows, job, now);
      && rows'.Keys == rows.Keys && (forall other <- rows | other != id :: rows'[other] == rows[other])
      && (IsTerminal(rows[id].status) ==> rows'[id] == rows[id])
      && (rows[id].status in {Approved, Executing} ==> SaysNotSent(rows'[id]))
      && (rows[id].status == AwaitingApproval && SaysNotSent(rows'[id]) ==> SaysNotSent(rows[id]))
  {
  }

  lemma SameMayBeSent(w: World, w': World, f: nat)
    requires f in w.fibers && w.fibers[f].stage.Catching?
    requires w'.fibers == w.fibers[f := w.fibers[f].(stage := Finished)] && w'.store.wire == w.store.wire
    ensures forall id :: MayBeSent(w', id) <==> MayBeSent(w, id)
  {
    assert forall g <- w.fibers :: g != f ==> w'.fibers[g] == w.fibers[g];
  }

  lemma CaughtTruthfulExactly(w: World, f: nat)
    requires Inv(w) && Truthful(w) && Enabled(w, FiberMoved(f, Caught))
    ensures Truthful(Next(w, FiberMoved(f, Caught))) <==> !EndsAnothers(w, FiberMoved(f, Caught))
  {
    SettledTruthfulExactly(w, Next(w, FiberMoved(f, Caught)), f);
  }

  lemma FiberTruthfulExactly(w: World, f: nat, move: FiberEvent)
    requires Inv(w) && Truthful(w) && Enabled(w, FiberMoved(f, move))
    ensures Truthful(Next(w, FiberMoved(f, move))) <==> !EndsAnothers(w, FiberMoved(f, move))
  {
    match move {
      case ExecutionBegun => BegunTruthful(w, f);
      case RequestSent => SentTruthful(w, f);
      case Caught => CaughtTruthfulExactly(w, f);
      case _ => SilentTruthful(w, f, move);
    }
  }

  lemma SilentTruthful(w: World, f: nat, move: FiberEvent)
    requires Inv(w) && Truthful(w) && Enabled(w, FiberMoved(f, move))
    requires !move.ExecutionBegun? && !move.RequestSent? && !move.Caught?
    ensures Truthful(Next(w, FiberMoved(f, move)))
  {
    FiberSaysNothing(w, f, move);
    SaysOfWaitingKeeps(w, Next(w, FiberMoved(f, move)));
  }

  /** From a state in which whoever is told that nothing was sent is told the truth, exactly that end breaks it. */
  lemma TruthfulExactly(w: World, event: Event)
    requires Inv(w) && Truthful(w) && Enabled(w, event)
    ensures Truthful(Next(w, event)) <==> !EndsAnothers(w, event)
  {
    if event.FiberMoved? {
      FiberTruthfulExactly(w, event.f, event.move);
    } else {
      OthersSayOfWaiting(w, event);
      SaysOfWaitingKeeps(w, Next(w, event));
    }
  }

  // ---------- One fiber a change ----------

  /** `startFiber` starts one fiber a change: its idempotency key names the execution. */
  ghost predicate StartsEachOnce(events: seq<Event>, started: set<ExecutionId>) {
    && (forall i | 0 <= i < |events| && events[i].FiberStarted? :: events[i].job.executionId !in started)
    && (forall i, j | 0 <= i < j < |events| && events[i].FiberStarted? && events[j].FiberStarted? ::
          events[i].job.executionId != events[j].job.executionId)
  }

  /** The only fiber of its change: whatever was begun, it began, and it failed before anything was sent. */
  predicate Alone(store: Store, f: nat, fiber: Fiber) {
    var id := fiber.job.executionId;
    && (id in store.begunBy ==>
          store.begunBy[id] == f && (fiber.stage.Sending? || fiber.stage.AwaitingAnswer?
                                     || fiber.stage.Catching? || fiber.stage.Finished?))
    && (fiber.stage.Catching? ==> !SentOf(store.wire, id))
  }

  predicate Single(w: World, started: set<ExecutionId>) {
    && w.store.begunBy.Keys <= started
    && (forall f <- w.fibers :: w.fibers[f].job.executionId in started && Alone(w.store, f, w.fibers[f]))
    && (forall f, g | f in w.fibers && g in w.fibers ::
          w.fibers[f].job.executionId == w.fibers[g].job.executionId ==> f == g)
    && (forall f <- w.fibers :: f < w.nextFiber)
  }

  /** A fiber begins and sends its own change only. */
  lemma FiberTouchesItsOwn(store: Store, f: nat, fiber: Fiber, move: FiberEvent, id: ExecutionId)
    requires fiber.job.executionId in store.rows && FiberEnabled(fiber.stage, store.clock, move)
    requires id != fiber.job.executionId
    ensures var store' := FiberNext(store, f, fiber, move).0;
            && (id in store'.begunBy <==> id in store.begunBy)
            && (id in store.begunBy ==> store'.begunBy[id] == store.begunBy[id])
            && (SentOf(store'.wire, id) <==> SentOf(store.wire, id))
  {
    var store' := FiberNext(store, f, fiber, move).0;
    if i :| 0 <= i < |store.wire| && store.wire[i].executionId == id {
      assert store'.wire[i] == store.wire[i];
    }
  }

  lemma FiberStaysAlone(store: Store, f: nat, fiber: Fiber, move: FiberEvent)
    requires StoreInv(store) && FiberInv(store, f, fiber) && FiberEnabled(fiber.stage, store.clock, move)
    requires Alone(store, f, fiber)
    ensures var (store', stage) := FiberNext(store, f, fiber, move);
            Alone(store', f, fiber.(stage := stage))
            && store'.begunBy.Keys <= store.begunBy.Keys + {fiber.job.executionId}
  {
  }

  lemma MovedStaysSingle(w: World, started: set<ExecutionId>, f: nat, store: Store, stage: Stage)
    requires Single(w, started) && f in w.fibers
    requires store.begunBy.Keys <= started && Alone(store, f, w.fibers[f].(stage := stage))
    requires forall g <- w.fibers | g != f :: Alone(store, g, w.fibers[g])
    ensures Single(w.(store := store, fibers := w.fibers[f := w.fibers[f].(stage := stage)]), started)
  {
  }

  lemma FiberStaysSingle(w: World, started: set<ExecutionId>, f: nat, move: FiberEvent)
    requires Inv(w) && Single(w, started) && Enabled(w, FiberMoved(f, move))
    ensures Single(Next(w, FiberMoved(f, move)), started)
  {
    var (store, stage) := FiberNext(w.store, f, w.fibers[f], move);
    FiberStaysAlone(w.store, f, w.fibers[f], move);
    forall g <- w.fibers | g != f ensures Alone(store, g, w.fibers[g]) {
      FiberTouchesItsOwn(w.store, f, w.fibers[f], move, w.fibers[g].job.executionId);
    }
    MovedStaysSingle(w, started, f, store, stage);
  }

  lemma StartedStaysSingle(w: World, started: set<ExecutionId>, job: Job, binding: Binding)
    requires Inv(w) && Single(w, started) && job.executionId in w.store.rows && job.executionId !in started
    ensures Single(Next(w, FiberStarted(job, binding)), started + {job.executionId})
  {
    assert !SentOf(w.store.wire, job.executionId);
  }

  /** Nothing began or was sent, and each fiber there is was there before. */
  lemma SameStaysSingle(w: World, w': World, started: set<ExecutionId>)
    requires Single(w, started) && w'.store.begunBy == w.store.begunBy && w'.store.wire == w.store.wire
    requires w'.nextFiber == w.nextFiber && (w'.fibers == w.fibers || w'.fibers == map[])
    ensures Single(w', started)
  {
  }

  lemma OthersStaySingle(w: World, started: set<ExecutionId>, event: Event)
    requires Inv(w) && Single(w, started) && Enabled(w, event) && !event.FiberMoved? && !event.FiberStarted?
    ensures Single(Next(w, event), started)
  {
    SameStaysSingle(w, Next(w, event), started);
  }

  lemma StaysSingle(w: World, started: set<ExecutionId>, event: Event)
    requires Inv(w) && Single(w, started) && Enabled(w, event) && !event.FiberMoved?
    requires event.FiberStarted? ==> event.job.executionId !in started
    ensures Single(Next(w, event), if event.FiberStarted? then started + {event.job.executionId} else started)
  {
    if event.FiberStarted? {
      StartedStaysSingle(w, started, event.job, event.binding);
    } else {
      OthersStaySingle(w, started, event);
    }
  }

  lemma AloneEndsNoOther(w: World, started: set<ExecutionId>, event: Event)
    requires Inv(w) && Single(w, started) && Enabled(w, event)
    ensures !EndsAnothers(w, event)
  {
    if event.FiberMoved? {
      assert Alone(w.store, event.f, w.fibers[event.f]);
    }
  }

  function StartedBy(started: set<ExecutionId>, event: Event): set<ExecutionId> {
    if event.FiberStarted? then started + {event.job.executionId} else started
  }

  lemma StepTruthful(w: World, event: Event, started: set<ExecutionId>)
    requires Inv(w) && Truthful(w) && Single(w, started) && Enabled(w, event)
    requires event.FiberStarted? ==> event.job.executionId !in started
    ensures Inv(Next(w, event)) && Truthful(Next(w, event)) && Single(Next(w, event), StartedBy(started, event))
  {
    NextKeeps(w, event);
    AloneEndsNoOther(w, started, event);
    TruthfulExactly(w, event);
    if event.FiberMoved? {
      FiberStaysSingle(w, started, event.f, event.move);
    } else {
      StaysSingle(w, started, event);
    }
  }

  lemma StartsRestOnce(events: seq<Event>, started: set<ExecutionId>)
    requires events != [] && StartsEachOnce(events, started)
    ensures StartsEachOnce(events[1..], StartedBy(started, events[0]))
  {
  }

  lemma {:induction false} RunTruthful(w: World, events: seq<Event>, started: set<ExecutionId>)
    requires Inv(w) && Truthful(w) && Single(w, started) && IsRun(w, events) && StartsEachOnce(events, started)
    ensures Truthful(Run(w, events))
    decreases |events|
  {
    if events != [] {
      StepTruthful(w, events[0], started);
      StartsRestOnce(events, started);
      RunTruthful(Next(w, events[0]), events[1..], StartedBy(started, events[0]));
    }
  }

  /** Over every run with one fiber a change: who is told that nothing was sent is told the truth, and it stays true. */
  lemma ToldTheTruth(clock: Time, events: seq<Event>)
    requires IsRun(NewWorld(clock), events) && StartsEachOnce(events, {})
    ensures Truthful(Run(NewWorld(clock), events))
    ensures
      var store := Run(NewWorld(clock), events).store;
      forall id <- store.rows :: SaysNotSent(store.rows[id]) ==> !SentOf(store.wire, id)
  {
    RunTruthful(NewWorld(clock), events, {});
  }

  // ---------- The runs that break them ----------

  /** A record the clock, at 0, has not made overdue. */
  predicate Current(rows: Rows) {
    forall id <- rows :: !(Held(rows[id]) && rows[id].expiresAt <= 0)
  }

  lemma CurrentStays(rows: Rows)
    requires Current(rows)
    ensures LeaveOverdueInChat(rows, 0) == rows
  {
  }

  /** A world at 0 with these rows and fibers, in which nothing was sent. */
  function At(rows: Rows, fibers: map<nat, Fiber>): World {
    World(Store(rows, 0, [], map[]), fibers, |fibers|, map[], {})
  }

  lemma ProposedReached(rows: Rows, id: ExecutionId, binding: Binding, request: Request)
    requires Reachable(At(rows, map[])) && Current(rows) && id !in rows && !UnsettledFor(rows, "t")
    ensures Reachable(At(rows[id := Proposal("t", binding, request, 0)], map[]))
    ensures Current(rows[id := Proposal("t", binding, request, 0)])
  {
    CurrentStays(rows);
    ReachOne(At(rows, map[]), Rows(Proposed(id, "t", binding, request, 0)));
  }

  lemma FiberReached(rows: Rows, job: Job, binding: Binding, other: map<nat, Fiber>)
    requires Reachable(At(rows, other)) && job.executionId in rows
    requires |other| !in other && forall f <- other :: other[f].job.executionId in rows
    ensures Reachable(At(rows, other[|other| := Fiber(job, binding, Starting)]))
  {
    ReachOne(At(rows, other), FiberStarted(job, binding));
  }

  /** Fiber 0 may approve its change. */
  predicate MayApprove(rows: Rows, fibers: map<nat, Fiber>) {
    && Current(rows) && (forall f <- fibers :: fibers[f].job.executionId in rows)
    && 0 in fibers && fibers[0].stage == Starting
    && var record := rows[fibers[0].job.executionId];
    && Decidable(record, 0) && DigestHolds(record)
    && record.binding == fibers[0].binding && record.digest == fibers[0].job.digest
  }

  function Staged(fibers: map<nat, Fiber>, stage: Stage): map<nat, Fiber>
    requires 0 in fibers
  {
    fibers[0 := fibers[0].(stage := stage)]
  }

  lemma StagedTwice(fibers: map<nat, Fiber>, one: Stage, two: Stage)
    requires 0 in fibers
    ensures Staged(Staged(fibers, one), two) == Staged(fibers, two) && |Staged(fibers, one)| == |fibers|
  {
    assert Staged(fibers, one).Keys == fibers.Keys;
    assert |Staged(fibers, one)| == |Staged(fibers, one).Keys| && |fibers| == |fibers.Keys|;
  }

  lemma VerifyReached(rows: Rows, fibers: map<nat, Fiber>)
    requires Reachable(At(rows, fibers)) && MayApprove(rows, fibers)
    ensures Reachable(At(rows, Staged(fibers, Approving(0))))
  {
    var store := Store(rows, 0, [], map[]);
    VerifiedStep(store, fibers[0]);
    ReachFiber(At(rows, fibers), 0, ApprovalVerified(0), store, Approving(0));
    StagedTwice(fibers, Approving(0), Approving(0));
  }

  lemma DecisionReached(rows: Rows, fibers: map<nat, Fiber>)
    requires MayApprove(rows, fibers) && Reachable(At(rows, Staged(fibers, Approving(0))))
    ensures Reachable(At(Approve(rows, fibers[0].job.executionId, 0), Staged(fibers, ReadingIdentity)))
  {
    var id, store, approving := fibers[0].job.executionId, Store(rows, 0, [], map[]), Staged(fibers, Approving(0));
    DecidedStep(store, approving[0]);
    ReachFiber(At(rows, approving), 0, ApprovalDecided, store.(rows := Approve(rows, id, 0)), ReadingIdentity);
    StagedTwice(fibers, Approving(0), ReadingIdentity);
    StagedTwice(fibers, ReadingIdentity, ReadingIdentity);
  }

  /** Fiber 0 approves its change. */
  lemma ApprovalReached(rows: Rows, fibers: map<nat, Fiber>)
    requires Reachable(At(rows, fibers)) && MayApprove(rows, fibers)
    ensures Reachable(At(Approve(rows, fibers[0].job.executionId, 0), Staged(fibers, ReadingIdentity)))
    ensures Current(Approve(rows, fibers[0].job.executionId, 0))
  {
    VerifyReached(rows, fibers);
    DecisionReached(rows, fibers);
  }

  lemma VerifiedStep(store: Store, fiber: Fiber)
    requires store.clock == 0 && Current(store.rows) && fiber.job.executionId in store.rows
    requires store.rows[fiber.job.executionId].binding == fiber.binding
    ensures fiber.stage.Starting? ==> FiberNext(store, 0, fiber, ApprovalVerified(0)) == (store, Approving(0))
    ensures fiber.stage.ReadingIdentity? ==> FiberNext(store, 0, fiber, IdentityRead(true, 0)) == (store, Beginning(0))
  {
    CurrentStays(store.rows);
  }

  lemma DecidedStep(store: Store, fiber: Fiber)
    requires fiber.job.executionId in store.rows && fiber.stage == Approving(0)
    requires var record := store.rows[fiber.job.executionId];
             Decidable(record, 0) && DigestHolds(record) && record.digest == fiber.job.digest
    ensures FiberNext(store, 0, fiber, ApprovalDecided)
         == (store.(rows := Approve(store.rows, fiber.job.executionId, 0)), ReadingIdentity)
  {
  }

  /** One change, waiting in its command. */
  function One(binding: Binding, request: Request): Rows {
    map[0 := Proposal("t", binding, request, 0)]
  }

  lemma OneReached(binding: Binding, request: Request)
    ensures Reachable(At(One(binding, request), map[])) && Current(One(binding, request))
  {
    var none: Rows := map[];
    ReachNew();
    ProposedReached(none, 0, binding, request);
    assert none[0 := Proposal("t", binding, request, 0)] == One(binding, request);
  }

  /** The same change, left in the chat. */
  function LeftOne(binding: Binding, request: Request): Rows {
    map[0 := Proposal("t", binding, request, 0).(leftWaitingAt := Some(0))]
  }

  lemma LeavesIt(binding: Binding, request: Request)
    ensures LeaveInChat(One(binding, request), "t", None, 0) == LeftOne(binding, request)
  {
  }

  lemma LeftReached(binding: Binding, first: Request)
    ensures Reachable(At(LeftOne(binding, first), map[])) && Current(LeftOne(binding, first))
  {
    OneReached(binding, first);
    LeavesIt(binding, first);
    ReachOne(At(One(binding, first), map[]), Rows(LeftInChat("t", None)));
  }

  lemma BothUnsettled(rows: Rows)
    requires 0 in rows && 1 in rows && rows[0].toolCallId == rows[1].toolCallId
    requires Decidable(rows[0], 0) && Held(rows[1])
    ensures !OneUnsettled(Approve(rows, 0, 0))
  {
    assert Unsettled(Approve(rows, 0, 0)[0]) && Unsettled(Approve(rows, 0, 0)[1]);
  }

  /** A change left in the chat, a newer one of its command, and then the first approved: both are unsettled. */
  lemma TwoUnsettledReached(binding: Binding, first: Request, second: Request)
    ensures exists w :: Reachable(w) && !OneUnsettled(w.store.rows)
  {
    var left := LeftOne(binding, first);
    LeftReached(binding, first);
    assert !UnsettledFor(left, "t");
    ProposedReached(left, 1, binding, second);
    var rows := left[1 := Proposal("t", binding, second, 0)];
    var job, fibers: map<nat, Fiber> := Job(0, rows[0].digest), map[];
    FiberReached(rows, job, binding, fibers);
    ApprovalReached(rows, fibers[0 := Fiber(job, binding, Starting)]);
    BothUnsettled(rows);
  }

  /** One change, and two fibers started for it. */
  lemma TwoFibersReached(binding: Binding, request: Request) returns (fibers: map<nat, Fiber>)
    ensures |fibers| == 2 && 0 in fibers && 1 in fibers && forall f <- fibers :: f < 2
    ensures fibers[0] == fibers[1] == Fiber(Job(0, One(binding, request)[0].digest), binding, Starting)
    ensures Reachable(At(One(binding, request), fibers))
  {
    var rows := One(binding, request);
    var job := Job(0, rows[0].digest);
    OneReached(binding, request);
    fibers := map[];
    FiberReached(rows, job, binding, fibers);
    fibers := fibers[0 := Fiber(job, binding, Starting)];
    FiberReached(rows, job, binding, fibers);
    fibers := fibers[1 := Fiber(job, binding, Starting)];
  }

  /** The first fiber, approved, begins the change. */
  lemma BeginReached(w: World)
    requires Reachable(w) && Named(w) && w.store.clock == 0 && Current(w.store.rows)
    requires 0 in w.fibers && w.fibers[0].stage.ReadingIdentity?
    requires
      var record := w.store.rows[w.fibers[0].job.executionId];
      record.status == Approved && record.binding == w.fibers[0].binding && DigestHolds(record)
    ensures Reachable(Begun(w))
  {
    var first, w' := w.fibers[0], Begun(w);
    VerifiedStep(w.store, first);
    ReachFiber(w, 0, IdentityRead(true, 0), w.store, Beginning(0));
    var w1 := w.(fibers := w.fibers[0 := first.(stage := Beginning(0))]);
    assert w1.fibers[0 := w'.fibers[0]] == w'.fibers;
    ReachFiber(w1, 0, ExecutionBegun, w'.store, w'.fibers[0].stage);
  }

  /** The world once fiber 0 has begun its change. */
  function Begun(w: World): World
    requires 0 in w.fibers && w.fibers[0].job.executionId in w.store.rows
  {
    var id := w.fibers[0].job.executionId;
    w.(store := w.store.(rows := BeginExecution(w.store.rows, id, 0), begunBy := w.store.begunBy[id := 0]),
       fibers := w.fibers[0 := w.fibers[0].(stage := Sending(w.store.rows[id].request))])
  }

  /** It sends it; the second fiber throws, and ends what it finds executing. */
  lemma LieReached(w: World, job: Job) returns (w': World)
    requires Reachable(w) && Named(w) && 0 in w.fibers && 1 in w.fibers && job.executionId in w.store.rows
    requires w.fibers[0].job == job && w.fibers[1].job == job
    requires w.fibers[0].stage.Sending? && w.fibers[1].stage.Starting?
    requires w.store.rows[job.executionId].status == Executing
    ensures Reachable(w') && !Truthful(w')
  {
    var store := w.store.(wire := w.store.wire + [Sent(job.executionId, w.fibers[0].stage.request, 0)]);
    ReachFiber(w, 0, RequestSent, store, AwaitingAnswer);
    var sent := w.(store := store, fibers := w.fibers[0 := w.fibers[0].(stage := AwaitingAnswer)]);
    ReachFiber(sent, 1, Threw, store, Catching);
    var threw := sent.(fibers := sent.fibers[1 := sent.fibers[1].(stage := Catching)]);
    var settled := store.(rows := Settle(store.rows, job, store.clock));
    ReachFiber(threw, 1, Caught, settled, Finished);
    w' := threw.(store := settled, fibers := threw.fibers[1 := threw.fibers[1].(stage := Finished)]);
    assert w'.store.wire[|w.store.wire|].executionId == job.executionId;
    assert SaysNotSent(w'.store.rows[job.executionId]) && SentOf(w'.store.wire, job.executionId);
  }

  lemma LieFromApproved(w: World) returns (w': World)
    requires Reachable(w) && Named(w) && w.store.clock == 0 && Current(w.store.rows) && 0 in w.fibers && 1 in w.fibers
    requires w.fibers[0].stage.ReadingIdentity? && w.fibers[1].stage.Starting? && w.fibers[1].job == w.fibers[0].job
    requires
      var record := w.store.rows[w.fibers[0].job.executionId];
      record.status == Approved && record.binding == w.fibers[0].binding && DigestHolds(record)
    ensures Reachable(w') && !Truthful(w')
  {
    BeginReached(w);
    w' := LieReached(Begun(w), w.fibers[0].job);
  }

  lemma ApprovedOne(binding: Binding, request: Request)
    ensures
      var rows := Approve(One(binding, request), 0, 0);
      rows.Keys == {0} && rows[0].status == Approved && rows[0].binding == binding && DigestHolds(rows[0])
  {
  }

  /**
   * Were a second fiber started for a change, its failure would say that nothing was sent of what the first one sent.
   */
  lemma SecondFiberMayLie(binding: Binding, request: Request)
    ensures exists w :: Reachable(w) && !Truthful(w)
  {
    var rows := One(binding, request);
    var fibers := TwoFibersReached(binding, request);
    ApprovalReached(rows, fibers);
    ApprovedOne(binding, request);
    var lie := LieFromApproved(At(Approve(rows, 0, 0), Staged(fibers, ReadingIdentity)));
  }
}
