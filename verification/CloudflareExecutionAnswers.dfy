/**
 * What is stored of a change's end, and what `cf` and the chat are told of it
 * (app/agents/builder-cloudflare-execution.ts, `cloudflareChangeAnswer` and `chatCloudflareChange`), over every run of
 * decisions, fibers, crashes and recoveries.
 */
module CloudflareExecutionAnswers {
  import opened Wrappers
  import opened CloudflareExecution
  import opened CloudflareExecutionFibers

  /** The outcome is the one its status stands for: Cloudflare's answer, or why there is none. */
  predicate Recorded(r: Record) {
    match r.outcome
    case None => r.status in {AwaitingApproval, Approved, Executing}
    case Some(outcome) =>
      match r.status
      case Succeeded => outcome.status == SentSuccess && outcome.httpStatus.Some? && IsOk(outcome.httpStatus.value)
      case Failed =>
        && outcome.status in {SentFailure, InsufficientScope}
        && (outcome.httpStatus.Some? ==> !IsOk(outcome.httpStatus.value))
      case Indeterminate => outcome.status == SentIndeterminate
      case Rejected => outcome == DENIED_BY_USER
      case Expired => outcome == STOPPED
      case _ => false
  }

  predicate AllRecorded(rows: Rows) {
    forall id <- rows :: Recorded(rows[id])
  }

  predicate SuccessWasSent(store: Store) {
    forall id <- store.rows :: store.rows[id].status == Succeeded ==> SentOf(store.wire, id)
  }

  /** Whoever awaits Cloudflare's answer sent the request. */
  predicate AwaitedWasSent(w: World) {
    forall f <- w.fibers :: w.fibers[f].stage.AwaitingAnswer? ==> SentOf(w.store.wire, w.fibers[f].job.executionId)
  }

  predicate AnswersInv(w: World) {
    AllRecorded(w.store.rows) && SuccessWasSent(w.store) && AwaitedWasSent(w)
  }

  // ---------- Every step ----------

  /** No record comes to be over by a success. */
  predicate NoNewSuccess(rows: Rows, rows': Rows) {
    forall id <- rows' :: rows'[id].status == Succeeded ==> id in rows && rows[id].status == Succeeded
  }

  lemma DecisionsRecord(rows: Rows, id: ExecutionId, now: Time)
    requires AllRecorded(rows) && id in rows
    ensures AllRecorded(Approve(rows, id, now)) && NoNewSuccess(rows, Approve(rows, id, now))
    ensures AllRecorded(Reject(rows, id, now)) && NoNewSuccess(rows, Reject(rows, id, now))
    ensures AllRecorded(BeginExecution(rows, id, now)) && NoNewSuccess(rows, BeginExecution(rows, id, now))
  {
  }

  lemma RowEventRecords(rows: Rows, clock: Time, event: RowEvent)
    requires AllRecorded(rows) && (event.Recovered? ==> event.job.executionId in rows)
    ensures AllRecorded(NextRows(rows, clock, event)) && NoNewSuccess(rows, NextRows(rows, clock, event))
  {
  }

  lemma SettleRecords(rows: Rows, job: Job, now: Time)
    requires AllRecorded(rows) && job.executionId in rows
    ensures AllRecorded(Settle(rows, job, now)) && NoNewSuccess(rows, Settle(rows, job, now))
  {
  }

  lemma CompleteRecords(rows: Rows, id: ExecutionId, status: Status, outcome: Outcome, now: Time)
    requires AllRecorded(rows) && id in rows && FromClient(status, outcome)
    ensures AllRecorded(Complete(rows, id, status, outcome, now))
    ensures forall other <- rows :: other != id ==> Complete(rows, id, status, outcome, now)[other] == rows[other]
  {
  }

  lemma SentStays(wire: seq<Sent>, more: seq<Sent>, id: ExecutionId)
    requires SentOf(wire, id)
    ensures SentOf(wire + more, id)
  {
    var i :| 0 <= i < |wire| && wire[i].executionId == id;
    assert (wire + more)[i].executionId == id;
  }

  lemma SentRecords(w: World, event: Event)
    requires Named(w) && AnswersInv(w) && Enabled(w, event) && event.FiberMoved? && event.move.RequestSent?
    ensures AnswersInv(Next(w, event))
  {
    var sent := Sent(w.fibers[event.f].job.executionId, w.fibers[event.f].stage.request, event.f);
    forall other | SentOf(w.store.wire, other) ensures SentOf(w.store.wire + [sent], other) {
      SentStays(w.store.wire, [sent], other);
    }
    assert (w.store.wire + [sent])[|w.store.wire|] == sent;
  }

  lemma AnsweredRecords(w: World, event: Event)
    requires Named(w) && AnswersInv(w) && Enabled(w, event) && event.FiberMoved? && event.move.Answered?
    ensures AnswersInv(Next(w, event))
  {
    CompleteRecords(w.store.rows, w.fibers[event.f].job.executionId, event.move.status, event.move.outcome,
                    w.store.clock);
  }

  lemma FiberRecords(w: World, event: Event)
    requires Named(w) && AnswersInv(w) && Enabled(w, event) && event.FiberMoved?
    ensures AnswersInv(Next(w, event))
  {
    match event.move {
      case Answered(_, _) => AnsweredRecords(w, event);
      case RequestSent => SentRecords(w, event);
      case _ =>
        var (store, stage) := FiberNext(w.store, event.f, w.fibers[event.f], event.move);
        QuietMoveRecords(w.store, event.f, w.fibers[event.f], event.move);
        QuietRecords(w, event.f, store, stage);
    }
  }

  /** A fiber that neither sends nor is answered makes no success, and does not await an answer. */
  lemma QuietMoveRecords(store: Store, f: nat, fiber: Fiber, move: FiberEvent)
    requires AllRecorded(store.rows) && fiber.job.executionId in store.rows
    requires FiberEnabled(fiber.stage, store.clock, move)
    requires !move.Answered? && !move.RequestSent?
    ensures var (store', stage) := FiberNext(store, f, fiber, move);
            && AllRecorded(store'.rows) && NoNewSuccess(store.rows, store'.rows) && store'.wire == store.wire
            && !stage.AwaitingAnswer?
  {
    match move {
      case ApprovalDecided => DecisionsRecord(store.rows, fiber.job.executionId, fiber.stage.asked);
      case ExecutionBegun => DecisionsRecord(store.rows, fiber.job.executionId, fiber.stage.asked);
      case Caught => SettleRecords(store.rows, fiber.job, store.clock);
      case _ =>
    }
  }

  lemma QuietRecords(w: World, f: nat, store: Store, stage: Stage)
    requires AnswersInv(w) && f in w.fibers && AllRecorded(store.rows) && NoNewSuccess(w.store.rows, store.rows)
    requires store.wire == w.store.wire && !stage.AwaitingAnswer?
    ensures AnswersInv(w.(store := store, fibers := w.fibers[f := w.fibers[f].(stage := stage)]))
  {
  }

  lemma NextRecords(w: World, event: Event)
    requires Named(w) && AnswersInv(w) && Enabled(w, event)
    ensures AnswersInv(Next(w, event))
  {
    match event {
      case Rows(row) => RowEventRecords(w.store.rows, w.store.clock, row);
      case FiberMoved(_, _) => FiberRecords(w, event);
      case RejectionDecided(r) =>
        DecisionsRecord(w.store.rows, w.rejections[r].executionId, w.rejections[r].asked);
      case _ =>
    }
  }

  lemma {:induction false} RunRecords(w: World, events: seq<Event>)
    requires AnswersInv(w) && IsRun(w, events)
    ensures AnswersInv(Run(w, events))
    decreases |events|
  {
    if events != [] {
      NextRecords(w, events[0]);
      RunRecords(Next(w, events[0]), events[1..]);
    }
  }

  // ---------- What is stored ----------

  /** Over every run: a change succeeded exactly when Cloudflare said so of the request, and so on for every end. */
  lemma StatusIsOutcome(clock: Time, events: seq<Event>, id: ExecutionId)
    requires IsRun(NewWorld(clock), events) && id in Run(NewWorld(clock), events).store.rows
    ensures
      var store := Run(NewWorld(clock), events).store;
      var r := store.rows[id];
      && (r.status == Succeeded <==> r.outcome.Some? && r.outcome.value.status == SentSuccess)
      && (r.status == Failed <==> r.outcome.Some? && r.outcome.value.status in {SentFailure, InsufficientScope})
      && (r.status == Indeterminate <==> r.outcome.Some? && r.outcome.value.status == SentIndeterminate)
      && (r.status in {Rejected, Expired} <==> r.outcome.Some? && r.outcome.value.status == Denied)
      && (r.status in {AwaitingApproval, Approved, Executing} <==> r.outcome.None?)
      && (r.status == Succeeded ==> SentOf(store.wire, id))
  {
    RunRecords(NewWorld(clock), events);
    assert Recorded(Run(NewWorld(clock), events).store.rows[id]);
  }

  /** What Cloudflare answers an executing change is stored as it is, and no other record changes. */
  lemma AnsweredIsStored(w: World, f: nat, status: Status, outcome: Outcome)
    requires Named(w) && Enabled(w, FiberMoved(f, Answered(status, outcome)))
    ensures
      var id := w.fibers[f].job.executionId;
      var r := w.store.rows[id];
      Next(w, FiberMoved(f, Answered(status, outcome))).store.rows ==
        if r.status == Executing
        then w.store.rows[id := r.(status := status, outcome := Some(outcome), completedAt := Some(w.store.clock))]
        else w.store.rows
  {
  }

  /** A fiber that fails says that nothing was sent, of what was approved or begun, and leaves what is over alone. */
  lemma CaughtIsStored(w: World, f: nat)
    requires Named(w) && AnswersInv(w) && Enabled(w, FiberMoved(f, Caught))
    ensures
      var job := w.fibers[f].job;
      var r := w.store.rows[job.executionId];
      var r' := Next(w, FiberMoved(f, Caught)).store.rows[job.executionId];
      && (r.outcome.Some? ==> r' == r)
      && (r.status in {Approved, Executing} ==> r'.status == Failed && r'.outcome == Some(NOT_SENT))
      && (r.status == AwaitingApproval && r.digest == job.digest ==>
            r'.status == Indeterminate && r'.outcome == Some(INTERRUPTED))
      && (r.status == AwaitingApproval && r.digest != job.digest ==> r' == r)
  {
    assert Recorded(w.store.rows[w.fibers[f].job.executionId]);
  }

  // ---------- What is told ----------

  /** The answer says the outcome: Cloudflare's own words where there are any, and its status. */
  predicate SaysOutcome(answer: ChangeAnswer, outcome: Outcome, isJson: string -> bool) {
    answer.Answer? &&
    match outcome.status
    case SentSuccess =>
      && outcome.httpStatus == Some(answer.status)
      && answer.body == if outcome.content.Some? then Raw(outcome.content.value) else SuccessBody(outcome.summary)
    case SentIndeterminate => answer.status == 502 && answer.body == ErrorBody(outcome.summary)
    case Denied =>
      && answer.status == 403
      && answer.body == ErrorBody(if outcome == STOPPED then STOPPED.summary
                                  else "The person declined this change, so nothing was sent to Cloudflare.")
    case _ =>
      && answer.status == (if outcome.httpStatus.Some? then outcome.httpStatus.value else 502)
      && answer.body == if isJson(outcome.summary) then Raw(outcome.summary) else ErrorBody(outcome.summary)
  }

  lemma ToldOfRecord(r: Record, isJson: string -> bool)
    requires Recorded(r)
    ensures var answer := CloudflareChangeAnswer(r, isJson);
            if r.outcome.Some? then SaysOutcome(answer, r.outcome.value, isJson)
            else if r.status == AwaitingApproval && r.leftWaitingAt.Some?
            then answer == Answer(202, ErrorBody(WAITING_IN_CHAT)) else answer == Waiting
  {
    if r.status in {Rejected, Expired} {
      DeniedIsTold(r, isJson);
    } else if r.status == Failed {
      FailureIsTold(r, isJson);
    } else if r.status == Succeeded {
      SuccessIsTold(r, isJson);
    } else if r.status == Indeterminate {
      UnknownIsTold(r, isJson);
    }
  }

  lemma SuccessIsTold(r: Record, isJson: string -> bool)
    requires Recorded(r) && r.status == Succeeded
    ensures SaysOutcome(CloudflareChangeAnswer(r, isJson), r.outcome.value, isJson)
  {
  }

  lemma UnknownIsTold(r: Record, isJson: string -> bool)
    requires Recorded(r) && r.status == Indeterminate
    ensures SaysOutcome(CloudflareChangeAnswer(r, isJson), r.outcome.value, isJson)
  {
    assert CloudflareChangeAnswer(r, isJson) == Answer(502, ErrorBody(r.outcome.value.summary));
  }

  lemma FailureIsTold(r: Record, isJson: string -> bool)
    requires Recorded(r) && r.status == Failed
    ensures SaysOutcome(CloudflareChangeAnswer(r, isJson), r.outcome.value, isJson)
  {
  }

  lemma DeniedIsTold(r: Record, isJson: string -> bool)
    requires Recorded(r) && r.status in {Rejected, Expired}
    ensures SaysOutcome(CloudflareChangeAnswer(r, isJson), r.outcome.value, isJson)
  {
    NotStopped();
  }

  lemma NotStopped()
    ensures DENIED_BY_USER != STOPPED
  {
    assert |DENIED_BY_USER.summary| < |STOPPED.summary|;
  }

  /**
   * Over every run `cf` is told the outcome stored, that the change waits in the chat, or to wait. It is told a status
   * of success by a change that was sent and succeeded, and by no other that is over; and one it is told was declined
   * or stopped was never sent.
   */
  lemma CfIsToldTheOutcome(clock: Time, events: seq<Event>, id: ExecutionId, isJson: string -> bool)
    requires IsRun(NewWorld(clock), events) && id in Run(NewWorld(clock), events).store.rows
    ensures
      var store := Run(NewWorld(clock), events).store;
      var r := store.rows[id];
      var answer := CloudflareChangeAnswer(r, isJson);
      if r.outcome.Some? then
        && SaysOutcome(answer, r.outcome.value, isJson)
        && (IsOk(answer.status) <==> r.outcome.value.status == SentSuccess)
        && (IsOk(answer.status) ==> SentOf(store.wire, id))
        && (r.outcome.value.status == Denied ==> !SentOf(store.wire, id))
      else if r.status == AwaitingApproval && r.leftWaitingAt.Some?
      then answer == Answer(202, ErrorBody(WAITING_IN_CHAT)) else answer == Waiting
  {
    var w := Run(NewWorld(clock), events);
    RunRecords(NewWorld(clock), events);
    StatusIsOutcome(clock, events, id);
    ToldOfRecord(w.store.rows[id], isJson);
    DeniedWasNotSent(clock, events, id);
    if w.store.rows[id].outcome.Some? {
      OkIsSuccess(w.store.rows[id], isJson);
    }
  }

  lemma OkIsSuccess(r: Record, isJson: string -> bool)
    requires Recorded(r) && r.outcome.Some?
    ensures CloudflareChangeAnswer(r, isJson).Answer?
    ensures IsOk(CloudflareChangeAnswer(r, isJson).status) <==> r.outcome.value.status == SentSuccess
  {
    ToldOfRecord(r, isJson);
  }

  lemma DeniedWasNotSent(clock: Time, events: seq<Event>, id: ExecutionId)
    requires IsRun(NewWorld(clock), events) && id in Run(NewWorld(clock), events).store.rows
    ensures
      var store := Run(NewWorld(clock), events).store;
      store.rows[id].outcome.Some? && store.rows[id].outcome.value.status == Denied ==> !SentOf(store.wire, id)
  {
    StatusIsOutcome(clock, events, id);
    SentAtMostOnce(clock, events);
  }

  /** The chat lists a change with the request while it is not over, and then with the outcome stored. */
  lemma ChatIsTold(clock: Time, events: seq<Event>, id: ExecutionId)
    requires IsRun(NewWorld(clock), events) && id in Run(NewWorld(clock), events).store.rows
    ensures
      var r := Run(NewWorld(clock), events).store.rows[id];
      match ChatCloudflareChange(r)
      case WaitingInChat(request) => r.outcome.None? && request == r.request
      case FinalResult(status, outcome) =>
        && r.outcome.Some? && status == r.status && outcome.status == r.outcome.value.status
        && (outcome == r.outcome.value || (status == Rejected && outcome.content.None? && outcome.httpStatus.None?))
  {
    RunRecords(NewWorld(clock), events);
    assert Recorded(Run(NewWorld(clock), events).store.rows[id]);
  }
}
