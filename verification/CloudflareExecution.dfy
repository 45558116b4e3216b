/**
 * A change to the person's Cloudflare account that waits for their approval
 * (app/agents/builder-cloudflare-execution.ts): the stored record, what each transaction does to the rows, and what
 * the command and the chat are told. SHA-256 is taken as injective: a digest is the value it digests.
 */
module CloudflareExecution {
  import opened Wrappers

  type ExecutionId = nat
  type Time = int

  /** A request in its canonical JSON text. */
  type Request = string

  datatype Status =
    | AwaitingApproval | Approved | Executing
    | Rejected | Succeeded | Failed | Indeterminate | Expired

  datatype Transcript = Transcript(
    agentName: string, chatInitialId: string, conversationIndex: nat, parentAgentName: Option<string>)

  datatype Binding = Binding(
    userId: string, accountId: string, connectionId: string, connectionGeneration: nat, transcript: Transcript)

  datatype Digest = Digest(toolCallId: string, binding: Binding, request: Request)

  datatype OutcomeStatus = SentSuccess | SentFailure | InsufficientScope | SentIndeterminate | Denied

  datatype Outcome = Outcome(status: OutcomeStatus, summary: string, content: Option<string>, httpStatus: Option<int>)

  datatype Record = Record(
    toolCallId: string, binding: Binding, request: Request, digest: Digest, status: Status,
    createdAt: Time, decidedAt: Option<Time>, startedAt: Option<Time>, completedAt: Option<Time>,
    expiresAt: Time, leftWaitingAt: Option<Time>, outcome: Option<Outcome>)

  type Rows = map<ExecutionId, Record>

  /** 34 minutes, in milliseconds. */
  const APPROVAL_TTL := 34 * 60_000

  const DENIED_BY_USER := Outcome(Denied, "The user rejected this Cloudflare execution.", None, None)
  const STOPPED := Outcome(Denied,
    "The command was stopped before anyone approved the change, so nothing was sent to Cloudflare.", None, None)
  const INTERRUPTED := Outcome(SentIndeterminate,
    "The approved Cloudflare execution was interrupted. CloudChef will not replay it; "
    + "reconcile with a read before proposing another mutation.",
    None, None)
  const NOT_SENT := Outcome(SentFailure,
    "The approved change could not be sent safely, so nothing was sent to Cloudflare.", None, None)
  const EXPIRED_SUMMARY := "No one approved this change in time, so nothing was sent to Cloudflare."

  predicate IsTerminal(status: Status): (terminal: bool)
    ensures terminal <==> status !in {AwaitingApproval, Approved, Executing}
  {
    match status
    case AwaitingApproval => false
    case Approved => false
    case Executing => false
    case Rejected => true
    case Succeeded => true
    case Failed => true
    case Indeterminate => true
    case Expired => true
  }

  /** A decision counts: within its time while its command waits, or at any time once left in the chat. */
  predicate Decidable(record: Record, now: Time) {
    record.status == AwaitingApproval && (record.leftWaitingAt.Some? || record.expiresAt > now)
  }

  /** It waits inside its command. */
  predicate Held(record: Record) {
    record.status == AwaitingApproval && record.leftWaitingAt.None?
  }

  /** It holds up the next change of its command. */
  predicate Unsettled(record: Record) {
    !IsTerminal(record.status) && !(record.status == AwaitingApproval && record.leftWaitingAt.Some?)
  }

  predicate UnsettledFor(rows: Rows, toolCallId: string) {
    exists id | id in rows :: rows[id].toolCallId == toolCallId && Unsettled(rows[id])
  }

  // ---------- What the command and the chat are told ----------

  datatype Body = Raw(text: string) | ErrorBody(message: string) | SuccessBody(message: string)

  datatype ChangeAnswer = Waiting | Answer(status: int, body: Body)

  const WAITING_IN_CHAT :=
    "Not changed yet: waiting for your approval in the chat. It will be sent when you approve it."

  function SummaryOr(outcome: Option<Outcome>, default: string): string {
    if outcome.Some? then outcome.value.summary else default
  }

  function HttpStatusOr(outcome: Option<Outcome>, default: int): int {
    if outcome.Some? && outcome.value.httpStatus.Some? then outcome.value.httpStatus.value else default
  }

  /** What `cf` is answered; `isJson` says whether a text parses as JSON. */
  function CloudflareChangeAnswer(record: Record, isJson: string -> bool): ChangeAnswer {
    var outcome := record.outcome;
    match record.status
    case AwaitingApproval => if record.leftWaitingAt.None? then Waiting else Answer(202, ErrorBody(WAITING_IN_CHAT))
    case Approved => Waiting
    case Executing => Waiting
    case Succeeded =>
      Answer(HttpStatusOr(outcome, 200),
             if outcome.Some? && outcome.value.content.Some? then Raw(outcome.value.content.value)
             else SuccessBody(SummaryOr(outcome, "Cloudflare applied the change.")))
    case Failed =>
      Answer(HttpStatusOr(outcome, 502),
             if outcome.Some? && isJson(outcome.value.summary) then Raw(outcome.value.summary)
             else ErrorBody(SummaryOr(outcome, "The change failed.")))
    case Indeterminate =>
      Answer(502, ErrorBody(SummaryOr(outcome,
        "Whether Cloudflare applied the change is unknown. Read the current state before retrying.")))
    case Rejected => Answer(403, ErrorBody("The person declined this change, so nothing was sent to Cloudflare."))
    case Expired => Answer(403, ErrorBody(SummaryOr(outcome, EXPIRED_SUMMARY)))
  }

  datatype ChatChange = WaitingInChat(request: Request) | FinalResult(status: Status, outcome: Outcome)

  /** How the output of the command lists one that is in the chat. */
  function ChatCloudflareChange(record: Record): ChatChange {
    if !IsTerminal(record.status) then WaitingInChat(record.request) else
    FinalResult(record.status,
      if record.status == Rejected
      then Outcome(Denied, "The person rejected this change, so nothing was sent to Cloudflare.", None, None)
      else if record.outcome.Some? then record.outcome.value else Outcome(Denied, EXPIRED_SUMMARY, None, None))
  }

  /** A record holds up its command's next change exactly when `cf` is answered that it still waits. */
  lemma UnsettledIsAnsweredWaiting(record: Record, isJson: string -> bool)
    ensures Unsettled(record) <==> CloudflareChangeAnswer(record, isJson).Waiting?
  {
    match record.status
    case _ =>
  }

  // ---------- The transactions ----------

  function LeaveOverdueInChat(rows: Rows, now: Time): Rows {
    map id <- rows ::
      if Held(rows[id]) && rows[id].expiresAt <= now then rows[id].(leftWaitingAt := Some(now)) else rows[id]
  }

  function Proposal(toolCallId: string, binding: Binding, request: Request, now: Time): Record {
    Record(toolCallId, binding, request, Digest(toolCallId, binding, request), AwaitingApproval,
           now, None, None, None, now + APPROVAL_TTL, None, None)
  }

  function Propose(rows: Rows, id: ExecutionId, toolCallId: string, binding: Binding, request: Request, now: Time): Rows
  {
    if UnsettledFor(rows, toolCallId) then rows else rows[id := Proposal(toolCallId, binding, request, now)]
  }

  function Approve(rows: Rows, id: ExecutionId, now: Time): Rows
    requires id in rows
  {
    if Decidable(rows[id], now) then rows[id := rows[id].(status := Approved, decidedAt := Some(now))] else rows
  }

  function Reject(rows: Rows, id: ExecutionId, now: Time): Rows
    requires id in rows
  {
    if Decidable(rows[id], now)
    then rows[id := rows[id].(status := Rejected, decidedAt := Some(now), completedAt := Some(now),
                              outcome := Some(DENIED_BY_USER))]
    else rows
  }

  function BeginExecution(rows: Rows, id: ExecutionId, now: Time): Rows
    requires id in rows
  {
    if rows[id].status == Approved
    then rows[id := rows[id].(status := Executing, startedAt := Some(now))]
    else rows
  }

  function Ended(record: Record, status: Status, outcome: Outcome, now: Time): Record {
    record.(status := status, completedAt := Some(now), outcome := Some(outcome))
  }

  function Complete(rows: Rows, id: ExecutionId, status: Status, outcome: Outcome, now: Time): Rows
    requires id in rows && status in {Succeeded, Failed, Indeterminate}
  {
    if rows[id].status == Executing then rows[id := Ended(rows[id], status, outcome, now)] else rows
  }

  function FailApproved(rows: Rows, id: ExecutionId, outcome: Outcome, now: Time): Rows
    requires id in rows
  {
    if rows[id].status == Approved then rows[id := Ended(rows[id], Failed, outcome, now)] else rows
  }

  function RecoverIndeterminate(rows: Rows, id: ExecutionId, expected: Digest, now: Time): Rows
    requires id in rows
  {
    if rows[id].digest == expected && !IsTerminal(rows[id].status)
    then rows[id := Ended(rows[id], Indeterminate, INTERRUPTED, now)]
    else rows
  }

  function WithdrawHeld(rows: Rows, toolCallId: string, now: Time): Rows {
    map id <- rows ::
      if rows[id].toolCallId == toolCallId && Held(rows[id]) then Ended(rows[id], Expired, STOPPED, now) else rows[id]
  }

  function LeaveInChat(rows: Rows, toolCallId: string, only: Option<ExecutionId>, now: Time): Rows {
    map id <- rows ::
      if rows[id].toolCallId == toolCallId && Held(rows[id]) && (only.None? || only.value == id)
      then rows[id].(leftWaitingAt := Some(now))
      else rows[id]
  }

  // ---------- The eight-state machine ----------

  predicate SameProposal(r: Record, r': Record) {
    && r'.toolCallId == r.toolCallId && r'.binding == r.binding && r'.request == r.request && r'.digest == r.digest
    && r'.createdAt == r.createdAt && r'.expiresAt == r.expiresAt
  }

  /** The state machine's arrows, each with the fields it writes. */
  predicate RecordStep(r: Record, r': Record) {
    || r' == r
    || (Held(r) && r'.leftWaitingAt.Some? && r' == r.(leftWaitingAt := r'.leftWaitingAt))
    || (r.status == AwaitingApproval && r'.decidedAt.Some?
        && r' == r.(status := Approved, decidedAt := r'.decidedAt))
    || (r.status == AwaitingApproval && r'.decidedAt.Some? && EndsAs(r.(decidedAt := r'.decidedAt), r', {Rejected}))
    || (r.status == Approved && r'.startedAt.Some? && r' == r.(status := Executing, startedAt := r'.startedAt))
    || (r.status == Approved && EndsAs(r, r', {Failed}))
    || (r.status == Executing && EndsAs(r, r', {Succeeded, Failed, Indeterminate}))
    || (!IsTerminal(r.status) && EndsAs(r, r', {Indeterminate}))
    || (Held(r) && EndsAs(r, r', {Expired}))
  }

  predicate EndsAs(r: Record, r': Record, statuses: set<Status>) {
    && r'.status in statuses && r'.completedAt.Some? && r'.outcome.Some?
    && r' == r.(status := r'.status, completedAt := r'.completedAt, outcome := r'.outcome)
  }

  predicate RowsStep(rows: Rows, rows': Rows) {
    rows'.Keys == rows.Keys && forall id | id in rows :: RecordStep(rows[id], rows'[id])
  }

  /** What holds of every stored record. */
  predicate RecordInv(r: Record) {
    && r.digest == Digest(r.toolCallId, r.binding, r.request)
    && (IsTerminal(r.status) <==> r.outcome.Some?)
    && (IsTerminal(r.status) <==> r.completedAt.Some?)
    && (r.status in {Approved, Executing, Rejected, Succeeded} ==> r.decidedAt.Some?)
    && (r.status in {AwaitingApproval, Expired} ==> r.decidedAt.None?)
    && (r.status in {Executing, Succeeded} ==> r.startedAt.Some?)
    && (r.status in {AwaitingApproval, Approved, Rejected, Expired} ==> r.startedAt.None?)
    && (r.status == Expired ==> r.leftWaitingAt.None?)
  }

  /** Not over, and not left in the chat. */
  predicate InCommand(r: Record) {
    !IsTerminal(r.status) && r.leftWaitingAt.None?
  }

  predicate OnePerCommand(rows: Rows) {
    forall i, j | i in rows && j in rows && InCommand(rows[i]) && InCommand(rows[j]) ::
      rows[i].toolCallId == rows[j].toolCallId ==> i == j
  }

  predicate RowsInv(rows: Rows) {
    forall id | id in rows :: RecordInv(rows[id])
  }

  /** How a record may have changed over any number of steps. */
  predicate RecordLater(r: Record, r': Record) {
    && SameProposal(r, r')
    && (IsTerminal(r.status) ==> r' == r)
    && (r.leftWaitingAt.Some? ==> r'.leftWaitingAt == r.leftWaitingAt && r'.status != Expired)
    && (r'.leftWaitingAt.None? || r'.leftWaitingAt == r.leftWaitingAt || Held(r))
    && (r.decidedAt.Some? ==> r'.decidedAt == r.decidedAt)
    && (r.startedAt.Some? ==> r'.startedAt == r.startedAt)
    && (r'.status == AwaitingApproval ==> r.status == AwaitingApproval)
    && (r'.status == Approved ==> r.status in {AwaitingApproval, Approved})
    && (r.status == Approved ==> r'.status !in {Rejected, Expired})
    && (r.status == Executing ==> r'.status in {Executing, Succeeded, Failed, Indeterminate})
  }

  predicate Later(rows: Rows, rows': Rows) {
    rows.Keys <= rows'.Keys && forall id | id in rows :: RecordLater(rows[id], rows'[id])
  }

  lemma LaterReflexive(rows: Rows)
    requires RowsInv(rows)
    ensures Later(rows, rows)
  {
  }

  lemma LaterTransitive(rows: Rows, rows': Rows, rows'': Rows)
    requires Later(rows, rows') && Later(rows', rows'')
    ensures Later(rows, rows'')
  {
    forall id | id in rows ensures RecordLater(rows[id], rows''[id]) {
      assert RecordLater(rows[id], rows'[id]) && RecordLater(rows'[id], rows''[id]);
    }
  }

  lemma RecordStepKeeps(r: Record, r': Record)
    requires RecordInv(r) && RecordStep(r, r')
    ensures RecordInv(r') && RecordLater(r, r')
  {
  }

  lemma StepKeeps(rows: Rows, rows': Rows)
    requires RowsInv(rows) && RowsStep(rows, rows')
    ensures RowsInv(rows') && Later(rows, rows')
  {
    forall id | id in rows ensures RecordInv(rows'[id]) && RecordLater(rows[id], rows'[id]) {
      RecordStepKeeps(rows[id], rows'[id]);
    }
  }

  /** Every transaction but a new proposal follows the machine. */
  lemma DecisionTransactionsStep(rows: Rows, id: ExecutionId, now: Time)
    requires id in rows
    ensures RowsStep(rows, Approve(rows, id, now))
    ensures RowsStep(rows, Reject(rows, id, now))
    ensures RowsStep(rows, BeginExecution(rows, id, now))
  {
  }

  lemma EndTransactionsStep(rows: Rows, id: ExecutionId, status: Status, outcome: Outcome, now: Time)
    requires id in rows && status in {Succeeded, Failed, Indeterminate}
    ensures RowsStep(rows, Complete(rows, id, status, outcome, now))
    ensures RowsStep(rows, FailApproved(rows, id, outcome, now))
  {
  }

  lemma RecoveryStep(rows: Rows, id: ExecutionId, expected: Digest, now: Time)
    requires id in rows
    ensures RowsStep(rows, RecoverIndeterminate(rows, id, expected, now))
  {
  }

  lemma CommandTransactionsStep(rows: Rows, toolCallId: string, only: Option<ExecutionId>, now: Time)
    ensures RowsStep(rows, LeaveOverdueInChat(rows, now))
    ensures RowsStep(rows, WithdrawHeld(rows, toolCallId, now))
    ensures RowsStep(rows, LeaveInChat(rows, toolCallId, only, now))
  {
  }

  lemma ProposeKeeps(
    rows: Rows, id: ExecutionId, toolCallId: string, binding: Binding, request: Request, now: Time)
    requires RowsInv(rows) && id !in rows
    ensures
      var rows' := Propose(rows, id, toolCallId, binding, request, now);
      RowsInv(rows') && Later(rows, rows')
  {
    LaterReflexive(rows);
  }

  /** A change never comes back into its command, so one at most stays one at most. */
  lemma OnePerCommandStays(rows: Rows, rows': Rows)
    requires OnePerCommand(rows) && rows'.Keys == rows.Keys && Later(rows, rows')
    ensures OnePerCommand(rows')
  {
    forall id | id in rows' && InCommand(rows'[id])
      ensures InCommand(rows[id]) && rows'[id].toolCallId == rows[id].toolCallId
    {
      assert RecordLater(rows[id], rows'[id]);
    }
  }

  /** A new proposal is only added while none of its command is in the command. */
  lemma ProposeKeepsOnePerCommand(
    rows: Rows, id: ExecutionId, toolCallId: string, binding: Binding, request: Request, now: Time)
    requires OnePerCommand(rows) && id !in rows
    ensures OnePerCommand(Propose(rows, id, toolCallId, binding, request, now))
  {
    forall other | other in rows && InCommand(rows[other]) ensures Unsettled(rows[other]) {
    }
  }

  /** After `leaveOverdueInChat`, whatever still waits can be decided: time alone takes no decision away. */
  lemma OverdueLeftIsDecidable(rows: Rows, asked: Time, now: Time, id: ExecutionId)
    requires asked <= now && id in rows
    ensures rows[id].status == AwaitingApproval ==> Decidable(LeaveOverdueInChat(rows, now)[id], asked)
  {
  }

  /** Once its command ended, no change waits in it; what still may be sent or decided is in the chat's list. */
  lemma CommandEndSettles(rows: Rows, toolCallId: string, now: Time, stopped: bool, id: ExecutionId)
    requires RowsInv(rows) && id in rows && rows[id].toolCallId == toolCallId
    ensures
      var r' := (if stopped then WithdrawHeld(rows, toolCallId, now) else LeaveInChat(rows, toolCallId, None, now))[id];
      && !Held(r')
      && (Held(rows[id]) ==> if stopped then r'.status == Expired else ChatCloudflareChange(r').WaitingInChat?)
      && (!Held(rows[id]) ==> r' == rows[id])
  {
  }
}
