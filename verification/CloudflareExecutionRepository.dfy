/**
 * `BuilderCloudflareExecutionRepository` (app/agents/builder-cloudflare-execution.ts): each method is one synchronous
 * stretch of the source, so what it does to the rows happens at once. `now` is a reading of the clock, and a new
 * proposal's id, a random UUID in the source, is one no row has.
 */
module CloudflareExecutionRepository {
  import opened Wrappers
  import opened CloudflareExecution

  datatype DecisionError = Missing | IdentityChanged | DigestMismatch | NoLongerApprovable | NoLongerRejectable

  /** It still waits, and within its time or in the chat, where it waits without an end. */
  predicate Undecided(r: Record, now: Time) {
    r.status == AwaitingApproval && (now < r.expiresAt || r.leftWaitingAt.Some?)
  }

  class Repository {
    var rows: Rows

    constructor ()
      ensures rows == map[]
    {
      rows := map[];
    }

    method LeaveOverdueInChat(now: Time)
      modifies this
      ensures rows == CloudflareExecution.LeaveOverdueInChat(old(rows), now)
      ensures rows.Keys == old(rows).Keys && forall id <- rows ::
                var r := old(rows)[id];
                rows[id] == if r.status == AwaitingApproval && r.leftWaitingAt.None? && now >= r.expiresAt
                            then r.(leftWaitingAt := Some(now)) else r
    {
      rows := map id <- rows ::
        if rows[id].status == AwaitingApproval && rows[id].leftWaitingAt.None? && rows[id].expiresAt <= now
        then rows[id].(leftWaitingAt := Some(now))
        else rows[id];
    }

    /** `null`, here `None`, exactly while some change of the command is one `cf` is told to wait for. */
    method CreateProposal(
      id: ExecutionId, toolCallId: string, binding: Binding, request: Request, asked: Time, now: Time,
      ghost isJson: string -> bool)
      returns (record: Option<Record>)
      requires id !in rows
      modifies this
      ensures rows == Propose(CloudflareExecution.LeaveOverdueInChat(old(rows), now),
          id, toolCallId, binding, request, asked)
      ensures record.None? <==>
                var settled := CloudflareExecution.LeaveOverdueInChat(old(rows), now);
                exists e | e in settled ::
                  settled[e].toolCallId == toolCallId && CloudflareChangeAnswer(settled[e], isJson).Waiting?
      ensures var settled := CloudflareExecution.LeaveOverdueInChat(old(rows), now);
              rows == if record.None? then settled else settled[id := record.value]
      ensures record.Some? ==>
                var r := record.value;
                && r.toolCallId == toolCallId && r.binding == binding && r.request == request
                && r.digest == Digest(toolCallId, binding, request) && r.status == AwaitingApproval
                && r.createdAt == asked && r.expiresAt == asked + 34 * 60 * 1000
                && r.decidedAt.None? && r.startedAt.None? && r.completedAt.None?
                && r.leftWaitingAt.None? && r.outcome.None?
    {
      LeaveOverdueInChat(now);
      forall e | e in rows ensures Unsettled(rows[e]) <==> CloudflareChangeAnswer(rows[e], isJson).Waiting? {
        UnsettledIsAnsweredWaiting(rows[e], isJson);
      }
      if UnsettledFor(rows, toolCallId) {
        return None;
      }
      rows := rows[id := Proposal(toolCallId, binding, request, asked)];
      return Some(rows[id]);
    }

    /** The first stretch of `verify`, up to the digest it awaits. */
    method Verify(id: ExecutionId, binding: Binding, now: Time) returns (verified: Result<Record, DecisionError>)
      modifies this
      ensures rows == CloudflareExecution.LeaveOverdueInChat(old(rows), now)
      ensures verified == if id !in rows then Failure(Missing)
                          else if rows[id].binding != binding then Failure(IdentityChanged) else Success(rows[id])
    {
      LeaveOverdueInChat(now);
      if id !in rows {
        return Failure(Missing);
      }
      if rows[id].binding != binding {
        return Failure(IdentityChanged);
      }
      return Success(rows[id]);
    }

    method Approve(id: ExecutionId, now: Time) returns (decided: Result<(Record, bool), DecisionError>)
      modifies this
      ensures id !in old(rows) ==> decided == Failure(Missing) && rows == old(rows)
      ensures id in old(rows) ==>
                && rows == CloudflareExecution.Approve(old(rows), id, now)
                && rows == (if Undecided(old(rows)[id], now)
                            then old(rows)[id := old(rows)[id].(status := Approved, decidedAt := Some(now))]
                            else old(rows))
                && (decided.Success? <==> rows[id].status !in {Rejected, Expired})
                && (decided.Failure? ==> decided == Failure(NoLongerApprovable))
                && (decided.Success? ==> decided.value == (rows[id], Undecided(old(rows)[id], now)))
    {
      if id !in rows {
        return Failure(Missing);
      }
      var transitioned := false;
      if Decidable(rows[id], now) {
        rows := rows[id := rows[id].(status := Approved, decidedAt := Some(now))];
        transitioned := true;
      }
      if rows[id].status == Rejected || rows[id].status == Expired {
        return Failure(NoLongerApprovable);
      }
      return Success((rows[id], transitioned));
    }

    method Reject(id: ExecutionId, now: Time) returns (decided: Result<(Record, bool), DecisionError>)
      modifies this
      ensures id !in old(rows) ==> decided == Failure(Missing) && rows == old(rows)
      ensures id in old(rows) ==>
                && rows == CloudflareExecution.Reject(old(rows), id, now)
                && rows == (if Undecided(old(rows)[id], now)
                            then old(rows)[id := old(rows)[id].(
                                   status := Rejected, decidedAt := Some(now), completedAt := Some(now),
                                   outcome := Some(DENIED_BY_USER))]
                            else old(rows))
                && (decided.Success? <==> rows[id].status == Rejected)
                && (decided.Failure? ==> decided == Failure(NoLongerRejectable))
                && (decided.Success? ==> decided.value == (rows[id], Undecided(old(rows)[id], now)))
    {
      if id !in rows {
        return Failure(Missing);
      }
      var transitioned := false;
      if Decidable(rows[id], now) {
        rows := rows[id := rows[id].(status := Rejected, decidedAt := Some(now), completedAt := Some(now),
                                     outcome := Some(DENIED_BY_USER))];
        transitioned := true;
      }
      if rows[id].status != Rejected {
        return Failure(NoLongerRejectable);
      }
      return Success((rows[id], transitioned));
    }

    /** The record now executing, or `None` when it was not approved: only one caller is ever given it. */
    method BeginExecution(id: ExecutionId, now: Time) returns (executing: Result<Option<Record>, DecisionError>)
      modifies this
      ensures id !in old(rows) ==> executing == Failure(Missing) && rows == old(rows)
      ensures id in old(rows) ==>
                && rows == CloudflareExecution.BeginExecution(old(rows), id, now)
                && rows == (if old(rows)[id].status == Approved
                            then old(rows)[id := old(rows)[id].(status := Executing, startedAt := Some(now))]
                            else old(rows))
                && executing == Success(if old(rows)[id].status == Approved then Some(rows[id]) else None)
    {
      if id !in rows {
        return Failure(Missing);
      }
      if rows[id].status != Approved {
        return Success(None);
      }
      rows := rows[id := rows[id].(status := Executing, startedAt := Some(now))];
      return Success(Some(rows[id]));
    }

    method Complete(id: ExecutionId, status: Status, outcome: Outcome, now: Time)
      returns (completed: Result<Record, DecisionError>)
      requires status in {Succeeded, Failed, Indeterminate}
      modifies this
      ensures id !in old(rows) ==> completed == Failure(Missing) && rows == old(rows)
      ensures id in old(rows) ==>
                && rows == CloudflareExecution.Complete(old(rows), id, status, outcome, now)
                && rows == (if old(rows)[id].status == Executing
                            then old(rows)[id := old(rows)[id].(
                                   status := status, completedAt := Some(now), outcome := Some(outcome))]
                            else old(rows))
                && completed == Success(rows[id])
    {
      if id !in rows {
        return Failure(Missing);
      }
      if rows[id].status == Executing {
        rows := rows[id := rows[id].(status := status, completedAt := Some(now), outcome := Some(outcome))];
      }
      return Success(rows[id]);
    }

    method FailApproved(id: ExecutionId, outcome: Outcome, now: Time) returns (failed: Result<Record, DecisionError>)
      modifies this
      ensures id !in old(rows) ==> failed == Failure(Missing) && rows == old(rows)
      ensures id in old(rows) ==>
                && rows == CloudflareExecution.FailApproved(old(rows), id, outcome, now)
                && rows == (if old(rows)[id].status == Approved
                            then old(rows)[id := old(rows)[id].(
                                   status := Status.Failed, completedAt := Some(now), outcome := Some(outcome))]
                            else old(rows))
                && failed == Success(rows[id])
    {
      if id !in rows {
        return Failure(Missing);
      }
      if rows[id].status == Approved {
        rows := rows[id := rows[id].(status := Failed, completedAt := Some(now), outcome := Some(outcome))];
      }
      return Success(rows[id]);
    }

    /** Whatever was recovered under this digest is over afterwards, and what was over stays as it was. */
    method RecoverIndeterminate(id: ExecutionId, expected: Digest, now: Time)
      returns (recovered: Result<Record, DecisionError>)
      modifies this
      ensures id !in old(rows) ==> recovered == Failure(Missing) && rows == old(rows)
      ensures id in old(rows) ==>
                && rows == CloudflareExecution.RecoverIndeterminate(old(rows), id, expected, now)
                && rows == (if old(rows)[id].digest == expected
                                 && old(rows)[id].status in {AwaitingApproval, Approved, Executing}
                            then old(rows)[id := old(rows)[id].(
                                   status := Indeterminate, completedAt := Some(now), outcome := Some(INTERRUPTED))]
                            else old(rows))
                && recovered == Success(rows[id])
                && (rows[id].digest == expected ==> IsTerminal(rows[id].status))
                && (IsTerminal(old(rows)[id].status) ==> rows == old(rows))
    {
      if id !in rows {
        return Failure(Missing);
      }
      var record := rows[id];
      if record.digest == expected && record.status in {AwaitingApproval, Approved, Executing} {
        rows := rows[id := record.(status := Indeterminate, completedAt := Some(now), outcome := Some(INTERRUPTED))];
      }
      return Success(rows[id]);
    }

    /** Those of one command that are held. */
    function HeldOf(toolCallId: string): set<ExecutionId>
      reads this
    {
      set id | id in rows && rows[id].toolCallId == toolCallId && Held(rows[id])
    }

    method WithdrawHeld(toolCallId: string, now: Time) returns (withdrawn: bool)
      modifies this
      ensures rows == CloudflareExecution.WithdrawHeld(old(rows), toolCallId, now)
      ensures rows.Keys == old(rows).Keys && forall id <- rows ::
                var r := old(rows)[id];
                rows[id] == if r.toolCallId == toolCallId && r.status == AwaitingApproval && r.leftWaitingAt.None?
                            then r.(status := Expired, completedAt := Some(now), outcome := Some(STOPPED)) else r
      ensures withdrawn <==> old(HeldOf(toolCallId)) != {}
    {
      ghost var before := rows;
      var held := HeldOf(toolCallId);
      var left := held;
      while left != {}
        invariant left <= held && rows.Keys == before.Keys
        invariant forall id | id in rows ::
                    rows[id] == if id in held - left then Ended(before[id], Expired, STOPPED, now) else before[id]
        decreases left
      {
        var id :| id in left;
        rows := rows[id := rows[id].(status := Expired, completedAt := Some(now), outcome := Some(STOPPED))];
        left := left - {id};
      }
      withdrawn := held != {};
      WithdrawnExactly(before, rows, toolCallId, held, now);
    }

    method LeaveInChat(toolCallId: string, only: Option<ExecutionId>, now: Time) returns (leftOne: bool)
      modifies this
      ensures rows == CloudflareExecution.LeaveInChat(old(rows), toolCallId, only, now)
      ensures rows.Keys == old(rows).Keys && forall id <- rows ::
                var r := old(rows)[id];
                rows[id] == if r.toolCallId == toolCallId && r.status == AwaitingApproval && r.leftWaitingAt.None?
                               && (only.Some? ==> only.value == id)
                            then r.(leftWaitingAt := Some(now)) else r
      ensures leftOne <==> exists id | id in old(rows) ::
                old(rows)[id].toolCallId == toolCallId && Held(old(rows)[id]) && (only.None? || only.value == id)
    {
      ghost var before := rows;
      var held := set id | id in rows && rows[id].toolCallId == toolCallId && Held(rows[id])
                               && (only.None? || only.value == id);
      var left := held;
      while left != {}
        invariant left <= held && rows.Keys == before.Keys
        invariant forall id | id in rows ::
                    rows[id] == if id in held - left then before[id].(leftWaitingAt := Some(now)) else before[id]
        decreases left
      {
        var id :| id in left;
        rows := rows[id := rows[id].(leftWaitingAt := Some(now))];
        left := left - {id};
      }
      leftOne := held != {};
      LeftExactly(before, rows, toolCallId, only, held, now);
    }

    /** The changes of a command that are in the chat, oldest first. */
    method LeftInChatBy(toolCallId: string) returns (ids: seq<ExecutionId>)
      ensures OldestFirst(rows, ids)
      ensures forall id :: id in ids <==>
          id in rows && rows[id].toolCallId == toolCallId && rows[id].leftWaitingAt.Some?
    {
      var all := set id | id in rows && rows[id].toolCallId == toolCallId && rows[id].leftWaitingAt.Some?;
      var unlisted := all;
      ids := [];
      while unlisted != {}
        invariant unlisted <= all && forall id :: id in ids <==> id in all && id !in unlisted
        invariant OldestFirst(rows, ids)
        invariant forall id <- ids, later <- unlisted :: rows[id].createdAt <= rows[later].createdAt
        decreases unlisted
      {
        var oldest := Oldest(unlisted);
        ids := ids + [oldest];
        unlisted := unlisted - {oldest};
      }
    }

    method Oldest(ids: set<ExecutionId>) returns (oldest: ExecutionId)
      requires ids != {} && ids <= rows.Keys
      ensures oldest in ids && forall id <- ids :: rows[oldest].createdAt <= rows[id].createdAt
    {
      oldest :| oldest in ids;
      var unseen := ids - {oldest};
      while unseen != {}
        invariant unseen <= ids && oldest in ids
        invariant forall id <- ids - unseen :: rows[oldest].createdAt <= rows[id].createdAt
        decreases unseen
      {
        var id :| id in unseen;
        if rows[id].createdAt < rows[oldest].createdAt {
          oldest := id;
        }
        unseen := unseen - {id};
      }
    }
  }

  /** Each once, in the order in which they were proposed. */
  predicate OldestFirst(rows: Rows, ids: seq<ExecutionId>) {
    && (forall id <- ids :: id in rows)
    && forall i, j | 0 <= i < j < |ids| :: ids[i] != ids[j] && rows[ids[i]].createdAt <= rows[ids[j]].createdAt
  }

  /** What a command's output lists: a change in the chat, or one filed for the admins of the team, by its number. */
  datatype CommandChange = InChat(change: ChatChange) | Filed(number: nat)

  function Listed(rows: Rows, ids: seq<ExecutionId>): seq<CommandChange>
    requires forall id <- ids :: id in rows
  {
    seq(|ids|, i requires 0 <= i < |ids| => InChat(ChatCloudflareChange(rows[ids[i]])))
  }

  /** The agent's part when a command ends: the repository, and what each running command filed. */
  class CommandOutputs {
    const repository: Repository
    var filed: map<string, seq<CommandChange>>

    constructor (repository: Repository)
      ensures this.repository == repository && filed == map[]
    {
      this.repository := repository;
      filed := map[];
    }

    /**
     * What a command's output lists when it ends: every change of it that is in the chat, decided or not, oldest first,
     * and then what it filed, which is listed this once.
     */
    method SettleCommandChanges(toolCallId: string, stopped: bool, now: Time, later: Time)
      returns (ids: seq<ExecutionId>, listed: seq<CommandChange>)
      modifies repository, this`filed
      ensures
        var ended := if stopped then CloudflareExecution.WithdrawHeld(old(repository.rows), toolCallId, now)
                     else CloudflareExecution.LeaveInChat(old(repository.rows), toolCallId, None, now);
        repository.rows == if old(repository.HeldOf(toolCallId)) == {} then ended
                           else CloudflareExecution.LeaveOverdueInChat(ended, later)
      ensures OldestFirst(repository.rows, ids)
      ensures forall id :: id in ids <==>
                && id in repository.rows && repository.rows[id].toolCallId == toolCallId
                && repository.rows[id].leftWaitingAt.Some?
      ensures listed == Listed(repository.rows, ids)
                      + if toolCallId in old(filed) then old(filed)[toolCallId] else []
      ensures filed == old(filed) - {toolCallId}
    {
      ghost var before, held := repository.rows, repository.HeldOf(toolCallId);
      assert forall id :: id in held <==> id in before && before[id].toolCallId == toolCallId && Held(before[id]);
      var settled: bool;
      if stopped {
        settled := repository.WithdrawHeld(toolCallId, now);
      } else {
        settled := repository.LeaveInChat(toolCallId, None, now);
        if settled {
          ghost var id :| id in before && before[id].toolCallId == toolCallId && Held(before[id]);
          assert id in held;
        }
      }
      assert settled <==> held != {};
      if settled {
        repository.LeaveOverdueInChat(later);
      }
      ids := repository.LeftInChatBy(toolCallId);
      listed := Listed(repository.rows, ids) + if toolCallId in filed then filed[toolCallId] else [];
      filed := filed - {toolCallId};
    }
  }

  lemma WithdrawnExactly(before: Rows, after: Rows, toolCallId: string, held: set<ExecutionId>, now: Time)
    requires after.Keys == before.Keys
    requires held == set id | id in before && before[id].toolCallId == toolCallId && Held(before[id])
    requires forall id | id in after ::
               after[id] == if id in held then Ended(before[id], Expired, STOPPED, now) else before[id]
    ensures after == WithdrawHeld(before, toolCallId, now)
  {
    assert forall id | id in before :: id in held <==> before[id].toolCallId == toolCallId && Held(before[id]);
  }

  lemma LeftExactly(
    before: Rows, after: Rows, toolCallId: string, only: Option<ExecutionId>, held: set<ExecutionId>, now: Time)
    requires after.Keys == before.Keys
    requires held == set id | id in before && before[id].toolCallId == toolCallId && Held(before[id])
                              && (only.None? || only.value == id)
    requires forall id | id in after ::
               after[id] == if id in held then before[id].(leftWaitingAt := Some(now)) else before[id]
    ensures after == LeaveInChat(before, toolCallId, only, now)
    ensures held != {} <==>
            exists id | id in before ::
              before[id].toolCallId == toolCallId && Held(before[id]) && (only.None? || only.value == id)
  {
    assert forall id | id in before ::
      id in held <==> before[id].toolCallId == toolCallId && Held(before[id]) && (only.None? || only.value == id);
  }
}
