# Verified model of the CloudChef builder agent

What the builder agent promises a person who works on a project with it, modelled in Dafny and proved for every
input and every run. `dafny verify dfyconfig.toml` checks the whole project. Nothing here executes the original
program.

The modules, by the part of the system they are about:

- **The chat in the browser.** `ChatView` derives the chat from the entries pi-durable keeps and from what is live
  now. `ChatFrame` is the diff a frame carries and the patch the browser makes of it. `ChatStream` is the class that
  reads new entries, derives, compares only the end of the chat with what it sent last, and sends. `ChatTail` proves
  why the end is enough, `ChatRuns` that over every run the browsers show what they would if the whole chat were
  sent each time. `ChatShown` says what the chat shows of the entries, by their places.
- **Changes to a Cloudflare account.** `CloudflareExecution` is the stored record and its transactions,
  `CloudflareExecutionRepository` the class over the rows, and `CloudflareExecutionFibers` every interleaving of
  decisions, fibers, crashes, recoveries and ended commands: each request is sent once at most, as it was approved.
  `CloudflareExecutionAnswers` is what is stored of a change's end and told of it, and `CloudflareExecutionClaims`
  what does not always hold, with the step that breaks it.
- **Closing a conversation.** `Closing` is the protocol between `closeForSuccessor` and the saves under way.
- **Commits and restores.** `Gitignore` is the matcher and git's rule in plain terms; `WorkspaceRevert` the change
  set that restores a commit and the commit made of a workspace; `WorkspaceVersions` how the two undo each other,
  and when not. Both are stated of any policy, of which the source's excluded roots and secret names are one.
  `WorkspaceRules` says what is restored, committed and ignored of the files themselves.
- **Seeding.** `WorkspaceSeed` is the batching, and an attempt to seed cut off anywhere, against the workspace's own
  contract; `WorkspaceFeed` the reading of a whole workspace while it changes.
- **Busy rows.** `RuntimeActivity` is the queue of writes that tells an upgrade whether work runs.
- **Files and lists.** `FileRead`, `FilePages` and `FileEdit` are the read and edit tools; `ModelSupersession` which
  models the picker leaves out; `EmailSignIn` the sign-in links; `Mp3` how long a clip's audio plays.

Classes and loops are where the source has them: each method is proved equal to a function of its inputs or of the
old state, and the properties are proved about those functions. Where work is split by an `await`, each stretch
between two awaits is one step of a state machine and every order of steps is a run.

## What the proofs found

These are stated as lemmas; the code is modelled as it is.

- A read of the chat that fails loses what it was to send until the next commit: the mark is cleared before the read
  and the error is dropped (`ChatRuns.FailedReadLosesCommit`, `ChatRuns.LossIsReached`).
- Comparing the last two messages rests on the order in which pi-durable commits results; a result two messages late
  would not be shown (`ChatTail.LateResultIsHidden`).
- The parts kept by a frame are as many as possible except for a message that was renamed
  (`ChatFrame.KeepPartsIsMaximalExactly`).
- Two changes of one command can be unsettled at once, one of them left in the chat
  (`CloudflareExecutionClaims.TwoUnsettledReached`), and `CloudflareExecutionClaims.OneUnsettledExactly` says by
  which step; what always holds is `CloudflareExecutionFibers.OneChangeInCommand`.
- That a change recorded as not sent was not sent rests on the idempotency key of its fiber: with a second fiber it
  can be false (`CloudflareExecutionClaims.SecondFiberMayLie`, exactly when
  `CloudflareExecutionClaims.TruthfulExactly`).
- `closeForSuccessor` also returns, without waiting, when the chat was deleted, though its comment says that such an
  agent never started: a save at the workspace is then applied after it returned (`Closing.AppliedAfterEarlyReturn`,
  exactly when `Closing.EarlyReturnExactly`).
- Restoring a version twice may delete what restoring it once kept, when the first deleted or replaced a
  `.gitignore` (`WorkspaceVersions.SecondRevertMayDelete`); `WorkspaceVersions.SecondRevert` says exactly when, and
  `WorkspaceVersions.RulesUntouchedIsEnough` when it cannot.
- A file saved with a mode that is executable for some only is written again by restoring the version just saved
  (`WorkspaceVersions.SavedVersionRestoresToItself`).
- A sixth link can be recorded in an hour when a deletion of rows an hour old, which runs every 15 minutes,
  overtakes a request that read its clock earlier (`EmailSignIn.OvertakenExactly`).
- A model dated before 1970 is left out with nothing newer listed
  (`ModelSupersession.NegativeDateEmptiesItsFamily`).
- Text with LF breaks can put a lone LF or CR into a file of CRLF breaks when it is matched without the fallback
  (`FileEdit.EditKeepsCrlf` says exactly when).
- Two models with one id are both left out when the one supersedes the other
  (`ModelSupersession.SharedIdEmptiesItsFamily`, exactly when `ModelSupersession.KeepsExactly`).
- While only work that was called off before it was recorded is counted, the busy row may say either
  (`RuntimeActivity.RowMaySayIdle`, `RuntimeActivity.RowMaySayBusy`; exactly when
  `RuntimeActivity.DrainedRowIsExact`).

## Model

| member | source | states |
|---|---|---|
| `ChatFrame.ChatFrameChange` | cloudchef-agent/chat-frame.ts:36-65 | The two `while` loops and the overwritten first message compute exactly the specified change, for every pair of chats and every starting point |
| `ChatFrame.PatchInvertsDiff` | cloudchef-agent/chat-frame.ts:36-80 | Patching a chat with the change computed from it gives the next chat, for all chats that agree below the starting point; no change is answered exactly when the two are equal |
| `ChatFrame.SnapshotReplaces` | cloudchef-agent/chat-frame.ts:68-80 | A frame of the whole chat replaces whatever the browser showed |
| `ChatFrame.EmptyChangeKeeps` | app/agents/builder-pi.ts:193-195 | A frame sent only for progress or the busy flag patches in nothing |
| `ChatFrame.FromIsMaximal` | cloudchef-agent/chat-frame.ts:36-50 | Compared from 0, no other frame that keeps what is there and rebuilds the next chat starts at a later message |
| `ChatFrame.KeepPartsIsMaximalExactly` | cloudchef-agent/chat-frame.ts:51-65 | Compared from 0, the parts kept are as many as any frame could keep if and only if the first differing message is not one that was given another id or role while parts of it stayed |
| `ChatView.ChatMessages` | app/agents/builder-chat-view.ts:76-168 | The imperative fold over entries and live state derives the chat of which `ChatShown.ChatShows` says what it shows |
| `ChatView.ToolOutputOverrides` | app/agents/builder-chat-view.ts:58-69 | The last newer output of each call |
| `ChatView.ToolResults` | app/agents/builder-chat-view.ts:80-86 | The last result of each call |
| `ChatView.DoneParts` | app/agents/builder-chat-view.ts:128-142 | The loop pushes the parts of a finished answer, each call rendered as `ChatShown.ShownStands` says it stands |
| `ChatView.StreamingParts` | app/agents/builder-chat-view.ts:149-166 | The parts of the answer being streamed |
| `ChatView.ShowEntry` | app/agents/builder-chat-view.ts:100-147 | One entry extends the messages, the open assistant message and its next id as the specified step does |
| `ChatShown.ChatShows` | app/agents/builder-chat-view.ts:76-168 | Said of the entries by their places: a message for each person's or legacy entry and for each stretch of answers and handoffs between them, named after what comes before it; in it each block with something to read and each tool call once, in order, and no other; each call as `ChatShown.ShownStands` says |
| `ChatShown.ShownStands` | app/agents/builder-chat-view.ts:202-230 | A finished call shows the output of the last entry written over its result; with none, the details or the error text of its last result; with neither, that it runs if and only if a slot of it is not done |
| `ChatShown.EntryIdIsDecimal` | app/agents/builder-chat-view.ts:105-107 | A message of the person is named by its entry's number in decimal |
| `ChatTail.FoldKeepsSettled` | app/agents/builder-chat-view.ts:100-147 | No later entry changes a message below the last one the entries derive |
| `ChatTail.PartialKeepsSettled` | app/agents/builder-chat-view.ts:149-167 | A streamed answer adds at most one message and changes none the entries settled |
| `ChatTail.SkeletonsShareSettled` | app/agents/builder-pi.ts:184-187 | For any extension of the log and any two live states the comparison starts inside the part both chats share |
| `ChatTail.SkippedMessagesAgreeExactly` | app/agents/builder-pi.ts:184-187 | With no assumption on the order of entries: the messages the comparison skips are the same if and only if each call in them is shown the same |
| `ChatTail.TailComparisonSound` | app/agents/builder-pi.ts:184-187 | With no newer tool output and results and running states only for calls of the last derived message, nothing that changed is skipped |
| `ChatTail.OrderedLogKeepsSettled` | app/agents/builder-pi.ts:203-224 | In a log ordered as pi-durable orders it, what is read later never settles a call of an earlier message |
| `ChatTail.LateResultIsHidden` | app/agents/builder-pi.ts:184-187 | A witness that the order is needed: a result that comes two messages late leaves the comparison with nothing to send though the chat changed |
| `ChatStream.BuilderChatStream.Flush` | app/agents/builder-pi.ts:172-181 | Starts a read only when the chat is marked changed and none is under way |
| `ChatStream.BuilderChatStream.ReadNewPage` | app/agents/builder-pi.ts:203-222 | Pushes exactly the entries after the last one read and notes newer tool outputs |
| `ChatStream.BuilderChatStream.EndFlush` | app/agents/builder-pi.ts:183-196 | Derives, compares from the tail or from the start, sends a frame only if something changed, and records what was sent |
| `ChatStream.FlushSays` | app/agents/builder-pi.ts:183-196 | A frame says the busy flag and progress of now; its change starts where the chats first differ, in the last two messages unless it is a first read or a newer output was seen |
| `ChatStream.ProgressIsLive` | app/agents/builder-chat-view.ts:170-179 | Progress is listed for each tool that is not done and has details, once, in order, under its own id and name |
| `ChatRuns.ReadPageFollowsLog` | app/agents/builder-pi.ts:203-224 | The pages of one read together push exactly what the log holds beyond what was read |
| `ChatRuns.FlushPatches` | app/agents/builder-pi.ts:183-196 | At the end of a read the frame sent, or none, takes a browser from the chat last sent to the chat now derived |
| `ChatRuns.SilentExactly` | app/agents/builder-pi.ts:183-196 | Nothing is sent if and only if the chat derived, the busy flag and the progress of every tool give nothing to say |
| `ChatRuns.NextKeeps` | app/agents/builder-pi.ts:95-224 | Every step of server, log, network and browsers keeps the invariant of the protocol |
| `ChatRuns.EveryBrowserShowsTheChat` | app/agents/builder-pi.ts:172-201 | Over every run each connected browser shows, once its frames arrive, what the server last sent, which is the chat derived from a prefix of the log; with nothing outstanding it is the whole conversation |
| `ChatRuns.DiffsRefineWholeChats` | app/agents/builder-pi.ts:172-201 | Over every run each browser shows what it would show if the whole derived chat were sent at the end of each read |
| `ChatRuns.FailedReadLosesMessage` | app/agents/builder-pi.ts:179-200 | The loss is real: after such a read a message the person sent is in the log and shown by no browser |
| `ChatRuns.LossIsReached` | app/agents/builder-pi.ts:95-200 | A run from the start that gets there, with a browser connected |
| `ChatRuns.FailedReadLosesCommit` | app/agents/builder-pi.ts:179-200 | A read that fails after the mark was cleared leaves the browsers on the old chat with nothing scheduled, whatever was committed |
| `CloudflareExecution.UnsettledIsAnsweredWaiting` | app/agents/builder-cloudflare-execution.ts:617-671 | A change is answered `waiting` exactly when it holds up the next one of its command: approved, executing, or awaiting and not left in the chat |
| `CloudflareExecution.StepKeeps` | app/agents/builder-cloudflare-execution.ts:97-420 | Every transaction that only steps records keeps each record well formed: outcome and completion exactly when terminal |
| `CloudflareExecution.DecisionTransactionsStep` | app/agents/builder-cloudflare-execution.ts:172-270 | Approving, rejecting and beginning move a record only along the allowed transitions |
| `CloudflareExecution.EndTransactionsStep` | app/agents/builder-cloudflare-execution.ts:258-285 | Completing and failing end a record once |
| `CloudflareExecution.RecoveryStep` | app/agents/builder-cloudflare-execution.ts:287-308 | Recovery ends a record that is not over as indeterminate, and no other; under which digest is said by `CloudflareExecutionRepository.Repository.RecoverIndeterminate` |
| `CloudflareExecution.CommandTransactionsStep` | app/agents/builder-cloudflare-execution.ts:309-368 | Withdrawing, leaving in the chat and sweeping overdue changes are such steps: what was left in the chat stays so and never expires |
| `CloudflareExecution.ProposeKeepsOnePerCommand` | app/agents/builder-cloudflare-execution.ts:105-149 | A proposal keeps at most one unfinished change of a command that is not left in the chat |
| `CloudflareExecution.OverdueLeftIsDecidable` | app/agents/builder-cloudflare-execution.ts:360-387 | Once overdue changes are left in the chat each awaiting change can be decided |
| `CloudflareExecution.CommandEndSettles` | app/agents/conversation-agent.ts:2311-2323 | After a command ends none of its changes is awaiting inside the command |
| `CloudflareExecutionRepository.Repository.CreateProposal` | app/agents/builder-cloudflare-execution.ts:105-149 | No proposal is made exactly when some change of the command is answered `waiting`; otherwise one record is added, awaiting, with the digest of what is asked and 34 minutes from when it was asked |
| `CloudflareExecutionRepository.Repository.Approve` | app/agents/builder-cloudflare-execution.ts:172-197 | Approves a change that awaits, within its time or in the chat, and changes nothing else; refused if it was rejected or expired |
| `CloudflareExecutionRepository.Repository.Reject` | app/agents/builder-cloudflare-execution.ts:199-230 | Rejects a change that awaits, within its time or in the chat, with its outcome, and changes nothing else; refused if it ended otherwise |
| `CloudflareExecutionRepository.Repository.BeginExecution` | app/agents/builder-cloudflare-execution.ts:232-270 | Moves an approved change to executing, and answers nothing for one already begun or over |
| `CloudflareExecutionRepository.Repository.RecoverIndeterminate` | app/agents/builder-cloudflare-execution.ts:287-308 | Under the approved digest a change that is not over ends as interrupted; under another, or over, nothing changes; a missing one is an error |
| `CloudflareExecutionRepository.Repository.WithdrawHeld` | app/agents/builder-cloudflare-execution.ts:309-332 | The loop over the held changes of a command withdraws exactly those |
| `CloudflareExecutionRepository.Repository.LeaveInChat` | app/agents/builder-cloudflare-execution.ts:333-354 | The loop over the held changes of a command leaves exactly those in the chat |
| `CloudflareExecutionRepository.Repository.Complete` | app/agents/builder-cloudflare-execution.ts:252-270 | An executing change is stored with exactly the status, outcome and time given and every other row stays; otherwise nothing changes; a missing one is an error |
| `CloudflareExecutionRepository.Repository.FailApproved` | app/agents/builder-cloudflare-execution.ts:272-285 | An approved change is stored as failed with the outcome given and every other row stays; otherwise nothing changes; a missing one is an error |
| `CloudflareExecutionRepository.Repository.LeftInChatBy` | app/agents/builder-cloudflare-execution.ts:370-373 | The changes of a command that are in the chat, each once, oldest first |
| `CloudflareExecutionRepository.CommandOutputs.SettleCommandChanges` | app/agents/conversation-agent.ts:2311-2328 | A command that finished leaves its changes in the chat, one that was stopped withdraws them; its output lists those in the chat, oldest first, and then, once, those filed for the team |
| `CloudflareExecutionFibers.FiberNextKeeps` | app/agents/conversation-agent.ts:2526-2579 | Every stretch of a fiber between two awaits keeps the invariant of store, wire and fiber |
| `CloudflareExecutionFibers.NextKeeps` | app/agents/conversation-agent.ts:1131-1205 | Every interleaving of decisions, fibers, crashes, recoveries and commands keeps it, and only moves records forward |
| `CloudflareExecutionFibers.SentAtMostOnce` | app/agents/conversation-agent.ts:2526-2579 | Over every run each request is sent at most once, by the fiber whose own transaction began it, and an awaiting, approved, rejected or expired change was never sent |
| `CloudflareExecutionFibers.SentAsApproved` | app/agents/conversation-agent.ts:2526-2556 | What a fiber sends is the request whose digest was approved, not sent before, for the person and connection it was proposed under |
| `CloudflareExecutionFibers.SentOnlyAsTheSamePerson` | app/agents/conversation-agent.ts:2536-2540 | Over every run a fiber that sends read the identity before, and it was still the same |
| `CloudflareExecutionFibers.OneChangeInCommand` | app/agents/builder-cloudflare-execution.ts:105-149 | In every reachable state a command has at most one unfinished change that is not left in the chat |
| `CloudflareExecutionFibers.TerminalIsAbsorbing` | app/agents/builder-cloudflare-execution.ts:519-523 | From any reachable state on a terminal record never changes, nor does a proposal or when it was left in the chat; one left there never expires |
| `CloudflareExecutionFibers.DecisionsDecide` | app/agents/builder-cloudflare-execution.ts:172-230 | Time alone takes no decision away: a decision that reaches its transaction after verifying always decides, and only for the binding the change was proposed under |
| `CloudflareExecutionClaims.OneUnsettledExactly` | app/agents/builder-cloudflare-execution.ts:401-407 | From any state of a run in which a command has one unsettled change at most, exactly one step leads to two: approving a change left in the chat while another of its command is unsettled |
| `CloudflareExecutionClaims.TwoUnsettledReached` | app/agents/builder-cloudflare-execution.ts:105-149 | The run that gets there |
| `CloudflareExecutionClaims.TruthfulExactly` | app/agents/conversation-agent.ts:2557-2573 | From a state in which nothing recorded as not sent was sent, exactly one step breaks that: a fiber that failed ending a change that another fiber began |
| `CloudflareExecutionClaims.ToldTheTruth` | app/agents/conversation-agent.ts:2526-2579 | Over every run that starts one fiber a change, as the idempotency key asks: a change recorded as rejected, stopped or not sent was never sent |
| `CloudflareExecutionClaims.SecondFiberMayLie` | app/agents/conversation-agent.ts:1161-1171 | Why the key is needed: a run with two fibers of one change, whose second says that nothing was sent of what the first one sent |
| `CloudflareExecutionAnswers.StatusIsOutcome` | app/agents/builder-cloudflare-execution.ts:555-559 | Over every run a change is stored as succeeded if and only if its outcome is Cloudflare's success, as failed if and only if it is a failure or lacking scope, and so on for every status; and what succeeded was sent |
| `CloudflareExecutionAnswers.AnsweredIsStored` | app/agents/conversation-agent.ts:2550-2554 | What Cloudflare answers an executing change is stored as that status and outcome, and no other record changes |
| `CloudflareExecutionAnswers.CaughtIsStored` | app/agents/conversation-agent.ts:2556-2572 | A fiber that fails records that nothing was sent of what was approved or begun, recovers what still waits only under its own digest, and leaves what is over |
| `CloudflareExecutionAnswers.CfIsToldTheOutcome` | app/agents/builder-cloudflare-execution.ts:617-671 | Over every run `cf` is told the outcome stored in Cloudflare's own words where there are any; a status of success by what was sent and succeeded and by no other change that is over; and what it is told was declined or stopped was never sent |
| `CloudflareExecutionAnswers.ChatIsTold` | app/agents/builder-cloudflare-execution.ts:586-610 | Over every run the chat lists a change with its request until it is over, and then with its status and outcome |
| `Closing.NextKeeps` | app/agents/conversation-agent.ts:1326-1356 | Every stretch of any number of saves and closings, with deletions and revivals of the chat between them, keeps the invariant, and none applies a save once a closing returned after waiting |
| `Closing.NothingAppliedAfterClosing` | app/agents/conversation-agent.ts:1335-1350 | If `closeForSuccessor` returns after it waited, no save of the conversation is applied afterwards, in any run |
| `Closing.EarlyReturnExactly` | app/agents/conversation-agent.ts:1330-1334 | It also returns at once when no identity is stored or the chat was deleted. Of a conversation that has a successor that leaves no save to be applied in any later run if and only if none may still be applied then; of any, if and only if it is over too |
| `Closing.AppliedNoMoreExactly` | app/agents/conversation-agent.ts:1362-1380 | In any state nothing more is ever applied if and only if no save told that the conversation is current is left and no other can be told so again |
| `Closing.AppliedAfterEarlyReturn` | app/agents/conversation-agent.ts:1330-1334 | A run in which the chat is deleted while a save is at the workspace: the closing returns, and the save is applied after it |
| `Closing.NoEarlyReturnUnlessDeleted` | app/agents/conversation-agent.ts:1629-1660 | Once the identity is stored, no run without a deletion returns early |
| `Closing.ConversationSaves.BeginSave` | app/agents/conversation-agent.ts:1554-1558 | A save is among those running from its first stretch on, before it asks whether the conversation is closed |
| `Closing.ConversationSaves.ResumeSave` | app/agents/conversation-agent.ts:1564-1567 | It is refused unless it was told that the conversation is current, and always once a closing returned after waiting |
| `Closing.ConversationSaves.RemoveSave` | app/agents/conversation-agent.ts:1559-1561 | Every save not over is still among those running |
| `Closing.ConversationSaves.ResumeClose` | app/agents/conversation-agent.ts:1330-1334 | It returns if and only if the chat was deleted, which is the early return; what that is worth is exact |
| `Closing.ConversationSaves.ShowClosed` | app/agents/conversation-agent.ts:1338-1343 | It throws unless the conversation is closed for good, and else shows that and goes on |
| `Closing.ConversationSaves.TakeRunningSaves` | app/agents/conversation-agent.ts:1353-1356 | Every save that may yet be applied, or may still be told that it may, is among those waited for |
| `Closing.ConversationSaves.FinishClose` | app/agents/conversation-agent.ts:1348-1350 | All settled in time, it returns and nothing more is ever applied; else it throws |
| `Closing.ConversationSaves.CloseForSuccessor` | app/agents/conversation-agent.ts:1326-1350 | A whole call, with whatever happens at each await: it returns if and only if it waited for the saves it took or found nobody's active conversation, throws otherwise, and once it waited nothing is ever applied again |
| `Closing.ConversationSaves.WaitForWrites` | app/agents/conversation-agent.ts:1345-1356 | The wait ends with a return if and only if all the saves it took are settled in time |
| `RuntimeActivity.NextKeeps` | app/agents/builder-runtime-activity.ts:58-188 | Every step of works, the write queue and the database keeps the invariant |
| `RuntimeActivity.AdmittedWorkStaysBusy` | app/agents/builder-runtime-activity.ts:122-164 | From the moment recorded work is admitted until it ends the row is busy and no idle write is in line |
| `RuntimeActivity.RunningCountsLiveWorks` | app/agents/builder-runtime-activity.ts:99-116 | `running` is the number of works begun and not ended, in every run |
| `RuntimeActivity.BuilderRuntimeActivity.BeginWork` | app/agents/builder-runtime-activity.ts:99-116 | Counts work before it is admitted and queues its busy write |
| `RuntimeActivity.BuilderRuntimeActivity.EndWork` | app/agents/builder-runtime-activity.ts:101-108 | Ends a work once, however often it is called |
| `RuntimeActivity.BuilderRuntimeActivity.StartNextWrite` | app/agents/builder-runtime-activity.ts:179-184 | Skips a write exactly when the same state was recorded, and if busy, less than ten minutes ago |
| `RuntimeActivity.BuilderRuntimeActivity.EndWrite` | app/agents/builder-runtime-activity.ts:183-187 | Only a write that succeeded is remembered |
| `RuntimeActivity.SkippedExactly` | app/agents/builder-runtime-activity.ts:179-188 | Over every run a write is skipped if and only if the row already says it and, if it says busy, the last write that succeeded started less than ten minutes ago: a busy row is renewed |
| `RuntimeActivity.RecordedIsLastWrite` | app/agents/builder-runtime-activity.ts:179-188 | What is remembered is the last write of the run that succeeded, with the reading it started at |
| `RuntimeActivity.DrainedRowIsExact` | app/agents/builder-runtime-activity.ts:166-188 | When the queue drained without a failure the row is wrong if and only if no turn runs, some work is counted, all of it called off before it was recorded, and idle was queued last |
| `RuntimeActivity.RowMaySayIdle` | app/agents/builder-runtime-activity.ts:99-116 | A run that gets there: the row says idle while work is counted |
| `RuntimeActivity.RowMaySayBusy` | app/agents/builder-runtime-activity.ts:99-116 | A run with only such work in which the row says busy |
| `Gitignore.GitignoreMatcher.Matches` | app/agents/linked-project-ignore.ts:25-65 | The memoised matcher gives git's answer, as `Gitignore.MatcherIsPlain` says it, whatever was asked before |
| `Gitignore.GitignoreMatcher.DecideDirectory` | app/agents/linked-project-ignore.ts:51-61 | The memo never changes a directory's answer |
| `Gitignore.GitignoreMatcher.DecideLast` | app/agents/linked-project-ignore.ts:33-49 | The backward walk answers what the rule that decides says |
| `Gitignore.DecideIsWalkUp` | app/agents/linked-project-ignore.ts:26-49 | Sorting by depth and walking back decides as walking up from the path, directory by directory |
| `Gitignore.MatchInIs` | app/agents/linked-project-ignore.ts:41-46 | A file says what its last matching rule says, and nothing if and only if none matches |
| `Gitignore.DecideIsRule` | app/agents/linked-project-ignore.ts:26-49 | The backward walk over the sorted files answers what the rule that decides says, for either answer, and nothing if and only if no rule of any file matches |
| `Gitignore.MatcherIsPlain` | app/agents/linked-project-ignore.ts:25-65 | For every path: ignored if and only if some directory it lies in is, or the rule that decides it ignores it: of the deepest directory with a matching rule, the last file's last matching one, asked about the path as seen from there |
| `Gitignore.NothingBelowIsReincluded` | app/agents/linked-project-ignore.ts:63-64 | Nothing below an ignored directory is ever re-included |
| `Gitignore.OwnFileNeverDecides` | app/agents/linked-project-ignore.ts:51-61 | Whether a directory is ignored, its parents' answers included, is up to the files of shorter directories: its own file, and those below it, never decide |
| `Gitignore.OrderAcrossDirectoriesIsFree` | app/agents/linked-project-ignore.ts:26-28 | The answer depends only on what each directory's own files decide |
| `Gitignore.OrderOfFilesIsFree` | app/agents/linked-project-ignore.ts:26-28 | With one file a directory the order of the files does not matter |
| `Gitignore.SortIsStable` | app/agents/linked-project-ignore.ts:26-28 | Files of one directory keep their order |
| `WorkspaceRevert.RevertChanges` | app/agents/linked-project-workspace.ts:133-170 | The two loops and the matcher compute exactly the specified change set |
| `WorkspaceRevert.WorkspaceCommitFiles` | app/agents/linked-project-workspace.ts:94-126 | The loop and the filter compute exactly the specified commit |
| `WorkspaceRevert.RevertTouches` | app/agents/linked-project-workspace.ts:145-170 | No path is both written and deleted, or touched twice, and a file that is already as in the commit is not touched |
| `WorkspaceRevert.RevertRestores` | app/agents/linked-project-workspace.ts:133-170 | Applied, it leaves exactly the commit's files, with their bytes and executable bits, and the excluded, secret and ignored files as they were |
| `WorkspaceRevert.OwnIs` | app/agents/linked-project-workspace.ts:186-188 | A path is a directory's rules file exactly when it is `.gitignore` in it |
| `WorkspaceRules.SparedExactly` | app/agents/linked-project-workspace.ts:139-169 | What a revert spares is secret, or ignored by the `.gitignore` files themselves: the rule that decides is of the deepest directory with a matching one, the commit's file before the workspace's, the last in it |
| `WorkspaceRules.RestoredExactly` | app/agents/linked-project-workspace.ts:133-170 | After a revert each path of the commit holds its bytes and executable bits, a path it lacks is as it was if it is installed, built, secret or so ignored, and no other is left |
| `WorkspaceRules.WrittenExactly` | app/agents/linked-project-workspace.ts:147-164 | A file of the commit is written if and only if the workspace does not hold it, under one of git's two modes |
| `WorkspaceRules.CommittedExactly` | app/agents/linked-project-workspace.ts:94-126 | A commit takes a file if and only if it is not installed or built and is tracked, or neither secret nor ignored by the workspace's own files |
| `WorkspaceRules.ExcludedExactly` | app/agents/linked-project-workspace.ts:19-21 | Installed or built is a root of that name or what lies under it, not what merely starts alike |
| `WorkspaceRules.SecretExactly` | app/agents/linked-project-ignore.ts:10-16 | In whatever directory, secret is a file of one of the two names, or that goes on from one behind a dot, but for the three examples |
| `WorkspaceVersions.SourceRulesArePublic` | app/agents/linked-project-ignore.ts:10-16 | The names the source keeps secret are no rules files, so what is stated of a policy holds of the source's own |
| `WorkspaceVersions.CommitIs` | app/agents/linked-project-workspace.ts:94-126 | A commit holds the tracked files and every other that is no secret, not excluded and not ignored by the workspace's rules, and nothing else |
| `WorkspaceVersions.CombinedIsWorkspace` | app/agents/linked-project-workspace.ts:139-145 | A commit's rules add nothing to a workspace that holds them |
| `WorkspaceVersions.SavedVersionRestoresToItself` | app/agents/linked-project-workspace.ts:94-170 | Restoring the version just saved deletes nothing and changes no bytes, and changes nothing at all if and only if each file saved has a mode git keeps |
| `WorkspaceVersions.SecondRevert` | app/agents/linked-project-workspace.ts:133-170 | Restoring again writes nothing, and does nothing if and only if what was left beside the commit is ignored by the rules that are left |
| `WorkspaceVersions.RestoredVersionSavesToItself` | app/agents/linked-project-workspace.ts:94-170 | Saving a restored workspace gives the commit back under the same condition, and only then |
| `WorkspaceVersions.RulesUntouchedIsEnough` | app/agents/linked-project-workspace.ts:139-170 | The condition holds whenever the revert leaves the workspace's own `.gitignore` files alone |
| `WorkspaceVersions.SecondRevertMayDelete` | app/agents/linked-project-workspace.ts:165-169 | A family of workspaces on which restoring twice deletes what restoring once kept |
| `WorkspaceSeed.SeedBatches` | app/agents/builder-workspace-seed.ts:28-49 | The batches are the entries in order, none empty, each within both caps but for a lone larger file, and each as long as it can be |
| `WorkspaceSeed.BatchesAreUnique` | app/agents/builder-workspace-seed.ts:28-49 | There is exactly one such batching |
| `WorkspaceSeed.AcceptedExactly` | user-workspace-runtime/src/index.ts:833-857 | The workspace accepts the counts sent exactly when no file of an earlier attempt is left that the commit did not replace, and then it holds the commit exactly |
| `WorkspaceSeed.ReadEntries` | app/agents/linked-project-workspace.ts:60-73 | The counts given to `commitSeed` are those of the entries sent |
| `WorkspaceSeed.SeededTree` | app/agents/linked-project-workspace.ts:63-73 | What an initialized workspace holds is the commit's files and no other, each under one of git's two modes |
| `WorkspaceSeed.Workspace.BeginSeed` | user-workspace-runtime/src/index.ts:788-809 | Goes on with a seed under way as it is, and clears any other |
| `WorkspaceSeed.Workspace.CommitSeed` | user-workspace-runtime/src/index.ts:833-857 | Initializes only a workspace with as many files and bytes as were sent |
| `WorkspaceSeed.SendSeed` | app/agents/linked-project-workspace.ts:74-87 | However many calls go through, the workspace is initialized only with the commit's files and its link |
| `WorkspaceSeed.SeedLinkedWorkspace` | app/agents/linked-project-workspace.ts:30-92 | Cut off at any call, lost reply or eviction, an attempt keeps: initialized means linked to the project and holding exactly the linked commit; undisturbed, it succeeds if and only if nothing is left over of an earlier attempt that the commit lacks |
| `WorkspaceFeed.ReadWholeSyncFeed` | app/agents/builder-workspace-seed.ts:53-77 | What is returned is the whole workspace at one revision, held at each call of the last pass; nothing is returned exactly when it changed within each of six passes |
| `WorkspaceFeed.PageRead` | user-workspace-runtime/src/index.ts:996-1049 | Each page of a pass goes on where the one before stopped, or says that the workspace changed |
| `WorkspaceFeed.PageIsLongest` | user-workspace-runtime/src/index.ts:1028-1049 | A page holds the files from where it was asked to go on, within both caps but for a lone larger one, and ends before the last only where one more would not fit |
| `FileRead.LogicalLines` | cloudchef-agent/file-edit.ts:17-34 | The loop over breaks computes the file's lines |
| `FileRead.LinesRebuildTheFile` | cloudchef-agent/file-edit.ts:13-34 | Lines and their breaks are the one way to cut the file after its BOM: LF and CRLF end a line, a lone CR only in a file with no LF |
| `FilePages.ReadFileLines` | cloudchef-agent/file-edit.ts:52-85 | An offset beyond the end and a first line too long are the two errors; else the page has no more lines and octets than it may, and ends before the last line only where one more would be too many of either |
| `FilePages.ReadingTilesTheFile` | cloudchef-agent/file-edit.ts:52-85 | Following `nextOffset` ends and shows each line once, in order, on pages each as long as it can be, if and only if each line alone is within the cap on octets; else it fails at the first that is not |
| `FilePages.PagesAreTheFile` | cloudchef-agent/file-edit.ts:72-84 | The pages joined with LF are the file's lines joined with LF |
| `FilePages.FollowTiles` | cloudchef-agent/file-edit.ts:52-85 | The same from any line on |
| `FilePages.Utf8LengthIs` | cloudchef-agent/file-edit.ts:126-128 | The octets counted are those of the text in UTF-8 |
| `FilePages.Utf8Decodes` | cloudchef-agent/file-edit.ts:126-128 | Which UTF-8 is: the first octet says how many there are, and their bits together are the character |
| `FileEdit.CountOccurrences` | cloudchef-agent/file-edit.ts:118-124 | The loop counts one less than the pieces of the split |
| `FileEdit.ReplaceText` | cloudchef-agent/file-edit.ts:95-116 | The branches, errors and fallback as specified |
| `FileEdit.EditReplacesEach` | cloudchef-agent/file-edit.ts:95-124 | What is looked for is the text as it stands if the file holds it or has no CRLF, else the text with CRLF breaks. A successful edit is the pieces around the text found, none of which holds it, joined with the replacement: as many as counted, the only one without `replaceAll`, with the length that follows; it fails exactly when the text is absent, or ambiguous |
| `FileEdit.SearchIs` | cloudchef-agent/file-edit.ts:99-106 | The fallback to CRLF breaks is taken if and only if the file does not hold the text and has a CRLF, for what is looked for and what replaces it alike |
| `FileEdit.ToCrlfExactly` | cloudchef-agent/file-edit.ts:103-104 | With CRLF breaks is the one text that differs in nothing but breaks and has each LF behind a CR |
| `FileEdit.SplitExactly` | cloudchef-agent/file-edit.ts:112-124 | The pieces counted and joined are the one way to cut the text at each leftmost occurrence after the last |
| `FileEdit.OneIsEach` | cloudchef-agent/file-edit.ts:112-115 | At one occurrence replacing the first and replacing each agree |
| `FileEdit.EditKeepsCrlf` | cloudchef-agent/file-edit.ts:95-116 | Edited with LF text, a file with only CRLF breaks keeps only those if and only if the fallback matched or the replacement keeps the breaks of what it replaced |
| `FileEdit.ScanSaysCrlf` | cloudchef-agent/file-edit.ts:99-103 | What "only CRLF breaks" means: an LF stands exactly after each CR |
| `ModelSupersession.CompareGenerations` | app/lib/workers-ai-model.ts:341-349 | The loop computes the first difference of the zero-padded parts |
| `ModelSupersession.OlderIsLexicographic` | app/lib/workers-ai-model.ts:341-349 | Its sign is the lexicographic order on the parts followed by zeros for ever |
| `ModelSupersession.OlderIsAnOrder` | app/lib/workers-ai-model.ts:341-349 | Not older is a total preorder |
| `ModelSupersession.OlderBuilderModelIds` | app/lib/workers-ai-model.ts:370-411 | The three loops over Maps and the filter give exactly the ids of the models some listed model supersedes |
| `ModelSupersession.KeepsExactly` | app/lib/workers-ai-model.ts:370-411 | Filtering by the ids answered keeps exactly the models none supersedes, if and only if no id is shared by a model that is superseded and one that is not; distinct ids are enough |
| `ModelSupersession.OlderIdsAreGone` | app/lib/workers-ai-model.ts:370-411 | Asked again of the models it keeps, it answers no id |
| `ModelSupersession.CompatibleBuilderModels` | app/lib/.server/llm/workers-ai-model-catalog.ts:274-282 | The models offered are those whose id is not among the answer, and asked again of these nothing is left out |
| `ModelSupersession.LeftOutForAKeptOne` | app/lib/workers-ai-model.ts:370-411 | With distinct ids and no negative date each model left out is superseded by one that is kept |
| `ModelSupersession.FamilySurvives` | app/lib/workers-ai-model.ts:370-411 | With distinct ids a family keeps a model if and only if one that stands for its generation and snapshot is not dated before 1970 |
| `ModelSupersession.NoFamilyIsEmptied` | app/lib/workers-ai-model.ts:370-411 | With distinct ids and no negative date no family is emptied |
| `ModelSupersession.NegativeDateEmptiesItsFamily` | app/lib/workers-ai-model.ts:391-408 | With a negative date one may be: such a model is left out with nothing newer listed |
| `ModelSupersession.SharedIdEmptiesItsFamily` | app/lib/workers-ai-model.ts:398-411 | With a shared id one may be: both models are left out when the one supersedes the other |
| `ModelSupersession.OrderOfModelsIsFree` | app/lib/workers-ai-model.ts:370-411 | The ids answered do not depend on the order of the list, nor on repeats in it |
| `EmailSignIn.Tokens.Start` | app/server-handlers/email-auth.ts:47-70 | Sends and records exactly when fewer than five links in the table were sent to that address in the hour before, in one statement |
| `EmailSignIn.Tokens.Describe` | app/server-handlers/email-auth.ts:89-109 | Names an address exactly while the token's link is in the table, not used and not expired |
| `EmailSignIn.Tokens.Complete` | app/server-handlers/email-auth.ts:111-134 | Signs in exactly when such a link was claimed, and marks it used and no other |
| `EmailSignIn.RecordKeeps` | app/server-handlers/email-auth.ts:47-67 | A link recorded under a reading no older than the last deletion's keeps the limit for every hour, whatever later readings came before it |
| `EmailSignIn.NextKeeps` | app/server-handlers/email-auth.ts:47-135 | Every statement keeps the limit and that each link is used once at most, before it expires |
| `EmailSignIn.AtMostFiveAnHour` | app/server-handlers/email-auth.ts:47-67 | Over every run with readings in any order, at most five links of an address fall in any hour, unless a deletion went by a later reading than a request's |
| `EmailSignIn.UsedStaysUsed` | app/server-handlers/email-auth.ts:121-134 | No later run signs in with a used link again |
| `EmailSignIn.OvertakenExactly` | app/server-handlers/email-auth.ts:47-67 | A deletion and then a request keep the limit whatever was sent before, if and only if the request's reading is no older than the deletion's; else a run records a sixth link within the hour |
| `Mp3.Mp3Seconds` | app/lib/reel-files.ts:74-108 | The loop computes the time of the frames read, or null |
| `Mp3.FrameAdvances` | app/lib/reel-files.ts:86-103 | Each accepted frame is at least 24 bytes, so reading ends |
| `Mp3.HeaderExactly` | app/lib/reel-files.ts:86-99 | A header is read if and only if its bits are those of a layer III frame with a bit rate |
| `Mp3.HeaderSays` | app/lib/reel-files.ts:86-104 | Its frame has twice as many samples in version 1 as in the others and, but for the padding, as many bytes as the bit rate gives in the time they take |
| `Mp3.RatesAreHalved` | app/lib/reel-files.ts:68-72 | The sample rates of version 1, halved for 2 and again for 2.5 |
| `Mp3.FramesTakeTheirTime` | app/lib/reel-files.ts:100-103 | So many frames of one rate play for their samples over it |
| `Mp3.WholeFilePlays` | app/lib/reel-files.ts:74-108 | Two or more whole frames, after an ID3v2 tag or none and before an ID3v1 tag or none, play for exactly the sum of their samples over their rates |
| `Mp3.OnlyFramesPlay` | app/lib/reel-files.ts:83-107 | Whatever plays is two or more frames end to end until none follows, with at most four bytes left, and its time is theirs |

## Left out

- A chat stream started again after pi closed its event stream: it replaces what was sent without a frame, so the
  browser guarantee is for streams that start before their browsers connect; refreshing before the start is not
  modelled either.
- A snapshot for a browser that connects is taken and delivered in order with the frames; the socket itself, the
  delay before a flush and the JSON of a frame are not modelled, nor what a browser does with the progress a frame
  carries.
- A chat part is a value with equality, and a tool result its text already joined and trimmed; reading stored
  entries (their schemas, redacted reasoning) is not modelled.
- CloudflareExecutionFibers.SentAtMostOnce: counts one `send` of the client; the retry inside it after a 401 is part
  of that send. The client throws only before its first request leaves, and a write to the agent's own storage does
  not throw.
- CloudflareExecutionClaims.ToldTheTruth: one fiber a change is the contract of the library's `startFiber` with an
  idempotency key, which is not part of this model.
- Digests are taken as injective, and the stored JSON of records as parsed; credential checks on a proposal's text,
  risk notes and who may approve are left out.
- `decidedAt` before `startedAt` is not claimed: each call reads its clock before it waits.
- Turns after a Stop: the abort is installed after the turn is submitted, so only saves are covered by closing.
- A save or a write that fails is taken to have no later effect, and an eviction, which empties the saves counted as
  running, is not modelled, whether it comes in the middle of a closing or while a save is at the workspace before
  any closing begins.
- A stored identity that names another transcript than the active one is treated as a deleted chat's; a caller who
  is not the owner is refused like a call that fails.
- How a `.gitignore` line becomes a rule is a parameter; a rule is whether it ignores and which paths it matches.
- The workspace takes a write by path; a file and a directory of the same name, and the limits on size and number of
  files, are not modelled. That a revert is refused when the workspace changed meanwhile (its base revision) is left
  to the runtime.
- WorkspaceSeed.SeedLinkedWorkspace: one attempt at a time, as the agent shares the running one; a call of an
  evicted attempt that lands after the next began, and the runtime's lease on operations, are not modelled. A batch
  that fails is written whole or not at all. Reading the repository fails like the call after it.
- RuntimeActivity.AdmittedWorkStaysBusy: is about recorded work; work let in unrecorded after sixty seconds is
  excluded, and the upgrade workflow that reads the rows is not part of this model.
- Strings are sequences of Unicode scalar values, so a lone surrogate is not modelled; `FilePages` counts octets of
  those.
- Labels of models are given as lineages, and their parts are reals, as are seconds of audio: rounding is not
  modelled.
- EmailSignIn.AtMostFiveAnHour: tokens are random, so no two links share a hash; sending the email, rate limits by
  client address and the deletion of an account's links are left out. Old rows are deleted in any batches.
- Titles, reels, site notes, model choice, routes, OAuth and GitHub flows, telemetry and the interface are left out:
  they are network calls and libraries this model has no contract for, or code whose every property is read off its
  body.
