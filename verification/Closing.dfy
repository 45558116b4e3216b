/**
 * Closing a conversation while editor saves are under way (app/agents/conversation-agent.ts, `closeForSuccessor`,
 * `applyWorkspaceClientChanges`, `applyClientChanges`, `settledWithin`): any number of saves and of closings, whose
 * stretches between awaits take turns in any order. That a newer conversation took over is recorded for good; that the
 * chat was deleted is taken back only for one that never held a message.
 */
module Closing {
  import opened Wrappers

  type SaveId = nat
  type CloserId = nat

  /** A save: asking whether the conversation is closed, told so, at the workspace, applied there, over. */
  datatype SaveStage = Asking | Told(refused: bool) | Applying | Applied | Settled

  /**
   * A closing: reading whose conversation this is, asking whether it is closed, stopping the turn, waiting for the
   * saves it took down, returned; or returned at once because nobody's active conversation was found; or thrown.
   */
  datatype CloserStage =
    | Hydrating | AskingClosed | Stopping | Waiting(taken: set<SaveId>) | Returned | ReturnedEarly | Thrown

  /**
   * `stored`: the agent has an identity. `applied` is the workspace's history: the saves it took, in order. `closed`,
   * `deleted` and `hasMessages` are what the database says of the conversation and its chat.
   */
  datatype Agent = Agent(
    stored: bool, closed: bool, deleted: bool, hasMessages: bool,
    saves: map<SaveId, SaveStage>, runningSaves: set<SaveId>, closers: map<CloserId, CloserStage>, applied: seq<SaveId>)

  const NEW_AGENT := Agent(false, false, false, false, map[], {}, map[], [])

  datatype Event =
    | IdentityStored
    | MessageSent
    | TakenOver
    | Deleted
    | Revived
    | SaveBegun(save: SaveId)
    | ClosedRead(save: SaveId)
    | SaveResumed(save: SaveId)
    | SaveApplied(save: SaveId)
    | SaveSettled(save: SaveId)
    | SaveFailed(save: SaveId)
    | SaveRemoved(save: SaveId)
    | CloseBegun(closer: CloserId)
    | IdentityRead(closer: CloserId)
    | CloseRead(closer: CloserId)
    | TurnStopped(closer: CloserId)
    | CloseReturned(closer: CloserId)
    | CloseTimedOut(closer: CloserId)
    | CloseFailed(closer: CloserId)

  predicate SaveAt(a: Agent, save: SaveId, stage: SaveStage) {
    save in a.saves && a.saves[save] == stage
  }

  predicate CloserAt(a: Agent, closer: CloserId, stage: CloserStage) {
    closer in a.closers && a.closers[closer] == stage
  }

  /** What `settledWithin` answers before the time is up: at once for no promises, else once all are settled. */
  predicate AllSettled(a: Agent, taken: set<SaveId>) {
    forall save <- taken :: SaveAt(a, save, Settled)
  }

  predicate Enabled(a: Agent, event: Event) {
    match event
    case IdentityStored => true
    case MessageSent => !a.deleted
    case TakenOver => true
    case Deleted => true
    case Revived => a.deleted && !a.hasMessages
    case SaveBegun(s) => s !in a.saves
    // Without an identity the check throws.
    case ClosedRead(s) => SaveAt(a, s, Asking) && a.stored
    case SaveResumed(s) => s in a.saves && a.saves[s].Told?
    case SaveApplied(s) => SaveAt(a, s, Applying)
    case SaveSettled(s) => SaveAt(a, s, Applied)
    case SaveFailed(s) => SaveAt(a, s, Asking) || SaveAt(a, s, Applying)
    case SaveRemoved(s) => SaveAt(a, s, Settled)
    case CloseBegun(c) => c !in a.closers
    case IdentityRead(c) => CloserAt(a, c, Hydrating)
    case CloseRead(c) => CloserAt(a, c, AskingClosed)
    case TurnStopped(c) => CloserAt(a, c, Stopping)
    case CloseReturned(c) => c in a.closers && a.closers[c].Waiting? && AllSettled(a, a.closers[c].taken)
    case CloseTimedOut(c) => c in a.closers && a.closers[c].Waiting? && a.closers[c].taken != {}
    case CloseFailed(c) => c in a.closers && a.closers[c] in {Hydrating, AskingClosed, Stopping}
  }

  function SetSave(a: Agent, save: SaveId, stage: SaveStage): Agent {
    a.(saves := a.saves[save := stage])
  }

  function SetCloser(a: Agent, closer: CloserId, stage: CloserStage): Agent {
    a.(closers := a.closers[closer := stage])
  }

  function Next(a: Agent, event: Event): Agent
    requires Enabled(a, event)
  {
    match event
    case IdentityStored => a.(stored := true)
    case MessageSent => a.(hasMessages := true)
    case TakenOver => a.(closed := true)
    case Deleted => a.(deleted := true)
    case Revived => a.(deleted := false)
    // Counted from before its check: both happen before the first await.
    case SaveBegun(s) => SetSave(a.(runningSaves := a.runningSaves + {s}), s, Asking)
    case ClosedRead(s) => SetSave(a, s, Told(a.closed || a.deleted))
    case SaveResumed(s) => SetSave(a, s, if a.saves[s].refused then Settled else Applying)
    case SaveApplied(s) => SetSave(a.(applied := a.applied + [s]), s, Applied)
    case SaveSettled(s) => SetSave(a, s, Settled)
    case SaveFailed(s) => SetSave(a, s, Settled)
    case SaveRemoved(s) => a.(runningSaves := a.runningSaves - {s})
    case CloseBegun(c) => SetCloser(a, c, if a.stored then Hydrating else ReturnedEarly)
    // Of a deleted chat no transcript is found: the identity stored names nothing.
    case IdentityRead(c) => SetCloser(a, c, if a.deleted then ReturnedEarly else AskingClosed)
    // Of a deleted chat the database says that it is not closed.
    case CloseRead(c) => SetCloser(a, c, if a.closed && !a.deleted then Stopping else Thrown)
    case TurnStopped(c) => SetCloser(a, c, Waiting(a.runningSaves))
    case CloseReturned(c) => SetCloser(a, c, Returned)
    case CloseTimedOut(c) => SetCloser(a, c, Thrown)
    case CloseFailed(c) => SetCloser(a, c, Thrown)
  }

  /** The save was told that the conversation is current, and the workspace may yet take it. */
  predicate MayApply(stage: SaveStage) {
    stage == Told(false) || stage == Applying
  }

  predicate SomeMayApply(a: Agent) {
    exists s <- a.saves :: MayApply(a.saves[s])
  }

  predicate Inv(a: Agent) {
    && a.runningSaves <= a.saves.Keys
    && (forall s <- a.saves :: a.saves[s] != Settled ==> s in a.runningSaves)
    && (forall c <- a.closers ::
        (a.closers[c].Stopping? || a.closers[c].Waiting? || a.closers[c].Returned?) ==> a.closed)
    && (forall c <- a.closers, s <- a.saves ::
          a.closers[c].Waiting? && MayApply(a.saves[s]) ==> s in a.closers[c].taken)
    && (forall c <- a.closers, s <- a.saves :: a.closers[c].Returned? ==> !MayApply(a.saves[s]))
    && (!a.stored ==> forall s <- a.saves :: a.saves[s] in {Asking, Settled})
  }

  predicate OfCloser(event: Event) {
    || event.CloseBegun? || event.IdentityRead? || event.CloseRead? || event.TurnStopped?
    || event.CloseReturned? || event.CloseTimedOut? || event.CloseFailed?
  }

  predicate SomeReturned(a: Agent) {
    exists c <- a.closers :: a.closers[c].Returned?
  }

  /** The save a step moves, if it moves one, and where to. */
  function MovedTo(a: Agent, event: Event): Option<(SaveId, SaveStage)>
    requires Enabled(a, event)
  {
    match event
    case SaveBegun(s) => Some((s, Asking))
    case ClosedRead(s) => Some((s, Told(a.closed || a.deleted)))
    case SaveResumed(s) => Some((s, if a.saves[s].refused then Settled else Applying))
    case SaveApplied(s) => Some((s, Applied))
    case SaveSettled(s) => Some((s, Settled))
    case SaveFailed(s) => Some((s, Settled))
    case _ => None
  }

  /** One save moves, and once the conversation is closed no save is let through that was not before. */
  lemma MovedKeeps(a: Agent, a': Agent, s: SaveId, stage: SaveStage)
    requires Inv(a) && a'.saves == a.saves[s := stage] && a'.closers == a.closers
    requires a'.stored == a.stored && a'.closed == a.closed && a'.runningSaves == a.runningSaves + {s}
    requires MayApply(stage) ==> !a.closed || (s in a.saves && MayApply(a.saves[s]))
    requires !a.stored ==> stage in {Asking, Settled}
    ensures Inv(a')
  {
  }

  lemma SaveMovedKeeps(a: Agent, event: Event)
    requires Inv(a) && Enabled(a, event) && MovedTo(a, event).Some?
    ensures Inv(Next(a, event)) && Next(a, event).closers == a.closers
  {
    var (s, stage) := MovedTo(a, event).value;
    MovedKeeps(a, Next(a, event), s, stage);
  }

  lemma NoSaveMovedKeeps(a: Agent, event: Event)
    requires Inv(a) && Enabled(a, event) && !OfCloser(event) && MovedTo(a, event).None?
    ensures Inv(Next(a, event)) && Next(a, event).closers == a.closers && Next(a, event).applied == a.applied
  {
  }

  lemma SaveEventKeeps(a: Agent, event: Event)
    requires Inv(a) && Enabled(a, event) && !OfCloser(event)
    ensures Inv(Next(a, event)) && Next(a, event).closers == a.closers
    ensures SomeReturned(a) ==> Next(a, event).applied == a.applied
  {
    if MovedTo(a, event).Some? {
      SaveMovedKeeps(a, event);
    } else {
      NoSaveMovedKeeps(a, event);
    }
  }

  lemma CloserMovedKeeps(a: Agent, c: CloserId, stage: CloserStage)
    requires Inv(a)
    requires stage.Stopping? || stage.Waiting? || stage.Returned? ==> a.closed
    requires stage.Waiting? ==> stage.taken == a.runningSaves
    requires stage.Returned? ==> !SomeMayApply(a)
    ensures Inv(SetCloser(a, c, stage))
  {
  }

  lemma WaitedFor(a: Agent, c: CloserId)
    requires Inv(a) && Enabled(a, CloseReturned(c))
    ensures a.closed && !SomeMayApply(a)
  {
    var taken := a.closers[c].taken;
    assert forall s <- taken :: !MayApply(a.saves[s]);
  }

  lemma CloserEventKeeps(a: Agent, event: Event)
    requires Inv(a) && Enabled(a, event) && OfCloser(event)
    ensures Inv(Next(a, event)) && Next(a, event).applied == a.applied
    ensures forall c <- a.closers ::
              a.closers[c].Returned? ==> c in Next(a, event).closers && Next(a, event).closers[c].Returned?
  {
    if event.CloseReturned? {
      WaitedFor(a, event.closer);
    }
    CloserMovedKeeps(a, event.closer, Next(a, event).closers[event.closer]);
  }

  /** Every event keeps the invariant; once a closing returned after waiting, the workspace takes no save. */
  lemma NextKeeps(a: Agent, event: Event)
    requires Inv(a) && Enabled(a, event)
    ensures Inv(Next(a, event))
    ensures SomeReturned(a) ==> Next(a, event).applied == a.applied && SomeReturned(Next(a, event))
  {
    if OfCloser(event) {
      CloserEventKeeps(a, event);
    } else {
      SaveEventKeeps(a, event);
    }
  }

  ghost predicate IsRun(a: Agent, events: seq<Event>)
    decreases |events|
  {
    events == [] || (Enabled(a, events[0]) && IsRun(Next(a, events[0]), events[1..]))
  }

  ghost function Run(a: Agent, events: seq<Event>): Agent
    requires IsRun(a, events)
    decreases |events|
  {
    if events == [] then a else Run(Next(a, events[0]), events[1..])
  }

  lemma {:induction false} RunKeeps(a: Agent, events: seq<Event>)
    requires Inv(a) && IsRun(a, events)
    ensures Inv(Run(a, events))
    ensures SomeReturned(a) ==> Run(a, events).applied == a.applied
    decreases |events|
  {
    if events != [] {
      NextKeeps(a, events[0]);
      RunKeeps(Next(a, events[0]), events[1..]);
    }
  }

  /**
   * If `closeForSuccessor` returns after it waited, every save that was told the conversation is current is over by
   * then, and the workspace takes none of this conversation's saves ever after.
   */
  lemma NothingAppliedAfterClosing(events: seq<Event>, later: seq<Event>, c: CloserId)
    requires IsRun(NEW_AGENT, events) && CloserAt(Run(NEW_AGENT, events), c, Returned)
    requires IsRun(Run(NEW_AGENT, events), later)
    ensures
      var a := Run(NEW_AGENT, events);
      && Run(a, later).applied == a.applied
      && !SomeMayApply(a)
  {
    RunKeeps(NEW_AGENT, events);
    RunKeeps(Run(NEW_AGENT, events), later);
  }

  // ---------- Returning early ----------

  /** No save will ever be told that the conversation is current: it is closed, or deleted for good. */
  predicate Over(a: Agent) {
    a.closed || (a.deleted && a.hasMessages)
  }

  lemma OverStays(a: Agent, event: Event)
    requires Over(a) && !SomeMayApply(a) && Enabled(a, event)
    ensures Over(Next(a, event)) && !SomeMayApply(Next(a, event)) && Next(a, event).applied == a.applied
  {
    var a' := Next(a, event);
    assert forall s <- a'.saves :: MayApply(a'.saves[s]) ==> s in a.saves && MayApply(a.saves[s]);
  }

  lemma {:induction false} OverAppliesNothing(a: Agent, later: seq<Event>)
    requires Over(a) && !SomeMayApply(a) && IsRun(a, later)
    ensures Run(a, later).applied == a.applied
    decreases |later|
  {
    if later != [] {
      OverStays(a, later[0]);
      OverAppliesNothing(Next(a, later[0]), later[1..]);
    }
  }

  lemma RunCons(a: Agent, event: Event, rest: seq<Event>)
    requires Enabled(a, event) && IsRun(Next(a, event), rest)
    ensures IsRun(a, [event] + rest) && Run(a, [event] + rest) == Run(Next(a, event), rest)
  {
    assert ([event] + rest)[1..] == rest;
  }

  /** A save that may be applied can be, from here on. */
  lemma ItMayBeApplied(a: Agent, s: SaveId) returns (later: seq<Event>)
    requires s in a.saves && MayApply(a.saves[s])
    ensures IsRun(a, later) && Run(a, later).applied == a.applied + [s]
  {
    var resumed := if a.saves[s] == Applying then a else Next(a, SaveResumed(s));
    RunCons(resumed, SaveApplied(s), []);
    later := [SaveApplied(s)];
    if a.saves[s] != Applying {
      RunCons(a, SaveResumed(s), later);
      later := [SaveResumed(s)] + later;
    }
  }

  /** While the conversation is or may again be current, a new save can be told so and be applied. */
  lemma ANewOneMayBeApplied(a: Agent, s: SaveId) returns (later: seq<Event>)
    requires !Over(a) && s !in a.saves
    ensures IsRun(a, later) && Run(a, later).applied == a.applied + [s]
  {
    var revived := if a.deleted then Next(a, Revived) else a;
    var stored := Next(revived, IdentityStored);
    var begun := Next(stored, SaveBegun(s));
    var told := Next(begun, ClosedRead(s));
    later := ItMayBeApplied(told, s);
    RunCons(begun, ClosedRead(s), later);
    later := [ClosedRead(s)] + later;
    RunCons(stored, SaveBegun(s), later);
    later := [SaveBegun(s)] + later;
    RunCons(revived, IdentityStored, later);
    later := [IdentityStored] + later;
    if a.deleted {
      RunCons(a, Revived, later);
      later := [Revived] + later;
    }
  }

  lemma {:induction false} SomeFreshSave(saves: set<SaveId>) returns (s: SaveId)
    ensures forall other <- saves :: other < s
    decreases |saves|
  {
    if saves == {} {
      return 0;
    }
    var one :| one in saves;
    var rest := SomeFreshSave(saves - {one});
    s := if one < rest then rest else one + 1;
    assert forall other <- saves :: other == one || other in saves - {one};
  }

  ghost predicate NothingMoreIsApplied(a: Agent) {
    forall later | IsRun(a, later) :: Run(a, later).applied == a.applied
  }

  /** In any state: nothing more is ever applied exactly when nothing may be now and the conversation is over. */
  lemma AppliedNoMoreExactly(a: Agent)
    ensures NothingMoreIsApplied(a) <==> !SomeMayApply(a) && Over(a)
  {
    if !SomeMayApply(a) && Over(a) {
      forall later | IsRun(a, later) ensures Run(a, later).applied == a.applied {
        OverAppliesNothing(a, later);
      }
    } else {
      var later: seq<Event>;
      if s :| s in a.saves && MayApply(a.saves[s]) {
        later := ItMayBeApplied(a, s);
      } else {
        var s := SomeFreshSave(a.saves.Keys);
        later := ANewOneMayBeApplied(a, s);
      }
      assert Run(a, later).applied != a.applied;
    }
  }

  /** The closing that reads its identity now finds nobody's active conversation, and returns at once. */
  predicate EarlyReturn(a: Agent, event: Event) {
    (event.CloseBegun? && !a.stored) || (event.IdentityRead? && a.deleted)
  }

  /**
   * What an early return is worth: of a conversation that has a successor, it leaves no save to be applied in any later
   * run if and only if none may be applied when it returns. Of any conversation it must also be over by then.
   */
  lemma EarlyReturnExactly(a: Agent, event: Event)
    requires Enabled(a, event)
    requires event.CloseBegun? || event.IdentityRead?
    ensures EarlyReturn(a, event) <==> CloserAt(Next(a, event), event.closer, ReturnedEarly)
    ensures NothingMoreIsApplied(Next(a, event)) <==> !SomeMayApply(a) && Over(a)
    ensures a.closed ==> (NothingMoreIsApplied(Next(a, event)) <==> !SomeMayApply(a))
  {
    AppliedNoMoreExactly(Next(a, event));
  }

  lemma {:induction false} EarlyOnlyWhenDeleted(a: Agent, events: seq<Event>)
    requires IsRun(a, events) && a.stored && !a.deleted && Deleted !in events
    requires forall c <- a.closers :: !a.closers[c].ReturnedEarly?
    ensures forall c <- Run(a, events).closers :: !Run(a, events).closers[c].ReturnedEarly?
    decreases |events|
  {
    if events != [] {
      EarlyOnlyWhenDeleted(Next(a, events[0]), events[1..]);
    }
  }

  /** Once the identity is stored, a chat that is never deleted never makes a closing return early. */
  lemma NoEarlyReturnUnlessDeleted(events: seq<Event>)
    requires IsRun(NEW_AGENT, [IdentityStored] + events) && Deleted !in events
    ensures forall c <- Run(NEW_AGENT, [IdentityStored] + events).closers ::
              !Run(NEW_AGENT, [IdentityStored] + events).closers[c].ReturnedEarly?
  {
    assert ([IdentityStored] + events)[1..] == events;
    EarlyOnlyWhenDeleted(Next(NEW_AGENT, IdentityStored), events);
  }

  const DELETED_MEANWHILE: seq<Event> :=
    [IdentityStored, SaveBegun(1), ClosedRead(1), SaveResumed(1), TakenOver, Deleted, CloseBegun(2), IdentityRead(2)]

  /** A chat deleted while a save is at the workspace: the closing returns, and then the save is applied. */
  lemma AppliedAfterEarlyReturn(events: seq<Event>)
    requires events == DELETED_MEANWHILE
    ensures IsRun(NEW_AGENT, events)
    ensures
      var a := Run(NEW_AGENT, events);
      && a.closed && CloserAt(a, 2, ReturnedEarly) && a.applied == []
      && IsRun(a, [SaveApplied(1)]) && Run(a, [SaveApplied(1)]).applied == [1]
  {
    var a := DeletedMeanwhile(events);
    AppliesAtOnce(a, 1);
  }

  lemma AppliesAtOnce(a: Agent, s: SaveId)
    requires SaveAt(a, s, Applying)
    ensures IsRun(a, [SaveApplied(s)]) && Run(a, [SaveApplied(s)]).applied == a.applied + [s]
  {
    RunCons(a, SaveApplied(s), []);
  }

  lemma DeletedMeanwhile(events: seq<Event>) returns (a: Agent)
    requires |events| == 8 && events[0] == IdentityStored && events[1] == SaveBegun(1)
    requires events[2] == ClosedRead(1) && events[3] == SaveResumed(1) && events[4] == TakenOver
    requires events[5] == Deleted && events[6] == CloseBegun(2) && events[7] == IdentityRead(2)
    ensures Reaches(events, a) && a.closed && CloserAt(a, 2, ReturnedEarly) && a.applied == []
    ensures SaveAt(a, 1, Applying)
  {
    var saving := SaveReached(events);
    a := Agent(true, true, true, false, map[1 := Applying], {1}, map[2 := ReturnedEarly], []);
    CloseReached(events, saving, a);
    assert events[..8] == events;
  }

  lemma SaveReached(events: seq<Event>) returns (a4: Agent)
    requires |events| >= 4 && events[0] == IdentityStored && events[1] == SaveBegun(1)
    requires events[2] == ClosedRead(1) && events[3] == SaveResumed(1)
    ensures a4 == Agent(true, false, false, false, map[1 := Applying], {1}, map[], []) && Reaches(events[..4], a4)
  {
    var a1 := NEW_AGENT.(stored := true);
    var a2 := a1.(saves := map[1 := Asking], runningSaves := {1});
    var a3 := a2.(saves := map[1 := Told(false)]);
    a4 := a2.(saves := map[1 := Applying]);
    SaveSteps(a1, a2, a3, a4);
    assert events[..0] == [];
    ReachOne(events, 0, NEW_AGENT, a1);
    ReachOne(events, 1, a1, a2);
    ReachOne(events, 2, a2, a3);
    ReachOne(events, 3, a3, a4);
  }

  lemma CloseReached(events: seq<Event>, a4: Agent, a8: Agent)
    requires |events| >= 8 && events[4] == TakenOver && events[5] == Deleted
    requires events[6] == CloseBegun(2) && events[7] == IdentityRead(2)
    requires Reaches(events[..4], a4) && a4.stored && a4.closers == map[]
    requires a8 == a4.(closed := true, deleted := true, closers := map[2 := ReturnedEarly])
    ensures Reaches(events[..8], a8)
  {
    var a5 := a4.(closed := true);
    var a6 := a5.(deleted := true);
    var a7 := a6.(closers := map[2 := Hydrating]);
    CloseSteps(a6, a7, a8);
    ReachOne(events, 4, a4, a5);
    ReachOne(events, 5, a5, a6);
    ReachOne(events, 6, a6, a7);
    ReachOne(events, 7, a7, a8);
  }

  ghost predicate Reaches(events: seq<Event>, a: Agent) {
    IsRun(NEW_AGENT, events) && Run(NEW_AGENT, events) == a
  }

  lemma ReachOne(events: seq<Event>, n: nat, a: Agent, a': Agent)
    requires n < |events| && Reaches(events[..n], a) && Enabled(a, events[n]) && a' == Next(a, events[n])
    ensures Reaches(events[..n + 1], a')
  {
    assert events[..n + 1] == events[..n] + [events[n]];
    RunSnoc(NEW_AGENT, events[..n], events[n]);
  }

  lemma {:induction false} RunSnoc(a: Agent, events: seq<Event>, event: Event)
    requires IsRun(a, events) && Enabled(Run(a, events), event)
    ensures IsRun(a, events + [event]) && Run(a, events + [event]) == Next(Run(a, events), event)
    decreases |events|
  {
    if events == [] {
      assert [event][1..] == [];
    } else {
      assert (events + [event])[1..] == events[1..] + [event];
      RunSnoc(Next(a, events[0]), events[1..], event);
    }
  }

  lemma SaveSteps(a1: Agent, a2: Agent, a3: Agent, a4: Agent)
    requires a1 == NEW_AGENT.(stored := true) && a2 == a1.(saves := map[1 := Asking], runningSaves := {1})
    requires a3 == a2.(saves := map[1 := Told(false)]) && a4 == a2.(saves := map[1 := Applying])
    ensures Enabled(a1, SaveBegun(1)) && a2 == Next(a1, SaveBegun(1))
    ensures Enabled(a2, ClosedRead(1)) && a3 == Next(a2, ClosedRead(1))
    ensures Enabled(a3, SaveResumed(1)) && a4 == Next(a3, SaveResumed(1))
  {
  }

  lemma CloseSteps(a6: Agent, a7: Agent, a8: Agent)
    requires a6.stored && a6.deleted && a6.closers == map[]
    requires a7 == a6.(closers := map[2 := Hydrating]) && a8 == a6.(closers := map[2 := ReturnedEarly])
    ensures Enabled(a6, CloseBegun(2)) && a7 == Next(a6, CloseBegun(2))
    ensures Enabled(a7, IdentityRead(2)) && a8 == Next(a7, IdentityRead(2))
  {
  }

  // ---------- The agent's own part ----------

  /**
   * The fields the agent keeps, and each stretch of the source between two awaits as a method. `agent` is everything
   * that happened, the database's and the workspace's part included: it is what they answer from.
   */
  class ConversationSaves {
    var runningSaves: set<SaveId>
    var conversationClosed: bool
    var agent: Agent

    ghost predicate Valid()
      reads this
    {
      runningSaves == agent.runningSaves && (conversationClosed ==> agent.closed) && Inv(agent)
    }

    constructor ()
      ensures Valid() && agent == NEW_AGENT
    {
      runningSaves, conversationClosed, agent := {}, false, NEW_AGENT;
    }

    /** The database, the workspace and failed calls. */
    predicate Elsewhere(event: Event) {
      event.CloseFailed? || (!OfCloser(event) && !event.SaveBegun? && !event.SaveResumed? && !event.SaveRemoved?)
    }

    method Meanwhile(event: Event)
      requires Valid() && Enabled(agent, event) && Elsewhere(event)
      modifies this`agent
      ensures Valid() && agent == Next(old(agent), event)
    {
      NextKeeps(agent, event);
      agent := Next(agent, event);
    }

    /** Whoever asks which saves run from now on is told of this one. */
    method BeginSave(save: SaveId)
      requires Valid() && save !in agent.saves
      modifies this
      ensures Valid() && agent == Next(old(agent), SaveBegun(save))
      ensures save in runningSaves && conversationClosed == old(conversationClosed)
    {
      NextKeeps(agent, SaveBegun(save));
      agent := Next(agent, SaveBegun(save));
      runningSaves := runningSaves + {save};
    }

    /** The database answered: a save of a closed or deleted conversation is refused, another may be applied. */
    method ResumeSave(save: SaveId, closed: bool) returns (refused: bool)
      requires Valid() && SaveAt(agent, save, Told(closed))
      modifies this`agent
      ensures Valid() && agent == Next(old(agent), SaveResumed(save))
      ensures refused == !MayApply(agent.saves[save])
      ensures SomeReturned(old(agent)) ==> refused
    {
      NextKeeps(agent, SaveResumed(save));
      agent := Next(agent, SaveResumed(save));
      refused := closed;
    }

    method RemoveSave(save: SaveId)
      requires Valid() && SaveAt(agent, save, Settled)
      modifies this
      ensures Valid() && agent == Next(old(agent), SaveRemoved(save))
      ensures forall s <- agent.saves :: agent.saves[s] != Settled ==> s in runningSaves
      ensures conversationClosed == old(conversationClosed)
    {
      NextKeeps(agent, SaveRemoved(save));
      agent := Next(agent, SaveRemoved(save));
      runningSaves := runningSaves - {save};
    }

    /** Without an identity the closing is over at once. */
    method BeginClose(closer: CloserId, stored: bool) returns (returned: bool)
      requires Valid() && closer !in agent.closers && stored == agent.stored
      modifies this`agent
      ensures Valid() && agent == Next(old(agent), CloseBegun(closer))
      ensures returned <==> CloserAt(agent, closer, ReturnedEarly)
      ensures returned ==> !SomeMayApply(agent)
    {
      NextKeeps(agent, CloseBegun(closer));
      agent := Next(agent, CloseBegun(closer));
      returned := !stored;
    }

    /** Nor does one that finds no active transcript wait: a save may then still be applied. */
    method ResumeClose(closer: CloserId, active: bool) returns (returned: bool)
      requires Valid() && CloserAt(agent, closer, Hydrating) && active == !agent.deleted
      modifies this`agent
      ensures Valid() && agent == Next(old(agent), IdentityRead(closer))
      ensures returned <==> CloserAt(agent, closer, ReturnedEarly)
      ensures returned ==> (NothingMoreIsApplied(agent) <==> !SomeMayApply(old(agent)) && Over(old(agent)))
    {
      NextKeeps(agent, IdentityRead(closer));
      EarlyReturnExactly(agent, IdentityRead(closer));
      agent := Next(agent, IdentityRead(closer));
      returned := !active;
    }

    /** From here on no save is told that the conversation is current. */
    method ShowClosed(closer: CloserId, closed: bool) returns (threw: bool)
      requires Valid() && CloserAt(agent, closer, AskingClosed) && closed == (agent.closed && !agent.deleted)
      modifies this
      ensures Valid() && agent == Next(old(agent), CloseRead(closer))
      ensures (threw <==> CloserAt(agent, closer, Thrown)) && (!threw <==> CloserAt(agent, closer, Stopping))
      ensures !threw ==> conversationClosed && Over(agent)
      ensures threw ==> conversationClosed == old(conversationClosed)
      ensures runningSaves == old(runningSaves)
    {
      NextKeeps(agent, CloseRead(closer));
      agent := Next(agent, CloseRead(closer));
      if !closed {
        return true;
      }
      if !conversationClosed {
        conversationClosed := true;
      }
      return false;
    }

    /** Every save that may yet be applied is among those the waiter takes down. */
    method TakeRunningSaves(closer: CloserId) returns (taken: set<SaveId>)
      requires Valid() && CloserAt(agent, closer, Stopping)
      modifies this`agent
      ensures Valid() && agent == Next(old(agent), TurnStopped(closer)) && CloserAt(agent, closer, Waiting(taken))
      ensures forall s <- agent.saves :: MayApply(agent.saves[s]) || agent.saves[s] == Asking ==> s in taken
    {
      NextKeeps(agent, TurnStopped(closer));
      agent := Next(agent, TurnStopped(closer));
      taken := runningSaves;
    }

    /** All settled in time, the closing returns, and no save may be applied any more; else it throws. */
    method FinishClose(closer: CloserId, ghost taken: set<SaveId>, settled: bool) returns (threw: bool)
      requires Valid() && CloserAt(agent, closer, Waiting(taken))
      requires if settled then AllSettled(agent, taken) else taken != {}
      modifies this`agent
      ensures Valid()
      ensures agent == Next(old(agent), if settled then CloseReturned(closer) else CloseTimedOut(closer))
      ensures (threw <==> CloserAt(agent, closer, Thrown)) && (!threw <==> CloserAt(agent, closer, Returned))
      ensures !threw ==> NothingMoreIsApplied(agent)
    {
      var event := if settled then CloseReturned(closer) else CloseTimedOut(closer);
      NextKeeps(agent, event);
      agent := Next(agent, event);
      AppliedNoMoreExactly(agent);
      threw := !settled;
    }

    // ---------- Whole calls ----------

    /** One stretch of whoever's turn it is. */
    method Turn(event: Event)
      requires Valid() && Enabled(agent, event)
      modifies this
      ensures Valid() && agent == Next(old(agent), event)
      ensures old(conversationClosed) ==> conversationClosed
    {
      match event {
        case SaveBegun(save) => BeginSave(save);
        case SaveResumed(save) => var _ := ResumeSave(save, agent.saves[save].refused);
        case SaveRemoved(save) => RemoveSave(save);
        case CloseBegun(closer) => var _ := BeginClose(closer, agent.stored);
        case IdentityRead(closer) => var _ := ResumeClose(closer, !agent.deleted);
        case CloseRead(closer) => var _ := ShowClosed(closer, agent.closed && !agent.deleted);
        case TurnStopped(closer) => var _ := TakeRunningSaves(closer);
        case CloseReturned(closer) => var _ := FinishClose(closer, agent.closers[closer].taken, true);
        case CloseTimedOut(closer) => var _ := FinishClose(closer, agent.closers[closer].taken, false);
        case _ => Meanwhile(event);
      }
    }

    /** While a closing awaits, everyone else's stretches happen, in any order; those that cannot happen do not. */
    method Await(closer: CloserId, schedule: seq<Event>, ghost before: seq<Event>, ghost start: Agent)
      returns (ghost happened: seq<Event>)
      requires Valid() && closer in agent.closers && Leads(start, before, agent)
      modifies this
      ensures Valid() && Leads(start, happened, agent)
      ensures CloserAt(agent, closer, old(agent).closers[closer])
      ensures old(conversationClosed) ==> conversationClosed
      ensures CloseFailed(closer) in happened ==> CloseFailed(closer) in before
    {
      happened := before;
      for i := 0 to |schedule|
        invariant Valid() && Leads(start, happened, agent)
        invariant CloserAt(agent, closer, old(agent).closers[closer])
        invariant old(conversationClosed) ==> conversationClosed
        invariant CloseFailed(closer) in happened ==> CloseFailed(closer) in before
      {
        if Enabled(agent, schedule[i]) && !(OfCloser(schedule[i]) && schedule[i].closer == closer) {
          LeadsOn(start, happened, agent, schedule[i]);
          happened := happened + [schedule[i]];
          Turn(schedule[i]);
        }
      }
    }

    /**
     * A whole call of `closeForSuccessor`, with what happens at each of its four awaits. It returns exactly when it
     * waited for the saves it took or found no active conversation, and throws otherwise; once it waited, nothing is
     * ever applied again. A call fails only where one that it awaits does.
     */
    method CloseForSuccessor(closer: CloserId, awaits: seq<seq<Event>>, failing: Option<nat>, late: bool)
      returns (ended: Ended, ghost happened: seq<Event>)
      requires Valid() && closer !in agent.closers && |awaits| == 4
      modifies this
      ensures Valid() && Leads(old(agent), happened, agent)
      ensures ended.Returns? <==> CloserAt(agent, closer, Returned) || CloserAt(agent, closer, ReturnedEarly)
      ensures ended.Throws? <==> CloserAt(agent, closer, Thrown)
      ensures CloserAt(agent, closer, Returned) ==> NothingMoreIsApplied(agent) && conversationClosed
      ensures CloserAt(agent, closer, ReturnedEarly) ==> !agent.stored || agent.deleted
      ensures CloseFailed(closer) in happened ==> failing.Some?
    {
      ghost var start := agent;
      happened := [];
      LeadsOn(start, happened, agent, CloseBegun(closer));
      happened := [CloseBegun(closer)];
      var returned := BeginClose(closer, agent.stored);
      if returned {
        return Returns, happened;
      }
      happened := Await(closer, awaits[0], happened, start);
      if failing == Some(0) {
        happened := Fail(closer, happened, start);
        return Throws, happened;
      }
      LeadsOn(start, happened, agent, IdentityRead(closer));
      happened := happened + [IdentityRead(closer)];
      returned := ResumeClose(closer, !agent.deleted);
      if returned {
        return Returns, happened;
      }
      happened := Await(closer, awaits[1], happened, start);
      if failing == Some(1) {
        happened := Fail(closer, happened, start);
        return Throws, happened;
      }
      ended, happened := CloseFound(closer, awaits, failing, late, happened, start);
    }

    /** The rest of the call, once it found whose conversation this is. */
    method CloseFound(
      closer: CloserId, awaits: seq<seq<Event>>, failing: Option<nat>, late: bool,
      ghost before: seq<Event>, ghost start: Agent)
      returns (ended: Ended, ghost happened: seq<Event>)
      requires Valid() && CloserAt(agent, closer, AskingClosed) && |awaits| == 4 && Leads(start, before, agent)
      modifies this
      ensures Valid() && Leads(start, happened, agent)
      ensures ended.Returns? <==> CloserAt(agent, closer, Returned)
      ensures ended.Throws? <==> CloserAt(agent, closer, Thrown)
      ensures ended.Returns? ==> NothingMoreIsApplied(agent) && conversationClosed
      ensures CloseFailed(closer) in happened ==> CloseFailed(closer) in before || failing.Some?
    {
      LeadsOn(start, before, agent, CloseRead(closer));
      happened := before + [CloseRead(closer)];
      var threw := ShowClosed(closer, agent.closed && !agent.deleted);
      if threw {
        return Throws, happened;
      }
      happened := Await(closer, awaits[2], happened, start);
      if failing == Some(2) {
        happened := Fail(closer, happened, start);
        return Throws, happened;
      }
      ended, happened := WaitForWrites(closer, awaits[3], late, happened, start);
    }

    /** The turn stopped: waits for the saves under way now, up to a time that may be over before they are. */
    method WaitForWrites(
      closer: CloserId, schedule: seq<Event>, late: bool, ghost before: seq<Event>, ghost start: Agent)
      returns (ended: Ended, ghost happened: seq<Event>)
      requires Valid() && CloserAt(agent, closer, Stopping) && Leads(start, before, agent)
      modifies this
      ensures Valid() && Leads(start, happened, agent)
      ensures ended.Returns? <==> CloserAt(agent, closer, Returned)
      ensures ended.Throws? <==> CloserAt(agent, closer, Thrown)
      ensures ended.Returns? ==> NothingMoreIsApplied(agent)
      ensures ended.Returns? <==> AllSettled(agent, old(runningSaves)) && (late ==> old(runningSaves) == {})
      ensures old(conversationClosed) ==> conversationClosed
      ensures CloseFailed(closer) in happened ==> CloseFailed(closer) in before
    {
      LeadsOn(start, before, agent, TurnStopped(closer));
      happened := before + [TurnStopped(closer)];
      var taken := TakeRunningSaves(closer);
      happened := Await(closer, schedule, happened, start);
      var settled := AllSettled(agent, taken) && !(late && taken != {});
      ghost var event := if settled then CloseReturned(closer) else CloseTimedOut(closer);
      LeadsOn(start, happened, agent, event);
      happened := happened + [event];
      var threw := FinishClose(closer, taken, settled);
      ended := if threw then Throws else Returns;
    }

    /** A call that the closing awaited was refused or failed. */
    method Fail(closer: CloserId, ghost before: seq<Event>, ghost start: Agent) returns (ghost happened: seq<Event>)
      requires Valid() && Enabled(agent, CloseFailed(closer)) && Leads(start, before, agent)
      modifies this
      ensures Valid() && Leads(start, happened, agent) && CloserAt(agent, closer, Thrown)
    {
      LeadsOn(start, before, agent, CloseFailed(closer));
      happened := before + [CloseFailed(closer)];
      Meanwhile(CloseFailed(closer));
    }
  }

  /** How a call ends for its caller. */
  datatype Ended = Returns | Throws

  ghost predicate Leads(a: Agent, events: seq<Event>, a': Agent) {
    IsRun(a, events) && Run(a, events) == a'
  }

  lemma LeadsOn(a: Agent, events: seq<Event>, a': Agent, event: Event)
    requires Leads(a, events, a') && Enabled(a', event)
    ensures Leads(a, events + [event], Next(a', event))
  {
    RunSnoc(a, events, event);
  }
}
