/**
 * Recording that an agent is busy (app/agents/builder-runtime-activity.ts, `BuilderRuntimeActivity`): a first-in,
 * first-out queue of writes of one row, of which a repeated one is skipped, and work counted from before it is
 * admitted until it ends. The stretches between awaits take turns in any order; a failed write has no effect.
 */
module RuntimeActivity {
  import opened Wrappers

  type WorkId = nat
  type Time = int

  /** Ten minutes: how long a busy row may stand before a further busy write renews it. */
  const RUNTIME_BUSY_RENEWAL_MS := 10 * 60_000

  /** A queued write, and the work that awaits it, if any. */
  datatype Write = Write(busy: bool, work: Option<WorkId>)

  datatype Recorded = Recorded(busy: bool, at: Time)

  /** The fields of the class. `line` are the writes not over yet, the first at the database since `writing`. */
  datatype Activity = Activity(
    turnBusy: bool, running: nat, recorded: Option<Recorded>, line: seq<Write>, writing: Option<Time>)

  const NEW_ACTIVITY := Activity(false, 0, None, [], None)

  /** Whether the agent is busy, as `record` computes it. */
  function Busy(a: Activity): bool {
    a.turnBusy || a.running > 0
  }

  function Record(a: Activity, work: Option<WorkId>): Activity {
    a.(line := a.line + [Write(Busy(a), work)])
  }

  function Observe(a: Activity, turnBusy: bool): Activity {
    Record(a.(turnBusy := turnBusy), None)
  }

  /** Counted first; a signal aborted already stops it before it is recorded. */
  function Begin(a: Activity, work: WorkId, aborted: bool): Activity {
    var counted := a.(running := a.running + 1);
    if aborted then counted else Record(counted, Some(work))
  }

  function End(a: Activity): Activity
    requires a.running > 0
  {
    Record(a.(running := a.running - 1), None)
  }

  /** The row already says so, and recently enough. */
  predicate Repeats(a: Activity, busy: bool, now: Time) {
    a.recorded.Some? && a.recorded.value.busy == busy && (!busy || now - a.recorded.value.at < RUNTIME_BUSY_RENEWAL_MS)
  }

  predicate CanStart(a: Activity) {
    a.line != [] && a.writing.None?
  }

  predicate AtDatabase(a: Activity) {
    a.line != [] && a.writing.Some?
  }

  function StartWrite(a: Activity, now: Time): Activity
    requires CanStart(a)
  {
    if Repeats(a, a.line[0].busy, now) then a.(line := a.line[1..]) else a.(writing := Some(now))
  }

  function FinishWrite(a: Activity, ok: bool): Activity
    requires AtDatabase(a)
  {
    a.(line := a.line[1..], writing := None,
       recorded := if ok then Some(Recorded(a.line[0].busy, a.writing.value)) else a.recorded)
  }

  class BuilderRuntimeActivity {
    var turnBusy: bool
    var running: nat
    var recorded: Option<Recorded>
    var writes: seq<Write>
    var writing: Option<Time>

    function State(): Activity
      reads this
    {
      Activity(turnBusy, running, recorded, writes, writing)
    }

    constructor ()
      ensures State() == NEW_ACTIVITY
    {
      turnBusy, running, recorded, writes, writing := false, 0, None, [], None;
    }

    method QueueRecord(work: Option<WorkId>)
      modifies this
      ensures State() == Record(old(State()), work)
    {
      var busy := turnBusy || running > 0;
      writes := writes + [Write(busy, work)];
    }

    method ObserveTurn(busy: bool)
      modifies this
      ensures State() == Observe(old(State()), busy)
      ensures turnBusy == busy && writes == old(writes) + [Write(busy || running > 0, None)]
      ensures running == old(running) && recorded == old(recorded) && writing == old(writing)
    {
      turnBusy := busy;
      QueueRecord(None);
    }

    method BeginWork(work: WorkId, aborted: bool)
      modifies this
      ensures State() == Begin(old(State()), work, aborted)
      ensures running == old(running) + 1
      ensures writes == if aborted then old(writes) else old(writes) + [Write(true, Some(work))]
    {
      running := running + 1;
      if !aborted {
        QueueRecord(Some(work));
      }
    }

    /** The call that ends a work; only its first time counts. */
    method EndWork(ended: bool) returns (ended': bool)
      requires !ended ==> running > 0
      modifies this
      ensures ended' && State() == if ended then old(State()) else End(old(State()))
      ensures !ended ==>
                running + 1 == old(running) && writes == old(writes) + [Write(turnBusy || running > 0, None)]
    {
      if !ended {
        running := running - 1;
        QueueRecord(None);
      }
      ended' := true;
    }

    /** Takes the oldest write: `skipped` when the row already says it, else it goes to the database. */
    method StartNextWrite(now: Time) returns (skipped: bool)
      requires CanStart(State())
      modifies this
      ensures State() == StartWrite(old(State()), now)
      ensures skipped <==>
                && recorded.Some? && recorded.value.busy == old(writes)[0].busy
                && (recorded.value.busy ==> now < recorded.value.at + 10 * 60 * 1000)
      ensures if skipped then State() == old(State()).(line := old(writes)[1..])
              else State() == old(State()).(writing := Some(now))
    {
      var busy := writes[0].busy;
      skipped := recorded.Some? && recorded.value.busy == busy
        && (!busy || now - recorded.value.at < RUNTIME_BUSY_RENEWAL_MS);
      if skipped {
        writes := writes[1..];
      } else {
        writing := Some(now);
      }
    }

    method EndWrite(ok: bool)
      requires AtDatabase(State())
      modifies this
      ensures State() == FinishWrite(old(State()), ok)
      ensures writing.None? && [old(writes)[0]] + writes == old(writes)
      ensures recorded == if ok then Some(Recorded(old(writes)[0].busy, old(writing).value)) else old(recorded)
    {
      if ok {
        recorded := Some(Recorded(writes[0].busy, writing.value));
      }
      writing := None;
      writes := writes[1..];
    }
  }

  // ---------- Every run ----------

  /** A work: refused before it was recorded, its write queued, the write over, running, ended. */
  datatype Stage = Refused | Recording | Decided(recorded: bool) | Running(recorded: bool) | Ended

  /** `marked`: some write of this work succeeded. */
  datatype Work = Work(stage: Stage, marked: bool)

  /**
   * The row in the database, whether the write there was applied yet, and every work. History: the last busy state
   * queued, and whether the last write over had failed.
   */
  datatype World = World(
    activity: Activity, row: bool, applied: bool, works: map<WorkId, Work>, lastQueued: Option<bool>, failed: bool)

  /** The row may hold anything from before this object was loaded. */
  function NewWorld(row: bool): World {
    World(NEW_ACTIVITY, row, false, map[], None, false)
  }

  datatype Event =
    | TurnObserved(busy: bool)
    | Began(work: WorkId, aborted: bool)
    | WriteStarted(now: Time)
    | WriteApplied
    | WriteEnded(ok: bool)
    | WindowClosed(work: WorkId)
    | GaveUp(work: WorkId)
    | Retried(work: WorkId)
    | WorkEnded(work: WorkId)

  predicate Live(w: World, work: WorkId) {
    work in w.works && !w.works[work].stage.Ended?
  }

  predicate Enabled(w: World, event: Event) {
    match event
    case TurnObserved(_) => true
    case Began(work, _) => work !in w.works
    case WriteStarted(_) => CanStart(w.activity)
    case WriteApplied => AtDatabase(w.activity) && !w.applied
    case WriteEnded(ok) => AtDatabase(w.activity) && ok == w.applied
    // It starts only after a write of its own succeeded and the window was read as shut.
    case WindowClosed(work) => work in w.works && w.works[work].stage == Decided(true)
    // Sixty seconds without recording or reading the window: it starts all the same.
    case GaveUp(work) => work in w.works && w.works[work].stage.Decided?
    case Retried(work) => work in w.works && w.works[work].stage.Decided?
    case WorkEnded(work) => Live(w, work) && !w.works[work].stage.Recording?
  }

  function Told(w: World, write: Write, ok: bool): map<WorkId, Work> {
    if write.work.Some? && write.work.value in w.works then
      var work := w.works[write.work.value];
      w.works[write.work.value := Work(Decided(ok), work.marked || ok)]
    else w.works
  }

  function Next(w: World, event: Event): World
    requires Enabled(w, event) && (event.WorkEnded? ==> w.activity.running > 0)
  {
    var a := w.activity;
    match event
    case TurnObserved(busy) => w.(activity := Observe(a, busy), lastQueued := Some(Busy(a.(turnBusy := busy))))
    case Began(work, aborted) =>
      w.(activity := Begin(a, work, aborted),
         works := w.works[work := Work(if aborted then Refused else Recording, false)],
         lastQueued := if aborted then w.lastQueued else Some(true))
    case WriteStarted(now) =>
      if Repeats(a, a.line[0].busy, now)
      then w.(activity := StartWrite(a, now), works := Told(w, a.line[0], true), failed := false)
      else w.(activity := StartWrite(a, now), applied := false)
    case WriteApplied => w.(row := a.line[0].busy, applied := true)
    case WriteEnded(ok) =>
      w.(activity := FinishWrite(a, ok), works := Told(w, a.line[0], ok), applied := false, failed := !ok)
    case WindowClosed(work) => w.(works := w.works[work := w.works[work].(stage := Running(true))])
    case GaveUp(work) =>
      w.(works := w.works[work := w.works[work].(stage := Running(w.works[work].marked))])
    case Retried(work) =>
      w.(activity := Record(a, Some(work)), works := w.works[work := w.works[work].(stage := Recording)],
         lastQueued := Some(Busy(a)))
    case WorkEnded(work) =>
      w.(activity := End(a), works := w.works[work := w.works[work].(stage := Ended)],
         lastQueued := Some(Busy(a.(running := a.running - 1))))
  }

  function LiveWorks(w: World): set<WorkId> {
    set work | work in w.works && Live(w, work)
  }

  /** The last write in line is the last state queued; with none in line the row says it. */
  predicate QueueInv(w: World) {
    var line := w.activity.line;
    && (line != [] ==> w.lastQueued == Some(line[|line| - 1].busy))
    && (line == [] && !w.failed && w.lastQueued.Some? ==> w.row == w.lastQueued.value)
  }

  /** What was last recorded is what the row says, but while a write lands. */
  predicate RowInv(w: World) {
    && (w.applied || w.activity.writing.Some? ==> AtDatabase(w.activity))
    && (if w.applied then w.row == w.activity.line[0].busy
        else w.activity.recorded.Some? ==> w.row == w.activity.recorded.value.busy)
  }

  /** The last state queued counts the turn and every work but the refused ones that came after. */
  predicate CountInv(w: World) {
    && w.activity.running == |LiveWorks(w)|
    && (w.lastQueued == Some(true) ==> Busy(w.activity))
    && (w.activity.turnBusy ==> w.lastQueued == Some(true))
    && (forall work <- w.works :: Live(w, work) && !w.works[work].stage.Refused? ==> w.lastQueued == Some(true))
  }

  predicate AllBusy(line: seq<Write>, from: int) {
    forall k | 0 <= from <= k < |line| :: line[k].busy
  }

  predicate QueuedAt(line: seq<Write>, work: WorkId, k: int) {
    0 <= k < |line| && line[k].work == Some(work) && AllBusy(line, k)
  }

  /** What stands in line after a work was queued is busy; once one of its writes was over and well, so is the row. */
  predicate WorkInv(line: seq<Write>, row: bool, id: WorkId, work: Work) {
    match work.stage
    case Refused => !work.marked
    case Recording => (exists k | 0 <= k < |line| :: QueuedAt(line, id, k)) && (work.marked ==> AllBusy(line, 0) && row)
    case Decided(recorded) => AllBusy(line, 0) && (work.marked ==> row) && (recorded ==> work.marked)
    case Running(recorded) => AllBusy(line, 0) && (work.marked ==> row) && (recorded ==> work.marked)
    case Ended => true
  }

  predicate WorksInv(w: World) {
    forall id <- w.works :: WorkInv(w.activity.line, w.row, id, w.works[id])
  }

  /** A work has one write in line at most, while it waits for it. */
  predicate AwaitedInv(w: World) {
    var line := w.activity.line;
    && (forall k | 0 <= k < |line| && line[k].work.Some? ::
          line[k].work.value in w.works && w.works[line[k].work.value].stage.Recording?)
    && (forall i, j | 0 <= i < j < |line| && line[i].work.Some? :: line[i].work != line[j].work)
  }

  predicate Inv(w: World) {
    QueueInv(w) && RowInv(w) && CountInv(w) && AwaitedInv(w) && WorksInv(w)
  }

  // ---------- Steps ----------

  lemma LiveIsCounted(w: World, work: WorkId)
    requires Live(w, work) && w.activity.running == |LiveWorks(w)|
    ensures w.activity.running > 0
  {
    assert work in LiveWorks(w);
  }

  /** A write queued behind the rest leaves what a work knows. */
  lemma AppendKeepsWork(line: seq<Write>, row: bool, id: WorkId, work: Work, write: Write)
    requires WorkInv(line, row, id, work)
    requires !work.stage.Refused? && !work.stage.Ended? ==> write.busy
    ensures WorkInv(line + [write], row, id, work)
  {
    if work.stage.Recording? {
      var k :| 0 <= k < |line| && QueuedAt(line, id, k);
      assert QueuedAt(line + [write], id, k);
    }
  }

  /** The works once a write of the current state is queued, of which `mover` alone changed stage. */
  lemma AppendKeepsWorks(w: World, w': World, write: Write, mover: Option<WorkId>)
    requires WorksInv(w) && w'.row == w.row && w'.activity.line == w.activity.line + [write]
    requires forall id <- w.works :: Live(w, id) && !w.works[id].stage.Refused? && mover != Some(id) ==> write.busy
    requires forall id <- w'.works :: mover != Some(id) ==> id in w.works && w'.works[id] == w.works[id]
    requires mover.Some? ==>
               && mover.value in w'.works
               && WorkInv(w'.activity.line, w'.row, mover.value, w'.works[mover.value])
    ensures WorksInv(w')
  {
    forall id <- w'.works ensures WorkInv(w'.activity.line, w'.row, id, w'.works[id]) {
      if mover != Some(id) {
        AppendKeepsWork(w.activity.line, w.row, id, w.works[id], write);
      }
    }
  }

  lemma ObservedKeeps(w: World, event: Event)
    requires Inv(w) && Enabled(w, event) && event.TurnObserved?
    ensures Inv(Next(w, event))
  {
    var w' := Next(w, event);
    assert LiveWorks(w') == LiveWorks(w);
    forall id <- w.works ensures Live(w, id) ==> w.activity.running > 0 {
      if Live(w, id) {
        LiveIsCounted(w, id);
      }
    }
    AppendKeepsWorks(w, w', Write(Busy(w'.activity), None), None);
  }

  lemma RetriedKeeps(w: World, event: Event)
    requires Inv(w) && Enabled(w, event) && event.Retried?
    ensures Inv(Next(w, event))
  {
    var w', line := Next(w, event), w.activity.line;
    assert LiveWorks(w') == LiveWorks(w);
    LiveIsCounted(w, event.work);
    assert WorkInv(line, w.row, event.work, w.works[event.work]);
    assert QueuedAt(w'.activity.line, event.work, |line|);
    AppendKeepsWorks(w, w', Write(true, Some(event.work)), Some(event.work));
  }

  lemma BeganIsLive(w: World, event: Event)
    requires Enabled(w, event) && event.Began?
    ensures |LiveWorks(Next(w, event))| == |LiveWorks(w)| + 1
    ensures forall work <- Next(w, event).works :: work != event.work ==>
              work in w.works && Next(w, event).works[work] == w.works[work]
  {
    assert LiveWorks(Next(w, event)) == LiveWorks(w) + {event.work} && event.work !in LiveWorks(w);
  }

  lemma BeganKeepsCount(w: World, event: Event)
    requires CountInv(w) && Enabled(w, event) && event.Began?
    ensures CountInv(Next(w, event))
  {
    BeganIsLive(w, event);
  }

  lemma BeganKeepsWorks(w: World, event: Event)
    requires WorksInv(w) && Enabled(w, event) && event.Began?
    ensures WorksInv(Next(w, event))
  {
    var w', line := Next(w, event), w.activity.line;
    if !event.aborted {
      assert QueuedAt(w'.activity.line, event.work, |line|);
      AppendKeepsWorks(w, w', Write(true, Some(event.work)), Some(event.work));
    }
  }

  lemma BeganKeepsRow(w: World, event: Event)
    requires QueueInv(w) && RowInv(w) && Enabled(w, event) && event.Began?
    ensures QueueInv(Next(w, event)) && RowInv(Next(w, event))
  {
  }

  lemma BeganKeepsAwaited(w: World, event: Event)
    requires AwaitedInv(w) && Enabled(w, event) && event.Began?
    ensures AwaitedInv(Next(w, event))
  {
    assert Next(w, event).activity.line[..|w.activity.line|] == w.activity.line;
  }

  lemma BeganKeeps(w: World, event: Event)
    requires Inv(w) && Enabled(w, event) && event.Began?
    ensures Inv(Next(w, event))
  {
    BeganKeepsCount(w, event);
    BeganKeepsWorks(w, event);
    BeganKeepsRow(w, event);
    BeganKeepsAwaited(w, event);
  }

  lemma EndedCounts(w: World, event: Event)
    requires CountInv(w) && Enabled(w, event) && event.WorkEnded?
    ensures w.activity.running > 0
    ensures CountInv(Next(w, event))
    ensures forall id <- w.works :: Live(w, id) && id != event.work ==> w.activity.running > 1
  {
    LiveIsCounted(w, event.work);
    var w' := Next(w, event);
    assert event.work in LiveWorks(w) && LiveWorks(w') == LiveWorks(w) - {event.work};
    forall id <- w.works | Live(w, id) && id != event.work ensures |LiveWorks(w')| > 0 {
      assert id in LiveWorks(w');
    }
  }

  lemma EndedKeeps(w: World, event: Event)
    requires Inv(w) && Enabled(w, event) && event.WorkEnded?
    ensures w.activity.running > 0 && Inv(Next(w, event))
  {
    EndedCounts(w, event);
    var w' := Next(w, event);
    AppendKeepsWorks(w, w', Write(Busy(w'.activity), None), Some(event.work));
  }

  /** The oldest write is over, well or not: whoever waits for it is told, and the others move up. */
  lemma HeadOverKeepsWorks(w: World, w': World, ok: bool)
    requires AwaitedInv(w) && WorksInv(w) && w.activity.line != []
    requires w'.activity.line == w.activity.line[1..] && w'.row == w.row
    requires ok ==> w.row == w.activity.line[0].busy
    requires w'.works == Told(w, w.activity.line[0], ok)
    ensures WorksInv(w')
  {
    var line, line' := w.activity.line, w'.activity.line;
    forall id <- w'.works ensures WorkInv(line', w'.row, id, w'.works[id]) {
      assert WorkInv(line, w.row, id, w.works[id]);
      assert AllBusy(line, 0) ==> AllBusy(line', 0);
      if w.works[id].stage.Recording? {
        var k :| 0 <= k < |line| && QueuedAt(line, id, k);
        if k > 0 {
          assert line[0].work != Some(id);
          assert QueuedAt(line', id, k - 1);
        }
      }
    }
  }

  lemma HeadOverKeepsRest(w: World, w': World, ok: bool)
    requires AwaitedInv(w) && CountInv(w) && w.activity.line != []
    requires w'.activity.line == w.activity.line[1..] && w'.lastQueued == w.lastQueued
    requires w'.activity.running == w.activity.running && w'.activity.turnBusy == w.activity.turnBusy
    requires w'.works == Told(w, w.activity.line[0], ok)
    ensures AwaitedInv(w') && CountInv(w')
  {
    var line, line' := w.activity.line, w'.activity.line;
    assert forall k | 0 <= k < |line'| :: line'[k] == line[k + 1];
    assert LiveWorks(w') == LiveWorks(w);
  }

  lemma WriteStartedKeeps(w: World, event: Event)
    requires Inv(w) && Enabled(w, event) && event.WriteStarted?
    ensures Inv(Next(w, event))
  {
    var w' := Next(w, event);
    if Repeats(w.activity, w.activity.line[0].busy, event.now) {
      HeadOverKeepsWorks(w, w', true);
      HeadOverKeepsRest(w, w', true);
    } else {
      assert LiveWorks(w') == LiveWorks(w);
    }
  }

  lemma WriteEndedKeeps(w: World, event: Event)
    requires Inv(w) && Enabled(w, event) && event.WriteEnded?
    ensures Inv(Next(w, event))
  {
    HeadOverKeepsWorks(w, Next(w, event), event.ok);
    HeadOverKeepsRest(w, Next(w, event), event.ok);
  }

  lemma WriteAppliedKeeps(w: World)
    requires Inv(w) && Enabled(w, WriteApplied)
    ensures Inv(Next(w, WriteApplied))
  {
    var w' := Next(w, WriteApplied);
    assert LiveWorks(w') == LiveWorks(w);
    forall id <- w'.works ensures WorkInv(w'.activity.line, w'.row, id, w'.works[id]) {
      assert WorkInv(w.activity.line, w.row, id, w.works[id]);
    }
  }

  lemma AdmittedKeeps(w: World, event: Event)
    requires Inv(w) && Enabled(w, event) && (event.WindowClosed? || event.GaveUp?)
    ensures Inv(Next(w, event))
  {
    var w' := Next(w, event);
    assert LiveWorks(w') == LiveWorks(w);
    assert WorkInv(w.activity.line, w.row, event.work, w.works[event.work]);
  }

  /** Every event keeps the invariant. */
  lemma NextKeeps(w: World, event: Event)
    requires Inv(w) && Enabled(w, event)
    ensures event.WorkEnded? ==> w.activity.running > 0
    ensures Inv(Next(w, event))
  {
    match event {
      case TurnObserved(_) => ObservedKeeps(w, event);
      case Retried(_) => RetriedKeeps(w, event);
      case Began(_, _) => BeganKeeps(w, event);
      case WorkEnded(_) => EndedKeeps(w, event);
      case WriteStarted(_) => WriteStartedKeeps(w, event);
      case WriteEnded(_) => WriteEndedKeeps(w, event);
      case WriteApplied => WriteAppliedKeeps(w);
      case _ => AdmittedKeeps(w, event);
    }
  }

  // ---------- Runs ----------

  ghost predicate IsRun(w: World, events: seq<Event>)
    decreases |events|
  {
    events == [] || (
      && Enabled(w, events[0])
      && (events[0].WorkEnded? ==> w.activity.running > 0)
      && IsRun(Next(w, events[0]), events[1..]))
  }

  ghost function Run(w: World, events: seq<Event>): World
    requires IsRun(w, events)
    decreases |events|
  {
    if events == [] then w else Run(Next(w, events[0]), events[1..])
  }

  lemma {:induction false} RunKeeps(w: World, events: seq<Event>)
    requires Inv(w) && IsRun(w, events)
    ensures Inv(Run(w, events))
    decreases |events|
  {
    if events != [] {
      NextKeeps(w, events[0]);
      RunKeeps(Next(w, events[0]), events[1..]);
    }
  }

  /**
   * From the moment a work that was recorded is admitted until it ends the row says busy and every write in line does;
   * and any work one of whose writes succeeded has that from then on.
   */
  lemma AdmittedWorkStaysBusy(row: bool, events: seq<Event>, work: WorkId)
    requires IsRun(NewWorld(row), events) && Live(Run(NewWorld(row), events), work)
    requires
      var it := Run(NewWorld(row), events).works[work];
      it.stage == Running(true) || it.marked
    ensures
      var w := Run(NewWorld(row), events);
      w.row && forall write <- w.activity.line :: write.busy
  {
    RunKeeps(NewWorld(row), events);
    var w := Run(NewWorld(row), events);
    assert WorkInv(w.activity.line, w.row, work, w.works[work]);
  }

  /** `running` counts exactly the works begun and not ended. */
  lemma RunningCountsLiveWorks(row: bool, events: seq<Event>)
    requires IsRun(NewWorld(row), events)
    ensures Run(NewWorld(row), events).activity.running == |LiveWorks(Run(NewWorld(row), events))|
  {
    RunKeeps(NewWorld(row), events);
  }

  /** Nothing is in line, and the last write had not failed. */
  predicate Drained(w: World) {
    w.activity.line == [] && !w.failed && w.lastQueued.Some?
  }

  /** Only work whose signal was aborted before it was recorded is counted, and idle was queued last. */
  predicate OnlyRefused(w: World) {
    && !w.activity.turnBusy && LiveWorks(w) != {} && w.lastQueued == Some(false)
    && forall work <- LiveWorks(w) :: w.works[work].stage.Refused?
  }

  /**
   * Whenever the queue drained and the last write had not failed, the row says busy exactly when a turn or some work
   * runs, except exactly while all the work counted was called off before it was recorded, since the agent was last
   * idle.
   */
  lemma DrainedRowIsExact(row: bool, events: seq<Event>)
    requires IsRun(NewWorld(row), events) && Drained(Run(NewWorld(row), events))
    ensures
      var w := Run(NewWorld(row), events);
      && (w.row != Busy(w.activity) <==> OnlyRefused(w))
      && (w.row ==> Busy(w.activity))
      && (w.activity.turnBusy || (exists work <- w.works :: Live(w, work) && !w.works[work].stage.Refused?) ==> w.row)
  {
    RunKeeps(NewWorld(row), events);
    var w := Run(NewWorld(row), events);
    if w.activity.running > 0 {
      var work :| work in LiveWorks(w);
    }
  }

  // ---------- Writes that are skipped ----------

  lemma {:induction false} RunLast(w: World, events: seq<Event>)
    requires IsRun(w, events) && events != []
    ensures IsRun(w, events[..|events| - 1])
    ensures var before, last := Run(w, events[..|events| - 1]), events[|events| - 1];
            && Enabled(before, last) && (last.WorkEnded? ==> before.activity.running > 0)
            && Run(w, events) == Next(before, last)
    decreases |events|
  {
    if |events| > 1 {
      assert events[..|events| - 1][0] == events[0] && events[..|events| - 1][1..] == events[1..][..|events| - 2];
      RunLast(Next(w, events[0]), events[1..]);
    } else {
      assert events[1..] == [] && events[..0] == [];
    }
  }

  /** The write at the database after so many events started at that reading. */
  ghost predicate StartedAt(events: seq<Event>, i: int, j: int, at: Time) {
    0 <= i < j <= |events| && events[i] == WriteStarted(at) && forall k | i < k < j :: !events[k].WriteStarted?
  }

  /** The last write that succeeded started at that reading. */
  ghost predicate WrittenAt(events: seq<Event>, at: Time) {
    exists i, j ::
      && StartedAt(events, i, j, at) && j < |events| && events[j] == WriteEnded(true)
      && forall k | j < k < |events| :: events[k] != WriteEnded(true)
  }

  lemma WrittenOn(events: seq<Event>, event: Event, at: Time)
    requires WrittenAt(events, at) && event != WriteEnded(true)
    ensures WrittenAt(events + [event], at)
  {
    var i, j :| StartedAt(events, i, j, at) && j < |events| && events[j] == WriteEnded(true)
      && forall k | j < k < |events| :: events[k] != WriteEnded(true);
    assert StartedAt(events + [event], i, j, at);
  }

  lemma StartedOn(events: seq<Event>, event: Event, i: int, at: Time)
    requires StartedAt(events, i, |events|, at)
    ensures event == WriteEnded(true) ==> WrittenAt(events + [event], at)
    ensures !event.WriteStarted? ==> StartedAt(events + [event], i, |events| + 1, at)
  {
    assert StartedAt(events + [event], i, |events|, at);
  }

  /** The write at the database, and what is recorded, are of the last write started and the last that succeeded. */
  ghost predicate KnowsWrites(events: seq<Event>, writing: Option<Time>, recorded: Option<Recorded>) {
    && (writing.Some? ==> exists i :: StartedAt(events, i, |events|, writing.value))
    && (recorded.Some? ==> WrittenAt(events, recorded.value.at))
    && (recorded.None? ==> WriteEnded(true) !in events)
  }

  lemma StartKnows(events: seq<Event>, now: Time, recorded: Option<Recorded>)
    requires KnowsWrites(events, None, recorded)
    ensures KnowsWrites(events + [WriteStarted(now)], None, recorded)
    ensures KnowsWrites(events + [WriteStarted(now)], Some(now), recorded)
  {
    if recorded.Some? {
      WrittenOn(events, WriteStarted(now), recorded.value.at);
    }
    assert StartedAt(events + [WriteStarted(now)], |events|, |events| + 1, now);
  }

  lemma EndKnows(events: seq<Event>, ok: bool, at: Time, recorded: Option<Recorded>, busy: bool)
    requires KnowsWrites(events, Some(at), recorded)
    ensures KnowsWrites(events + [WriteEnded(ok)], None, if ok then Some(Recorded(busy, at)) else recorded)
  {
    var i :| StartedAt(events, i, |events|, at);
    StartedOn(events, WriteEnded(ok), i, at);
    if !ok && recorded.Some? {
      WrittenOn(events, WriteEnded(ok), recorded.value.at);
    }
  }

  lemma OthersKnow(events: seq<Event>, event: Event, writing: Option<Time>, recorded: Option<Recorded>)
    requires KnowsWrites(events, writing, recorded) && !event.WriteStarted? && !event.WriteEnded?
    ensures KnowsWrites(events + [event], writing, recorded)
  {
    if writing.Some? {
      var i :| StartedAt(events, i, |events|, writing.value);
      StartedOn(events, event, i, writing.value);
    }
    if recorded.Some? {
      WrittenOn(events, event, recorded.value.at);
    }
  }

  lemma NextKnows(events: seq<Event>, w: World, event: Event)
    requires Enabled(w, event) && (event.WorkEnded? ==> w.activity.running > 0)
    requires KnowsWrites(events, w.activity.writing, w.activity.recorded)
    ensures KnowsWrites(events + [event], Next(w, event).activity.writing, Next(w, event).activity.recorded)
  {
    match event {
      case WriteStarted(now) => StartKnows(events, now, w.activity.recorded);
      case WriteEnded(ok) =>
        EndKnows(events, ok, w.activity.writing.value, w.activity.recorded, w.activity.line[0].busy);
      case _ => OthersKnow(events, event, w.activity.writing, w.activity.recorded);
    }
  }

  /** What is recorded is the last write that succeeded, with the reading it started at. */
  lemma {:induction false} RecordedIsLastWrite(row: bool, events: seq<Event>)
    requires IsRun(NewWorld(row), events)
    ensures var a := Run(NewWorld(row), events).activity;
            KnowsWrites(events, a.writing, a.recorded)
  {
    if events != [] {
      var shorter, event := events[..|events| - 1], events[|events| - 1];
      RunLast(NewWorld(row), events);
      RecordedIsLastWrite(row, shorter);
      assert events == shorter + [event];
      NextKnows(shorter, Run(NewWorld(row), shorter), event);
    }
  }

  lemma WrittenOnce(events: seq<Event>, at: Time, at': Time)
    requires WrittenAt(events, at) && WrittenAt(events, at')
    ensures at == at'
  {
    var i, j :| StartedAt(events, i, j, at) && j < |events| && events[j] == WriteEnded(true)
      && forall k | j < k < |events| :: events[k] != WriteEnded(true);
    var i', j' :| StartedAt(events, i', j', at') && j' < |events| && events[j'] == WriteEnded(true)
      && forall k | j' < k < |events| :: events[k] != WriteEnded(true);
    assert j == j';
    assert i == i';
  }

  /**
   * Over every run: the oldest write in line is skipped exactly when some write succeeded, the row already says the
   * same, and it is an idle one, or the last write that succeeded started less than ten minutes ago.
   */
  lemma SkippedExactly(row: bool, events: seq<Event>, now: Time)
    requires IsRun(NewWorld(row), events) && CanStart(Run(NewWorld(row), events).activity)
    ensures
      var w := Run(NewWorld(row), events);
      var write := w.activity.line[0];
      Next(w, WriteStarted(now)).activity.writing.None? <==>
        exists at :: WrittenAt(events, at) && w.row == write.busy && (write.busy ==> now < at + 600_000)
  {
    RunKeeps(NewWorld(row), events);
    RecordedIsLastWrite(row, events);
    var a := Run(NewWorld(row), events).activity;
    forall at | WrittenAt(events, at) ensures a.recorded.Some? && a.recorded.value.at == at {
      if a.recorded.Some? {
        WrittenOnce(events, at, a.recorded.value.at);
      }
    }
  }

  // ---------- Work called off before it was recorded ----------

  ghost predicate Reaches(row: bool, events: seq<Event>, w: World) {
    IsRun(NewWorld(row), events) && Run(NewWorld(row), events) == w
  }

  lemma {:induction false} RunSnoc(w: World, events: seq<Event>, event: Event)
    requires IsRun(w, events) && Enabled(Run(w, events), event)
    requires event.WorkEnded? ==> Run(w, events).activity.running > 0
    ensures IsRun(w, events + [event]) && Run(w, events + [event]) == Next(Run(w, events), event)
    decreases |events|
  {
    if events == [] {
      assert [event][1..] == [];
    } else {
      assert (events + [event])[1..] == events[1..] + [event];
      RunSnoc(Next(w, events[0]), events[1..], event);
    }
  }

  lemma ReachOne(row: bool, events: seq<Event>, event: Event, w: World, w': World)
    requires Reaches(row, events, w) && Enabled(w, event) && !event.WorkEnded? && w' == Next(w, event)
    ensures Reaches(row, events + [event], w')
  {
    RunSnoc(NewWorld(row), events, event);
  }

  const CALLED_OFF: map<WorkId, Work> := map[7 := Work(Refused, false)]

  /** A turn that is recorded: the row says what it is. */
  lemma TurnRecorded(row: bool, busy: bool) returns (events: seq<Event>, w: World)
    ensures Reaches(row, events, w)
    ensures w == World(Activity(busy, 0, Some(Recorded(busy, 0)), [], None), busy, false, map[], Some(busy), false)
  {
    var w0 := NewWorld(row);
    var line := [Write(busy, None)];
    var w1 := w0.(activity := Activity(busy, 0, None, line, None), lastQueued := Some(busy));
    var w2 := w1.(activity := Activity(busy, 0, None, line, Some(0)));
    var w3 := w2.(row := busy, applied := true);
    w := World(Activity(busy, 0, Some(Recorded(busy, 0)), [], None), busy, false, map[], Some(busy), false);
    ReachOne(row, [], TurnObserved(busy), w0, w1);
    ReachOne(row, [] + [TurnObserved(busy)], WriteStarted(0), w1, w2);
    events := [] + [TurnObserved(busy)] + [WriteStarted(0)];
    ReachOne(row, events, WriteApplied, w2, w3);
    events := events + [WriteApplied];
    ReachOne(row, events, WriteEnded(true), w3, w);
    events := events + [WriteEnded(true)];
  }

  lemma CalledOff(row: bool, events: seq<Event>, w: World) returns (w': World)
    requires Reaches(row, events, w) && w.works == map[]
    ensures w' == w.(activity := w.activity.(running := w.activity.running + 1), works := CALLED_OFF)
    ensures Reaches(row, events + [Began(7, true)], w')
  {
    w' := Next(w, Began(7, true));
    ReachOne(row, events, Began(7, true), w, w');
  }

  /** The agent is idle and the row says so, and then work is called off: it is counted, and the row says idle. */
  lemma RowMaySayIdle(row: bool)
    ensures exists events, w ::
              Reaches(row, events, w) && Drained(w) && OnlyRefused(w) && !w.row && Busy(w.activity)
  {
    var events, idle := TurnRecorded(row, false);
    var w := CalledOff(row, events, idle);
    assert 7 in LiveWorks(w);
    assert Drained(w) && OnlyRefused(w);
  }

  /** A turn runs and the row says so, work is called off, and then the turn ends: the row still says busy. */
  lemma RowMaySayBusy(row: bool)
    ensures exists events, w ::
              && Reaches(row, events, w) && Drained(w) && w.row && !w.activity.turnBusy && LiveWorks(w) != {}
              && forall work <- LiveWorks(w) :: w.works[work].stage.Refused?
  {
    var events, busy := TurnRecorded(row, true);
    var counted := CalledOff(row, events, busy);
    events := events + [Began(7, true)];
    var ended := counted.(
      activity := Activity(false, 1, Some(Recorded(true, 0)), [Write(true, None)], None), lastQueued := Some(true));
    ReachOne(row, events, TurnObserved(false), counted, ended);
    events := events + [TurnObserved(false)];
    var w := ended.(activity := Activity(false, 1, Some(Recorded(true, 0)), [], None));
    ReachOne(row, events, WriteStarted(0), ended, w);
    assert 7 in LiveWorks(w) && Drained(w) && w.row;
  }
}
