/**
 * The incremental sender (app/agents/builder-pi.ts, `BuilderChatStream`). Each method is one stretch of the source
 * between two awaits, so any interleaving of the stretches is a run of the source.
 */
module ChatStream {
  import opened Wrappers
  import opened ChatFrame
  import opened ChatView
  import opened ChatTail

  datatype ToolProgress = ToolProgress(toolCallId: string, toolName: string, result: Json)

  datatype Frame = Frame(change: Change<Part>, busy: bool, progress: seq<ToolProgress>)

  /** `Reading(before, last)`: a read is under way that began after `before` entries, the last of them `last`. */
  datatype Phase = Idle | Reading(before: nat, last: Option<nat>)

  /** The fields of the stream. */
  datatype Server = Server(
    entries: seq<Entry>, live: Live, sent: seq<Message<Part>>, sentBusy: bool,
    dirty: bool, overrideSeen: bool, started: bool, phase: Phase)

  const NEW_SERVER := Server([], NOTHING_LIVE, [], false, false, false, false, Idle)

  /** What is shown beside each tool that runs. */
  function LiveToolProgress(tools: seq<Slot>): seq<ToolProgress> {
    if tools == [] then [] else
    var slot := tools[|tools| - 1];
    LiveToolProgress(tools[..|tools| - 1])
    + if slot.status != SlotDone && slot.details.Some?
      then [ToolProgress(slot.callId, slot.name, slot.details.value)] else []
  }

  predicate InProgress(slot: Slot) {
    !slot.status.SlotDone? && slot.details.Some?
  }

  /** One for each tool that is not done and has details, in their order, under the tool's own id and name. */
  ghost predicate ProgressOf(tools: seq<Slot>, progress: seq<ToolProgress>, slots: seq<nat>) {
    && |slots| == |progress| && (forall i, j | 0 <= i < j < |slots| :: slots[i] < slots[j])
    && (forall k: nat :: k in slots <==> k < |tools| && InProgress(tools[k]))
    && forall i | 0 <= i < |slots| :: slots[i] < |tools| && Shows(progress[i], tools[slots[i]])
  }

  predicate Shows(progress: ToolProgress, slot: Slot) {
    progress.toolCallId == slot.callId && progress.toolName == slot.name && Some(progress.result) == slot.details
  }

  lemma {:induction false} ProgressIsLive(tools: seq<Slot>) returns (slots: seq<nat>)
    ensures ProgressOf(tools, LiveToolProgress(tools), slots)
  {
    slots := [];
    if tools != [] {
      var shorter, last := tools[..|tools| - 1], tools[|tools| - 1];
      slots := ProgressIsLive(shorter);
      assert tools == shorter + [last];
      ProgressOn(shorter, last, LiveToolProgress(shorter), slots);
      slots := slots + if InProgress(last) then [|shorter|] else [];
    }
  }

  lemma ProgressOn(tools: seq<Slot>, last: Slot, progress: seq<ToolProgress>, slots: seq<nat>)
    requires ProgressOf(tools, progress, slots)
    ensures if InProgress(last)
            then ProgressOf(tools + [last], progress + [ToolProgress(last.callId, last.name, last.details.value)],
                            slots + [|tools|])
            else ProgressOf(tools + [last], progress, slots)
  {
    if InProgress(last) {
      var slots' := slots + [|tools|];
      forall k: nat ensures k in slots' <==> k < |tools| + 1 && InProgress((tools + [last])[k]) {
        assert k in slots' <==> k in slots || k == |tools|;
      }
    }
  }

  function LastId(entries: seq<Entry>): Option<nat> {
    if entries == [] then None else Some(entries[|entries| - 1].id)
  }

  /** What of a page is pushed: the entries after `last`. */
  function After(page: seq<Entry>, last: Option<nat>): seq<Entry> {
    if page == [] then [] else
    var entry := page[|page| - 1];
    After(page[..|page| - 1], last) + if last.None? || entry.id > last.value then [entry] else []
  }

  function BeginRead(s: Server): Server {
    s.(phase := Reading(|s.entries|, LastId(s.entries)))
  }

  /** A flush begins only when something may have changed and no other is under way. */
  function BeginFlush(s: Server): Server {
    if s.phase.Reading? || !s.dirty then s else BeginRead(s.(dirty := false))
  }

  function ReadPage(s: Server, page: seq<Entry>): Server
    requires s.phase.Reading?
  {
    var pushed := After(page, s.phase.last);
    s.(entries := s.entries + pushed, overrideSeen := s.overrideSeen || HasToolOutput(pushed))
  }

  function WholeFrame(s: Server): Frame {
    Frame(Change(0, 0, s.sent), s.live.run, LiveToolProgress(s.live.tools))
  }

  /** The first read ends: nothing was sent yet, and a flush follows. */
  function FinishStart(s: Server, live: Live): Server {
    s.(live := live, sent := Chat(s.entries, live), sentBusy := live.run, dirty := true, started := true, phase := Idle)
  }

  function CompareFrom(s: Server, next: seq<Message<Part>>): nat
    requires s.phase.Reading?
  {
    if s.phase.before == 0 || s.overrideSeen then 0 else TailStart(|s.sent|, |next|)
  }

  function FinishFlush(s: Server, live: Live): (Server, Option<Frame>)
    requires s.phase.Reading?
  {
    var next := Chat(s.entries, live);
    var change := FrameChange(s.sent, next, CompareFrom(s, next));
    var progress := LiveToolProgress(live.tools);
    (s.(live := live, sent := next, sentBusy := live.run, overrideSeen := false, phase := Idle),
     if change.None? && progress == [] && s.sentBusy == live.run then None else
     Some(Frame(if change.Some? then change.value else Change(|next|, 0, []), live.run, progress)))
  }

  /** What is sent of what changed, if anything did. */
  function FrameOf(
    change: Option<Change<Part>>, progress: seq<ToolProgress>, busyChanged: bool,
        length: nat, busy: bool): Option<Frame>
  {
    if change.Some? || |progress| > 0 || busyChanged
    then Some(Frame(if change.Some? then change.value else Change(length, 0, []), busy, progress)) else None
  }

  lemma FlushIs(
    s: Server, live: Live, next: seq<Message<Part>>, change: Option<Change<Part>>, frame: Option<Frame>,
    busyChanged: bool)
    requires s.phase.Reading? && next == Chat(s.entries, live) && busyChanged == (s.sentBusy != live.run)
    requires change == FrameChange(s.sent, next, CompareFrom(s, next))
    requires frame == FrameOf(change, LiveToolProgress(live.tools), busyChanged, |next|, live.run)
    ensures FinishFlush(s, live)
         == (s.(live := live, sent := next, sentBusy := live.run, overrideSeen := false, phase := Idle), frame)
  {
  }

  /**
   * What a frame says: the busy flag and progress of now, and a change that starts where the chats first differ, and no
   * earlier than in the last two messages but after a first read or a newer output.
   */
  lemma FlushSays(s: Server, live: Live)
    requires s.phase.Reading?
    ensures var next, frame := Chat(s.entries, live), FinishFlush(s, live).1;
            match frame
            case None => LiveToolProgress(live.tools) == [] && s.sentBusy == live.run
            case Some(Frame(change, busy, progress)) =>
              && busy == live.run && progress == LiveToolProgress(live.tools)
              && (change.from < |s.sent| && change.from < |next| ==> s.sent[change.from] != next[change.from])
              && (s.phase.before > 0 && !s.overrideSeen ==> change.from >= |s.sent| - 2 || change.from >= |next| - 2)
              && (s.sent == next ==> change.messages == [] && change.from == |next|
                                     && (progress != [] || s.sentBusy != live.run))
  {
    var next := Chat(s.entries, live);
    var from := CompareFrom(s, next);
    if s.sent == next {
      PatchInvertsDiff(s.sent, next, from);
    }
  }

  class BuilderChatStream {
    var entries: seq<Entry>
    var live: Live
    var sent: seq<Message<Part>>
    var sentBusy: bool
    var dirty: bool
    var overrideSeen: bool
    var started: bool
    var flushing: Phase

    function State(): Server
      reads this
    {
      Server(entries, live, sent, sentBusy, dirty, overrideSeen, started, flushing)
    }

    constructor ()
      ensures State() == NEW_SERVER
    {
      entries, live, sent, sentBusy := [], NOTHING_LIVE, [], false;
      dirty, overrideSeen, started, flushing := false, false, false, Idle;
    }

    method Schedule()
      modifies this
      ensures State() == old(State()).(dirty := true)
    {
      dirty := true;
    }

    method Flush()
      modifies this
      ensures State() == BeginFlush(old(State()))
      ensures flushing == (if old(flushing).Idle? && old(dirty) then Reading(|entries|, LastId(entries))
                           else old(flushing))
      ensures dirty == (old(dirty) && old(flushing).Reading?)
    {
      if flushing.Reading? || !dirty {
        return;
      }
      dirty := false;
      BeginReadNew();
    }

    method BeginReadNew()
      modifies this
      ensures State() == BeginRead(old(State()))
    {
      flushing := Reading(|entries|, LastId(entries));
    }

    method ReadNewPage(page: seq<Entry>)
      requires flushing.Reading?
      modifies this
      ensures State() == ReadPage(old(State()), page)
    {
      var last := flushing.last;
      for i := 0 to |page|
        invariant flushing == old(flushing) && started == old(started) && dirty == old(dirty)
        invariant live == old(live) && sent == old(sent) && sentBusy == old(sentBusy)
        invariant entries == old(entries) + After(page[..i], last)
        invariant overrideSeen == (old(overrideSeen) || HasToolOutput(After(page[..i], last)))
      {
        var entry := page[i];
        assert page[..i + 1][..i] == page[..i];
        if last.None? || entry.id > last.value {
          entries := entries + [entry];
          if entry.content.ToolOutput? {
            overrideSeen := true;
          }
        }
      }
      assert page[..|page|] == page;
    }

    method EndStart(read: Live)
      requires flushing.Reading?
      modifies this
      ensures State() == FinishStart(old(State()), read)
    {
      live := read;
      sent := ChatMessages(entries, live);
      sentBusy := live.run;
      started := true;
      flushing := Idle;
      Schedule();
    }

    /** What the derived chat changed, compared from the tail or from the start. */
    method Changed(read: Live) returns (next: seq<Message<Part>>, change: Option<Change<Part>>)
      requires flushing.Reading?
      ensures next == Chat(entries, read) && change == FrameChange(sent, next, CompareFrom(State(), next))
    {
      next := ChatMessages(entries, read);
      var compareFrom := if overrideSeen then 0 else Max(0, Min(|sent|, |next|) - 2);
      var from := if flushing.before == 0 then 0 else compareFrom;
      assert from == CompareFrom(State(), next);
      change := ChatFrameChange(sent, next, from);
    }

    method EndFlush(read: Live) returns (frame: Option<Frame>)
      requires flushing.Reading?
      modifies this
      ensures (State(), frame) == FinishFlush(old(State()), read)
      ensures sent == Chat(entries, read) && live == read && sentBusy == read.run && !overrideSeen && flushing.Idle?
      ensures entries == old(entries) && dirty == old(dirty) && started == old(started)
    {
      var next, change := Changed(read);
      var busyChanged := sentBusy != read.run;
      frame := FrameOf(change, LiveToolProgress(read.tools), busyChanged, |next|, read.run);
      FlushIs(State(), read, next, change, frame, busyChanged);
      live := read;
      overrideSeen := false;
      sent := next;
      sentBusy := read.run;
      flushing := Idle;
    }

    /** The read failed: what was pushed stays, and nothing was sent. */
    method FailRead()
      requires flushing.Reading?
      modifies this
      ensures State() == old(State()).(phase := Idle)
    {
      flushing := Idle;
    }

    method SnapshotFrame() returns (frame: Frame)
      requires started
      ensures frame == WholeFrame(State())
    {
      frame := Frame(Change(0, 0, sent), live.run, LiveToolProgress(live.tools));
    }
  }
}
