/**
 * The chat derived from a conversation's transcript (app/agents/builder-chat-view.ts): a fold over every entry, and
 * what is running now. The fold is split in two: a skeleton that only the entries decide, in which a tool call is a
 * placeholder, and the rendering of each placeholder from results, newer outputs and running calls.
 */
module ChatView {
  import opened Wrappers
  import opened ChatFrame

  /** JSON text. */
  type Json = string

  datatype Call = Call(id: string, name: string, arguments: Json)

  datatype Block = Text(text: string) | Thinking(thinking: string, redacted: bool) | ToolCall(call: Call)

  datatype ToolResult = ToolResult(toolCallId: string, details: Option<Json>, text: string)

  datatype Progress = Plain | Done | Streaming

  datatype ToolState =
    | InputStreaming
    | InputAvailable
    | OutputAvailable(output: Json)
    | OutputError(errorText: string)

  datatype Part =
    | TextPart(text: string, progress: Progress)
    | ReasoningPart(text: string, progress: Progress)
    | HandoffPart(note: string)
    | ToolPart(call: Call, state: ToolState)
    | LegacyPart(json: Json)

  /** A part of a message from before pi-durable: redacted thinking is not shown. */
  datatype OldPart = OldPart(json: Json, redacted: bool)

  /** What an entry says; `None` where the stored data does not parse or the message is missing. */
  datatype Content =
    | UserMessage(text: string)
    | Legacy(message: Option<Message<OldPart>>)
    | Handoff(note: Option<string>)
    | Assistant(blocks: Option<seq<Block>>)
    | ToolResultEntry(result: Option<ToolResult>)
    | ToolOutput(output: Option<(string, Json)>)
    | Other

  datatype Entry = Entry(id: nat, content: Content)

  datatype SlotStatus = SlotPending | SlotRunning | SlotDone

  datatype Slot = Slot(callId: string, name: string, status: SlotStatus, details: Option<Json>)

  /** What runs now; no live state reads as `NOTHING_LIVE`. */
  datatype Live = Live(run: bool, tools: seq<Slot>, generation: Option<seq<Block>>)

  const NOTHING_LIVE := Live(false, [], None)
  const STOPPED_TOOL_TEXT := "Stopped before this tool returned a result."

  // ---------- What the tool calls are rendered from ----------

  datatype Tools = Tools(results: map<string, ToolResult>, overrides: map<string, Json>, running: set<string>)

  /** The result each call returned: the newest entry wins. */
  function Results(entries: seq<Entry>): map<string, ToolResult> {
    if entries == [] then map[] else
    var before := Results(entries[..|entries| - 1]);
    match entries[|entries| - 1].content
    case ToolResultEntry(Some(result)) => before[result.toolCallId := result]
    case _ => before
  }

  /** By call, what was last written over its result. */
  function Overrides(entries: seq<Entry>): map<string, Json> {
    if entries == [] then map[] else
    var before := Overrides(entries[..|entries| - 1]);
    match entries[|entries| - 1].content
    case ToolOutput(Some(output)) => before[output.0 := output.1]
    case _ => before
  }

  function Running(live: Live): set<string> {
    set slot | slot in live.tools && slot.status != SlotDone :: slot.callId
  }

  function ToolsOf(entries: seq<Entry>, live: Live): Tools {
    Tools(Results(entries), Overrides(entries), Running(live))
  }

  function Lookup<V>(m: map<string, V>, key: string): Option<V> {
    if key in m then Some(m[key]) else None
  }

  /** A newer output, else the result, else whether the call still runs. */
  function CallPart(call: Call, result: Option<ToolResult>, override: Option<Json>, pending: bool): Part {
    match override
    case Some(output) => ToolPart(call, OutputAvailable(output))
    case None =>
      match result
      case Some(ToolResult(_, Some(details), _)) => ToolPart(call, OutputAvailable(details))
      case Some(ToolResult(_, None, text)) =>
          ToolPart(call, OutputError(if text == "" then STOPPED_TOOL_TEXT else text))
      case None => ToolPart(call, if pending then InputAvailable else OutputError(STOPPED_TOOL_TEXT))
  }

  function Shown(call: Call, tools: Tools): Part {
    CallPart(call, Lookup(tools.results, call.id), Lookup(tools.overrides, call.id), call.id in tools.running)
  }

  /** Text and thinking, when there is something to read. */
  function BlockPart(block: Block, progress: Progress): Option<Part> {
    match block
    case Text(text) => if text == "" then None else Some(TextPart(text, progress))
    case Thinking(thinking, redacted) =>
      if redacted || thinking == "" then None else Some(ReasoningPart(thinking, progress))
    case ToolCall(_) => None
  }

  // ---------- The skeleton ----------

  datatype Cell = Fixed(part: Part) | Placeholder(call: Call)

  /** The messages so far, whether the last one is an assistant message still growing, and the id of the next one. */
  datatype Draft = Draft(messages: seq<Message<Cell>>, open: bool, nextId: string)
  {
    ghost predicate Valid() {
      open ==> messages != []
    }
  }

  const EMPTY := Draft([], false, "start-a")

  function EntryId(id: nat): string {
    if id < 10 then [DIGITS[id]] else EntryId(id / 10) + [DIGITS[id % 10]]
  }

  const DIGITS := "0123456789"

  function OldCells(parts: seq<OldPart>): seq<Cell> {
    if parts == [] then [] else
    var last := parts[|parts| - 1];
    OldCells(parts[..|parts| - 1]) + if last.redacted then [] else [Fixed(LegacyPart(last.json))]
  }

  function DoneCells(blocks: seq<Block>): seq<Cell> {
    if blocks == [] then [] else
    DoneCells(blocks[..|blocks| - 1]) + DoneCell(blocks[|blocks| - 1])
  }

  function DoneCell(block: Block): seq<Cell> {
    match BlockPart(block, Done)
    case Some(part) => [Fixed(part)]
    case None => if block.ToolCall? then [Placeholder(block.call)] else []
  }

  function StreamingCells(blocks: seq<Block>): seq<Cell> {
    if blocks == [] then [] else
    StreamingCells(blocks[..|blocks| - 1]) + StreamingCell(blocks[|blocks| - 1])
  }

  function StreamingCell(block: Block): seq<Cell> {
    match BlockPart(block, Streaming)
    case Some(part) => [Fixed(part)]
    case None => if block.ToolCall? then [Fixed(ToolPart(block.call, InputStreaming))] else []
  }

  /** Cells added to the assistant message that is growing, or to a new one. */
  function Grow(draft: Draft, cells: seq<Cell>): (grown: Draft)
    requires draft.Valid()
    ensures grown.Valid() && grown.open
    ensures |draft.messages| <= |grown.messages| <= |draft.messages| + 1
  {
    if draft.open then
      var last := draft.messages[|draft.messages| - 1];
      draft.(messages := draft.messages[|draft.messages| - 1 := last.(parts := last.parts + cells)])
    else
      Draft(draft.messages + [Message(draft.nextId, Role.Assistant, cells)], true, draft.nextId)
  }

  function AddEntry(draft: Draft, entry: Entry): (next: Draft)
    requires draft.Valid()
    ensures next.Valid()
  {
    match entry.content
    case UserMessage(text) =>
      var id := EntryId(entry.id);
      Draft(draft.messages + [Message(id, Role.User, [Fixed(TextPart(text, Plain))])], false, id + "-a")
    case Legacy(Some(message)) =>
      Draft(draft.messages + [Message(message.id, message.role, OldCells(message.parts))], false, message.id + "-a")
    case Handoff(Some(note)) => Grow(draft, [Fixed(HandoffPart(note))])
    case Assistant(Some(blocks)) => Grow(draft, DoneCells(blocks))
    case _ => draft
  }

  function Fold(entries: seq<Entry>): (draft: Draft)
    ensures draft.Valid()
  {
    if entries == [] then EMPTY else AddEntry(Fold(entries[..|entries| - 1]), entries[|entries| - 1])
  }

  function WithPartial(draft: Draft, generation: Option<seq<Block>>): (next: Draft)
    requires draft.Valid()
    ensures next.Valid()
  {
    match generation
    case Some(blocks) => Grow(draft, StreamingCells(blocks))
    case None => draft
  }

  function Skeleton(entries: seq<Entry>, live: Live): seq<Message<Cell>> {
    WithPartial(Fold(entries), live.generation).messages
  }

  // ---------- Rendering ----------

  function RenderCell(cell: Cell, tools: Tools): Part {
    match cell
    case Fixed(part) => part
    case Placeholder(call) => Shown(call, tools)
  }

  function RenderParts(cells: seq<Cell>, tools: Tools): seq<Part> {
    seq(|cells|, k requires 0 <= k < |cells| => RenderCell(cells[k], tools))
  }

  function RenderMessage(message: Message<Cell>, tools: Tools): Message<Part> {
    Message(message.id, message.role, RenderParts(message.parts, tools))
  }

  function Render(messages: seq<Message<Cell>>, tools: Tools): seq<Message<Part>> {
    seq(|messages|, k requires 0 <= k < |messages| => RenderMessage(messages[k], tools))
  }

  /** The chat a transcript and a live state derive. */
  function Chat(entries: seq<Entry>, live: Live): seq<Message<Part>> {
    Render(Skeleton(entries, live), ToolsOf(entries, live))
  }

  // ---------- The loops of the source ----------

  method ToolOutputOverrides(entries: seq<Entry>) returns (overrides: map<string, Json>)
    ensures overrides == Overrides(entries)
  {
    overrides := map[];
    for i := 0 to |entries|
      invariant overrides == Overrides(entries[..i])
    {
      assert entries[..i + 1][..i] == entries[..i];
      match entries[i].content {
        case ToolOutput(Some(output)) => overrides := overrides[output.0 := output.1];
        case _ =>
      }
    }
    assert entries[..|entries|] == entries;
  }

  method ToolResults(entries: seq<Entry>) returns (results: map<string, ToolResult>)
    ensures results == Results(entries)
  {
    results := map[];
    for i := 0 to |entries|
      invariant results == Results(entries[..i])
    {
      assert entries[..i + 1][..i] == entries[..i];
      match entries[i].content {
        case ToolResultEntry(Some(result)) => results := results[result.toolCallId := result];
        case _ =>
      }
    }
    assert entries[..|entries|] == entries;
  }

  /** The parts a finished model message adds, in order. */
  method DoneParts(blocks: seq<Block>, tools: Tools) returns (parts: seq<Part>)
    ensures parts == RenderParts(DoneCells(blocks), tools)
  {
    parts := [];
    for i := 0 to |blocks|
      invariant parts == RenderParts(DoneCells(blocks[..i]), tools)
    {
      assert blocks[..i + 1][..i] == blocks[..i];
      match BlockPart(blocks[i], Done) {
        case Some(part) => parts := parts + [part];
        case None =>
          if blocks[i].ToolCall? {
            parts := parts + [Shown(blocks[i].call, tools)];
          }
      }
    }
    assert blocks[..|blocks|] == blocks;
  }

  /** The parts of the message still streaming, in order. */
  method StreamingParts(blocks: seq<Block>, tools: Tools) returns (parts: seq<Part>)
    ensures parts == RenderParts(StreamingCells(blocks), tools)
  {
    parts := [];
    for i := 0 to |blocks|
      invariant parts == RenderParts(StreamingCells(blocks[..i]), tools)
    {
      assert blocks[..i + 1][..i] == blocks[..i];
      match BlockPart(blocks[i], Streaming) {
        case Some(part) => parts := parts + [part];
        case None =>
          if blocks[i].ToolCall? {
            parts := parts + [ToolPart(blocks[i].call, InputStreaming)];
          }
      }
    }
    assert blocks[..|blocks|] == blocks;
  }

  method ShownOldParts(parts: seq<OldPart>, ghost tools: Tools) returns (shown: seq<Part>)
    ensures shown == RenderParts(OldCells(parts), tools)
  {
    shown := [];
    for i := 0 to |parts|
      invariant shown == RenderParts(OldCells(parts[..i]), tools)
    {
      assert parts[..i + 1][..i] == parts[..i];
      if !parts[i].redacted {
        shown := shown + [LegacyPart(parts[i].json)];
      }
    }
    assert parts[..|parts|] == parts;
  }

  /**
   * What the loop of `ChatMessages` holds after the entries of `draft`. `assistant` is the message still growing: in
   * the source a reference, here its index. It is always the last one, so growing it in place changes no earlier one.
   */
  ghost predicate Holds(
    messages: seq<Message<Part>>, assistant: Option<nat>, nextAssistantId: string, draft: Draft, tools: Tools)
  {
    && draft.Valid()
    && (draft.open <==> assistant.Some?)
    && (assistant.Some? ==> |messages| > 0 && assistant.value == |messages| - 1)
    && nextAssistantId == draft.nextId
    && messages == Render(draft.messages, tools)
  }

  method ChatMessages(entries: seq<Entry>, live: Live) returns (messages: seq<Message<Part>>)
    ensures messages == Chat(entries, live)
  {
    var results := ToolResults(entries);
    var overrides := ToolOutputOverrides(entries);
    var running := set slot | slot in live.tools && slot.status != SlotDone :: slot.callId;
    var tools := Tools(results, overrides, running);
    messages := [];
    var assistant: Option<nat> := None;
    var nextAssistantId := "start-a";
    for i := 0 to |entries|
      invariant Holds(messages, assistant, nextAssistantId, Fold(entries[..i]), tools)
    {
      assert entries[..i + 1][..i] == entries[..i];
      messages, assistant, nextAssistantId :=
        ShowEntry(messages, assistant, nextAssistantId, entries[i], tools, Fold(entries[..i]));
    }
    assert entries[..|entries|] == entries;
    if live.generation.Some? {
      var parts := StreamingParts(live.generation.value, tools);
      RenderGrown(Fold(entries), StreamingCells(live.generation.value), tools);
      messages, assistant := AddParts(messages, assistant, nextAssistantId, parts);
    }
  }

  /** One entry of the loop of `ChatMessages`. */
  method ShowEntry(
    messages: seq<Message<Part>>, assistant: Option<nat>, nextAssistantId: string, entry: Entry, tools: Tools,
    ghost draft: Draft)
    returns (messages': seq<Message<Part>>, assistant': Option<nat>, nextAssistantId': string)
    requires Holds(messages, assistant, nextAssistantId, draft, tools)
    ensures Holds(messages', assistant', nextAssistantId', AddEntry(draft, entry), tools)
  {
    messages', assistant', nextAssistantId' := messages, assistant, nextAssistantId;
    match entry.content {
      case UserMessage(text) =>
        RenderAppended(draft.messages, Message(EntryId(entry.id), Role.User, [Fixed(TextPart(text, Plain))]), tools);
        assert RenderParts([Fixed(TextPart(text, Plain))], tools) == [TextPart(text, Plain)];
        assistant' := None;
        messages' := messages + [Message(EntryId(entry.id), Role.User, [TextPart(text, Plain)])];
        nextAssistantId' := EntryId(entry.id) + "-a";
      case Legacy(Some(message)) =>
        assistant' := None;
        var shown := ShownOldParts(message.parts, tools);
        RenderAppended(draft.messages, Message(message.id, message.role, OldCells(message.parts)), tools);
        messages' := messages + [Message(message.id, message.role, shown)];
        nextAssistantId' := message.id + "-a";
      case Handoff(Some(note)) =>
        RenderGrown(draft, [Fixed(HandoffPart(note))], tools);
        assert RenderParts([Fixed(HandoffPart(note))], tools) == [HandoffPart(note)];
        messages', assistant' := AddParts(messages, assistant, nextAssistantId, [HandoffPart(note)]);
      case Assistant(Some(blocks)) =>
        var parts := DoneParts(blocks, tools);
        RenderGrown(draft, DoneCells(blocks), tools);
        messages', assistant' := AddParts(messages, assistant, nextAssistantId, parts);
      case _ =>
    }
  }

  /** Opens the assistant message when none is open, and pushes `parts` on it. */
  method AddParts(messages: seq<Message<Part>>, assistant: Option<nat>, nextAssistantId: string, parts: seq<Part>)
    returns (grown: seq<Message<Part>>, target: Option<nat>)
    requires assistant.Some? ==> |messages| > 0 && assistant.value == |messages| - 1
    ensures grown != [] && target == Some(|grown| - 1)
    ensures assistant.None? ==> grown == messages + [Message(nextAssistantId, Role.Assistant, parts)]
    ensures assistant.Some? ==>
              var last := messages[|messages| - 1];
              grown == messages[|messages| - 1 := last.(parts := last.parts + parts)]
  {
    if assistant.None? {
      grown := messages + [Message(nextAssistantId, Role.Assistant, [])];
      target := Some(|grown| - 1);
    } else {
      grown, target := messages, assistant;
    }
    var at := target.value;
    assert [] + parts == parts;
    grown := grown[at := grown[at].(parts := grown[at].parts + parts)];
  }

  lemma RenderAppended(messages: seq<Message<Cell>>, message: Message<Cell>, tools: Tools)
    ensures Render(messages + [message], tools) == Render(messages, tools) + [RenderMessage(message, tools)]
  {
  }

  lemma RenderGrown(draft: Draft, cells: seq<Cell>, tools: Tools)
    requires draft.Valid()
    ensures
      var messages := Render(draft.messages, tools);
      var grown := Render(Grow(draft, cells).messages, tools);
      if draft.open then
        var last := messages[|messages| - 1];
        grown == messages[|messages| - 1 := last.(parts := last.parts + RenderParts(cells, tools))]
      else
        grown == messages + [Message(draft.nextId, Role.Assistant, RenderParts(cells, tools))]
  {
    if draft.open {
      var last := draft.messages[|draft.messages| - 1];
      assert RenderParts(last.parts + cells, tools) == RenderParts(last.parts, tools) + RenderParts(cells, tools);
    }
  }
}
