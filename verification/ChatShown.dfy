/**
 * What the chat shows, said of the entries by their places (app/agents/builder-chat-view.ts, `chatMessages`): which
 * messages there are, which blocks each shows and in what order, and how each tool call stands. Nothing here goes by
 * how the fold of `ChatView` gets there.
 */
module ChatShown {
  import opened Wrappers
  import opened ChatFrame
  import opened ChatView

  /** What is said, in order: an entry of the log, and behind the last the message still streaming, if any. */
  datatype Item =
    | Person(id: nat, text: string)
    | Old(message: Message<OldPart>)
    | Note(note: string)
    | Answer(blocks: seq<Block>, progress: Progress)
    | Silent

  function ItemAt(entries: seq<Entry>, live: Live, k: nat): Item
    requires k <= |entries|
  {
    if k == |entries| then
      if live.generation.Some? then Answer(live.generation.value, Streaming) else Silent
    else
      match entries[k].content
      case UserMessage(text) => Person(entries[k].id, text)
      case Legacy(Some(message)) => Old(message)
      case Handoff(Some(note)) => Note(note)
      case Assistant(Some(blocks)) => Answer(blocks, Done)
      case _ => Silent
  }

  function Items(entries: seq<Entry>, live: Live): seq<Item> {
    seq(|entries| + 1, k requires 0 <= k <= |entries| => ItemAt(entries, live, k))
  }

  // ---------- Messages ----------

  /** It is a message of its own. */
  predicate Separates(item: Item) {
    item.Person? || item.Old?
  }

  /** It adds to the assistant's message. */
  predicate Adds(item: Item) {
    item.Note? || item.Answer?
  }

  /** Since the last message of its own, if there is one, nothing added to the assistant's. */
  ghost predicate Fresh(items: seq<Item>, k: nat) {
    forall j | 0 <= j < k <= |items| && Adds(items[j]) :: exists s | j < s < k :: Separates(items[s])
  }

  ghost predicate Opens(items: seq<Item>, k: nat) {
    k < |items| && (Separates(items[k]) || (Adds(items[k]) && Fresh(items, k)))
  }

  function OwnId(item: Item): string
    requires Separates(item)
  {
    if item.Person? then EntryId(item.id) else item.message.id
  }

  /** An assistant message is named after the message before it. */
  ghost predicate NamedAfter(items: seq<Item>, k: nat, id: string) {
    if exists s | 0 <= s < k <= |items| :: Separates(items[s]) then
      exists s | 0 <= s < k <= |items| ::
        && Separates(items[s]) && id == OwnId(items[s]) + "-a"
        && forall later | s < later < k :: !Separates(items[later])
    else id == "start-a"
  }

  ghost predicate HeaderIs<P>(items: seq<Item>, k: nat, message: Message<P>)
    requires k < |items|
  {
    match items[k]
    case Person(_, _) => message.id == OwnId(items[k]) && message.role == Role.User
    case Old(shown) => message.id == shown.id && message.role == shown.role
    case _ => message.role == Role.Assistant && NamedAfter(items, k, message.id)
  }

  // ---------- Parts ----------

  /** A block of an item. */
  datatype Origin = Origin(item: nat, block: nat)

  predicate Before(a: Origin, b: Origin) {
    a.item < b.item || (a.item == b.item && a.block < b.block)
  }

  predicate BlockVisible(block: Block) {
    match block
    case Text(text) => text != ""
    case Thinking(thinking, redacted) => thinking != "" && !redacted
    case ToolCall(_) => true
  }

  predicate Visible(item: Item, block: nat) {
    match item
    case Old(message) => block < |message.parts| && !message.parts[block].redacted
    case Answer(blocks, _) => block < |blocks| && BlockVisible(blocks[block])
    case Silent => false
    case _ => block == 0
  }

  predicate IsOutputOf(entry: Entry, callId: string) {
    entry.content.ToolOutput? && entry.content.output.Some? && entry.content.output.value.0 == callId
  }

  predicate IsResultOf(entry: Entry, callId: string) {
    entry.content.ToolResultEntry? && entry.content.result.Some? && entry.content.result.value.toolCallId == callId
  }

  ghost predicate LastOutput(entries: seq<Entry>, callId: string, k: int) {
    && 0 <= k < |entries| && IsOutputOf(entries[k], callId)
    && forall later | k < later < |entries| :: !IsOutputOf(entries[later], callId)
  }

  ghost predicate LastResult(entries: seq<Entry>, callId: string, k: int) {
    && 0 <= k < |entries| && IsResultOf(entries[k], callId)
    && forall later | k < later < |entries| :: !IsResultOf(entries[later], callId)
  }

  predicate ResultState(result: ToolResult, state: ToolState) {
    match result.details
    case Some(details) => state == OutputAvailable(details)
    case None =>
      state == OutputError(if result.text != "" then result.text else "Stopped before this tool returned a result.")
  }

  /** The last newer output; with none the last result; with neither whether the call still runs. */
  ghost predicate CallStands(entries: seq<Entry>, live: Live, callId: string, state: ToolState) {
    if exists entry <- entries :: IsOutputOf(entry, callId) then
      exists k :: LastOutput(entries, callId, k) && state == OutputAvailable(entries[k].content.output.value.1)
    else if exists entry <- entries :: IsResultOf(entry, callId) then
      exists k :: LastResult(entries, callId, k) && ResultState(entries[k].content.result.value, state)
    else if exists slot <- live.tools :: slot.callId == callId && slot.status != SlotDone then
      state == InputAvailable
    else state == OutputError("Stopped before this tool returned a result.")
  }

  /** How a block is shown. */
  ghost predicate ShowsPart(entries: seq<Entry>, live: Live, item: Item, block: nat, part: Part)
    requires Visible(item, block)
  {
    match item
    case Person(_, text) => part == TextPart(text, Plain)
    case Old(message) => part == LegacyPart(message.parts[block].json)
    case Note(note) => part == HandoffPart(note)
    case Answer(blocks, progress) =>
      match blocks[block]
      case Text(text) => part == TextPart(text, progress)
      case Thinking(thinking, _) => part == ReasoningPart(thinking, progress)
      case ToolCall(call) =>
        && part.ToolPart? && part.call == call
        && if progress == Streaming then part.state == InputStreaming
           else CallStands(entries, live, call.id, part.state)
  }

  /** The blocks shown of the items from there to there: each visible one once, in order. */
  ghost predicate Listed(items: seq<Item>, from: nat, to: nat, origins: seq<Origin>) {
    && to <= |items|
    && (forall i, j | 0 <= i < j < |origins| :: Before(origins[i], origins[j]))
    && (forall o :: o in origins <==> from <= o.item < to && Visible(items[o.item], o.block))
  }

  ghost predicate MessageShows(
    entries: seq<Entry>, live: Live, from: nat, to: nat, message: Message<Part>, origins: seq<Origin>)
    requires from < to <= |entries| + 1
  {
    var items := Items(entries, live);
    && HeaderIs(items, from, message)
    && Listed(items, from, to, origins)
    && |origins| == |message.parts|
    && forall i | 0 <= i < |origins| ::
         ShowsPart(entries, live, items[origins[i].item], origins[i].block, message.parts[i])
  }

  // ---------- The skeleton ----------

  function UpTo(starts: seq<nat>, m: nat, n: nat): nat
    requires m < |starts|
  {
    if m + 1 < |starts| then starts[m + 1] else n
  }

  predicate CellFrom(item: Item, block: nat, cell: Cell)
    requires Visible(item, block)
  {
    match item
    case Person(_, text) => cell == Fixed(TextPart(text, Plain))
    case Old(message) => cell == Fixed(LegacyPart(message.parts[block].json))
    case Note(note) => cell == Fixed(HandoffPart(note))
    case Answer(blocks, progress) =>
      match blocks[block]
      case Text(text) => cell == Fixed(TextPart(text, progress))
      case Thinking(thinking, _) => cell == Fixed(ReasoningPart(thinking, progress))
      case ToolCall(call) =>
        cell == if progress == Streaming then Fixed(ToolPart(call, InputStreaming)) else Placeholder(call)
  }

  ghost predicate CellsAre(items: seq<Item>, from: nat, to: nat, cells: seq<Cell>, origins: seq<Origin>) {
    && Listed(items, from, to, origins) && |origins| == |cells|
    && forall i | 0 <= i < |origins| :: CellFrom(items[origins[i].item], origins[i].block, cells[i])
  }

  /** These open the messages of the first items. */
  ghost predicate StartsAre(items: seq<Item>, n: nat, starts: seq<nat>) {
    && (forall a, b | 0 <= a < b < |starts| :: starts[a] < starts[b])
    && (forall k: nat :: k in starts <==> k < n && Opens(items, k))
  }

  ghost predicate MessagesAre(
    items: seq<Item>, n: nat, messages: seq<Message<Cell>>, starts: seq<nat>, shown: seq<seq<Origin>>)
  {
    && |starts| == |messages| == |shown|
    && forall m | 0 <= m < |starts| ::
         && starts[m] < |items| && starts[m] < n && HeaderIs(items, starts[m], messages[m])
         && CellsAre(items, starts[m], UpTo(starts, m, n), messages[m].parts, shown[m])
  }

  ghost predicate Told(items: seq<Item>, n: nat, draft: Draft, starts: seq<nat>, shown: seq<seq<Origin>>) {
    && n <= |items| && draft.Valid()
    && (draft.open <==> !Fresh(items, n)) && NamedAfter(items, n, draft.nextId)
    && StartsAre(items, n, starts) && MessagesAre(items, n, draft.messages, starts, shown)
  }

  lemma Concat(
    items: seq<Item>, from: nat, n: nat, to: nat, a: seq<Cell>, b: seq<Cell>, of: seq<Origin>, more: seq<Origin>)
    requires from <= n <= to && CellsAre(items, from, n, a, of) && CellsAre(items, n, to, b, more)
    ensures CellsAre(items, from, to, a + b, of + more)
  {
    assert forall o :: o in of + more <==> o in of || o in more;
    forall i | 0 <= i < |of + more|
      ensures CellFrom(items[(of + more)[i].item], (of + more)[i].block, (a + b)[i])
    {
      assert (of + more)[i] in of + more;
    }
    forall i, j | 0 <= i < j < |of + more| ensures Before((of + more)[i], (of + more)[j]) {
      assert i < |of| <= j ==> of[i] in of && more[j - |of|] in more;
    }
  }

  lemma TellSilent(items: seq<Item>, n: nat, draft: Draft, starts: seq<nat>, shown: seq<seq<Origin>>)
    requires n < |items| && Told(items, n, draft, starts, shown) && !Separates(items[n]) && !Adds(items[n])
    ensures Told(items, n + 1, draft, starts, shown)
  {
    NamedOn(items, n);
    assert Fresh(items, n + 1) <==> Fresh(items, n);
    if |starts| > 0 {
      var last := |starts| - 1;
      SilentCells(items, starts[last], n, draft.messages[last].parts, shown[last]);
    }
  }

  lemma SilentCells(items: seq<Item>, from: nat, n: nat, cells: seq<Cell>, origins: seq<Origin>)
    requires from <= n < |items| && CellsAre(items, from, n, cells, origins) && items[n].Silent?
    ensures CellsAre(items, from, n + 1, cells, origins)
  {
  }

  lemma StartsStay(items: seq<Item>, n: nat, starts: seq<nat>)
    requires StartsAre(items, n, starts) && !Opens(items, n)
    ensures StartsAre(items, n + 1, starts)
  {
  }

  lemma AddedIsNotFresh(items: seq<Item>, n: nat)
    requires n < |items| && Adds(items[n])
    ensures !Fresh(items, n + 1)
  {
  }

  lemma StartsMore(items: seq<Item>, n: nat, starts: seq<nat>)
    requires StartsAre(items, n, starts) && Opens(items, n)
    ensures StartsAre(items, n + 1, starts + [n])
  {
    var starts' := starts + [n];
    forall k: nat ensures k in starts' <==> k < n + 1 && Opens(items, k) {
      assert k in starts' <==> k in starts || k == n;
    }
    forall a, b | 0 <= a < b < |starts'| ensures starts'[a] < starts'[b] {
      assert starts[a] in starts;
    }
  }

  lemma MessagesMore(
    items: seq<Item>, n: nat, messages: seq<Message<Cell>>, starts: seq<nat>, shown: seq<seq<Origin>>,
    message: Message<Cell>, origins: seq<Origin>)
    requires n < |items| && MessagesAre(items, n, messages, starts, shown)
    requires HeaderIs(items, n, message) && CellsAre(items, n, n + 1, message.parts, origins)
    ensures MessagesAre(items, n + 1, messages + [message], starts + [n], shown + [origins])
  {
    forall m | 0 <= m < |starts| ensures UpTo(starts + [n], m, n + 1) == UpTo(starts, m, n) {
    }
  }

  /** A message begins. */
  lemma TellNew(
    items: seq<Item>, n: nat, draft: Draft, starts: seq<nat>, shown: seq<seq<Origin>>,
    message: Message<Cell>, origins: seq<Origin>, draft': Draft)
    requires n < |items| && Told(items, n, draft, starts, shown) && Opens(items, n)
    requires HeaderIs(items, n, message) && CellsAre(items, n, n + 1, message.parts, origins)
    requires draft'.messages == draft.messages + [message] && draft'.Valid()
    requires (draft'.open <==> !Fresh(items, n + 1)) && NamedAfter(items, n + 1, draft'.nextId)
    ensures Told(items, n + 1, draft', starts + [n], shown + [origins])
  {
    StartsMore(items, n, starts);
    MessagesMore(items, n, draft.messages, starts, shown, message, origins);
  }

  lemma MessagesGrown(
    items: seq<Item>, n: nat, messages: seq<Message<Cell>>, starts: seq<nat>, shown: seq<seq<Origin>>,
    grown: Message<Cell>, cells: seq<Cell>, origins: seq<Origin>)
    requires MessagesAre(items, n, messages, starts, shown) && messages != []
    requires CellsAre(items, n, n + 1, cells, origins)
    requires var last := messages[|messages| - 1]; grown == last.(parts := last.parts + cells)
    ensures MessagesAre(items, n + 1, messages[|messages| - 1 := grown], starts,
                        shown[|shown| - 1 := shown[|shown| - 1] + origins])
  {
    var last := |starts| - 1;
    Concat(items, starts[last], n, n + 1, messages[last].parts, cells, shown[last], origins);
    assert SameHeader(items, starts[last], messages[last], grown);
    forall m | 0 <= m < last ensures UpTo(starts, m, n + 1) == UpTo(starts, m, n) {
    }
  }

  ghost predicate SameHeader(items: seq<Item>, k: nat, a: Message<Cell>, b: Message<Cell>)
    requires k < |items|
  {
    HeaderIs(items, k, a) <==> HeaderIs(items, k, b)
  }

  /** The last message grows. */
  lemma TellGrown(
    items: seq<Item>, n: nat, draft: Draft, starts: seq<nat>, shown: seq<seq<Origin>>,
    cells: seq<Cell>, origins: seq<Origin>)
    requires n < |items| && Told(items, n, draft, starts, shown) && Adds(items[n]) && draft.open
    requires CellsAre(items, n, n + 1, cells, origins)
    ensures Told(items, n + 1, Grow(draft, cells), starts, shown[|shown| - 1 := shown[|shown| - 1] + origins])
  {
    StartsStay(items, n, starts);
    AddedIsNotFresh(items, n);
    NamedOn(items, n);
    var messages := draft.messages;
    var last := messages[|messages| - 1];
    var grown := last.(parts := last.parts + cells);
    MessagesGrown(items, n, messages, starts, shown, grown, cells, origins);
    assert Grow(draft, cells) == draft.(messages := messages[|messages| - 1 := grown]);
  }

  lemma NamedOn(items: seq<Item>, n: nat)
    requires n < |items| && !Separates(items[n])
    ensures forall id :: NamedAfter(items, n + 1, id) <==> NamedAfter(items, n, id)
  {
  }

  lemma TellAdded(
    items: seq<Item>, n: nat, draft: Draft, starts: seq<nat>, shown: seq<seq<Origin>>,
    cells: seq<Cell>, origins: seq<Origin>)
    returns (starts': seq<nat>, shown': seq<seq<Origin>>)
    requires n < |items| && Told(items, n, draft, starts, shown) && Adds(items[n])
    requires CellsAre(items, n, n + 1, cells, origins)
    ensures Told(items, n + 1, Grow(draft, cells), starts', shown')
  {
    if draft.open {
      TellGrown(items, n, draft, starts, shown, cells, origins);
      starts', shown' := starts, shown[|shown| - 1 := shown[|shown| - 1] + origins];
    } else {
      NamedOn(items, n);
      AddedIsNotFresh(items, n);
      TellNew(items, n, draft, starts, shown, Message(draft.nextId, Role.Assistant, cells), origins,
              Grow(draft, cells));
      starts', shown' := starts + [n], shown + [origins];
    }
  }

  lemma TellSeparate(
    items: seq<Item>, n: nat, draft: Draft, starts: seq<nat>, shown: seq<seq<Origin>>,
    message: Message<Cell>, origins: seq<Origin>, draft': Draft)
    requires n < |items| && Told(items, n, draft, starts, shown) && Separates(items[n])
    requires HeaderIs(items, n, message) && CellsAre(items, n, n + 1, message.parts, origins)
    requires draft' == Draft(draft.messages + [message], false, OwnId(items[n]) + "-a")
    ensures Told(items, n + 1, draft', starts + [n], shown + [origins])
  {
    assert Fresh(items, n + 1);
    assert NamedAfter(items, n + 1, draft'.nextId);
    TellNew(items, n, draft, starts, shown, message, origins, draft');
  }

  // ---------- The cells of one item ----------

  /** The visible ones of the first blocks, in order. */
  function Origins(item: Item, n: nat, count: nat): seq<Origin> {
    if count == 0 then [] else
    Origins(item, n, count - 1) + if Visible(item, count - 1) then [Origin(n, count - 1)] else []
  }

  lemma {:induction false} OriginsAre(item: Item, n: nat, count: nat)
    ensures forall o :: o in Origins(item, n, count) <==> o.item == n && o.block < count && Visible(item, o.block)
    ensures forall i, j | 0 <= i < j < |Origins(item, n, count)| ::
              Before(Origins(item, n, count)[i], Origins(item, n, count)[j])
  {
    if count > 0 {
      OriginsAre(item, n, count - 1);
      var before := Origins(item, n, count - 1);
      forall i | 0 <= i < |before| ensures Before(before[i], Origin(n, count - 1)) {
        assert before[i] in before;
      }
    }
  }

  lemma OriginsListed(items: seq<Item>, n: nat, count: nat)
    requires n < |items| && forall block | block >= count :: !Visible(items[n], block)
    ensures Listed(items, n, n + 1, Origins(items[n], n, count))
  {
    OriginsAre(items[n], n, count);
  }

  ghost predicate CellsFrom(item: Item, n: nat, count: nat, cells: seq<Cell>) {
    var origins := Origins(item, n, count);
    && |origins| == |cells|
    && forall i | 0 <= i < |cells| :: Visible(item, origins[i].block) && CellFrom(item, origins[i].block, cells[i])
  }

  /** One more block adds its cell where it is visible, and none where it is not. */
  lemma OneBlockMore(item: Item, n: nat, count: nat, cells: seq<Cell>, more: seq<Cell>)
    requires CellsFrom(item, n, count, cells)
    requires if Visible(item, count) then |more| == 1 && CellFrom(item, count, more[0]) else more == []
    ensures CellsFrom(item, n, count + 1, cells + more)
  {
  }

  lemma {:induction false} DoneBlocks(blocks: seq<Block>, n: nat, count: nat)
    requires count <= |blocks|
    ensures CellsFrom(Answer(blocks, Done), n, count, DoneCells(blocks[..count]))
  {
    if count > 0 {
      DoneBlocks(blocks, n, count - 1);
      assert blocks[..count][..count - 1] == blocks[..count - 1];
      OneBlockMore(Answer(blocks, Done), n, count - 1, DoneCells(blocks[..count - 1]), DoneCell(blocks[count - 1]));
    }
  }

  lemma {:induction false} StreamingBlocks(blocks: seq<Block>, n: nat, count: nat)
    requires count <= |blocks|
    ensures CellsFrom(Answer(blocks, Streaming), n, count, StreamingCells(blocks[..count]))
  {
    if count > 0 {
      StreamingBlocks(blocks, n, count - 1);
      assert blocks[..count][..count - 1] == blocks[..count - 1];
      OneBlockMore(Answer(blocks, Streaming), n, count - 1, StreamingCells(blocks[..count - 1]),
                   StreamingCell(blocks[count - 1]));
    }
  }

  lemma {:induction false} OldMessageCells(message: Message<OldPart>, n: nat, count: nat)
    requires count <= |message.parts|
    ensures CellsFrom(Old(message), n, count, OldCells(message.parts[..count]))
  {
    if count > 0 {
      OldMessageCells(message, n, count - 1);
      assert message.parts[..count][..count - 1] == message.parts[..count - 1];
    }
  }

  lemma ItemCells(items: seq<Item>, n: nat, count: nat, cells: seq<Cell>)
    requires n < |items| && CellsFrom(items[n], n, count, cells)
    requires forall block | block >= count :: !Visible(items[n], block)
    ensures CellsAre(items, n, n + 1, cells, Origins(items[n], n, count))
  {
    OriginsListed(items, n, count);
    OriginsAre(items[n], n, count);
    var origins := Origins(items[n], n, count);
    forall i | 0 <= i < |origins| ensures origins[i].item == n {
      assert origins[i] in origins;
    }
  }

  lemma OneCell(items: seq<Item>, n: nat, cell: Cell)
    requires n < |items| && (items[n].Person? || items[n].Note?) && CellFrom(items[n], 0, cell)
    ensures CellsAre(items, n, n + 1, [cell], Origins(items[n], n, 1))
  {
    assert Origins(items[n], n, 0) == [];
    ItemCells(items, n, 1, [cell]);
  }

  lemma DoneCellsAre(items: seq<Item>, n: nat, blocks: seq<Block>)
    requires n < |items| && items[n] == Answer(blocks, Done)
    ensures CellsAre(items, n, n + 1, DoneCells(blocks), Origins(items[n], n, |blocks|))
  {
    DoneBlocks(blocks, n, |blocks|);
    assert blocks[..|blocks|] == blocks;
    ItemCells(items, n, |blocks|, DoneCells(blocks));
  }

  lemma StreamingCellsAre(items: seq<Item>, n: nat, blocks: seq<Block>)
    requires n < |items| && items[n] == Answer(blocks, Streaming)
    ensures CellsAre(items, n, n + 1, StreamingCells(blocks), Origins(items[n], n, |blocks|))
  {
    StreamingBlocks(blocks, n, |blocks|);
    assert blocks[..|blocks|] == blocks;
    ItemCells(items, n, |blocks|, StreamingCells(blocks));
  }

  lemma OldCellsAre(items: seq<Item>, n: nat, message: Message<OldPart>)
    requires n < |items| && items[n] == Old(message)
    ensures CellsAre(items, n, n + 1, OldCells(message.parts), Origins(items[n], n, |message.parts|))
  {
    OldMessageCells(message, n, |message.parts|);
    assert message.parts[..|message.parts|] == message.parts;
    ItemCells(items, n, |message.parts|, OldCells(message.parts));
  }

  // ---------- The fold ----------

  lemma {:induction false} FoldTold(entries: seq<Entry>, live: Live, n: nat)
    returns (starts: seq<nat>, shown: seq<seq<Origin>>)
    requires n <= |entries|
    ensures Told(Items(entries, live), n, Fold(entries[..n]), starts, shown)
  {
    if n == 0 {
      return [], [];
    }
    assert entries[..n][..n - 1] == entries[..n - 1];
    var starts0, shown0 := FoldTold(entries, live, n - 1);
    starts, shown := EntryTold(entries, live, n - 1, Fold(entries[..n - 1]), starts0, shown0);
  }

  lemma EntryTold(
    entries: seq<Entry>, live: Live, n: nat, draft: Draft, starts0: seq<nat>, shown0: seq<seq<Origin>>)
    returns (starts: seq<nat>, shown: seq<seq<Origin>>)
    requires n < |entries| && Told(Items(entries, live), n, draft, starts0, shown0)
    ensures Told(Items(entries, live), n + 1, AddEntry(draft, entries[n]), starts, shown)
  {
    var items := Items(entries, live);
    if Separates(items[n]) {
      starts, shown := SeparateTold(entries, live, n, draft, starts0, shown0);
    } else if Adds(items[n]) {
      starts, shown := AddingTold(entries, live, n, draft, starts0, shown0);
    } else {
      TellSilent(items, n, draft, starts0, shown0);
      starts, shown := starts0, shown0;
    }
  }

  lemma SeparateTold(
    entries: seq<Entry>, live: Live, n: nat, draft: Draft, starts0: seq<nat>, shown0: seq<seq<Origin>>)
    returns (starts: seq<nat>, shown: seq<seq<Origin>>)
    requires n < |entries| && Told(Items(entries, live), n, draft, starts0, shown0)
    requires Separates(Items(entries, live)[n])
    ensures Told(Items(entries, live), n + 1, AddEntry(draft, entries[n]), starts, shown)
  {
    var items := Items(entries, live);
    match items[n] {
      case Person(id, text) =>
        var cell := Fixed(TextPart(text, Plain));
        OneCell(items, n, cell);
        TellSeparate(items, n, draft, starts0, shown0, Message(EntryId(id), Role.User, [cell]),
                     Origins(items[n], n, 1), AddEntry(draft, entries[n]));
        starts, shown := starts0 + [n], shown0 + [Origins(items[n], n, 1)];
      case Old(message) =>
        var origins := Origins(items[n], n, |message.parts|);
        OldCellsAre(items, n, message);
        TellSeparate(items, n, draft, starts0, shown0, Message(message.id, message.role, OldCells(message.parts)),
                     origins, AddEntry(draft, entries[n]));
        starts, shown := starts0 + [n], shown0 + [origins];
    }
  }

  lemma AddingTold(
    entries: seq<Entry>, live: Live, n: nat, draft: Draft, starts0: seq<nat>, shown0: seq<seq<Origin>>)
    returns (starts: seq<nat>, shown: seq<seq<Origin>>)
    requires n < |entries| && Told(Items(entries, live), n, draft, starts0, shown0)
    requires Adds(Items(entries, live)[n])
    ensures Told(Items(entries, live), n + 1, AddEntry(draft, entries[n]), starts, shown)
  {
    var items := Items(entries, live);
    match items[n] {
      case Note(note) =>
        OneCell(items, n, Fixed(HandoffPart(note)));
        starts, shown := TellAdded(items, n, draft, starts0, shown0, [Fixed(HandoffPart(note))],
                                   Origins(items[n], n, 1));
      case Answer(blocks, _) =>
        DoneCellsAre(items, n, blocks);
        starts, shown := TellAdded(items, n, draft, starts0, shown0, DoneCells(blocks),
                                   Origins(items[n], n, |blocks|));
    }
  }

  lemma PartialTold(entries: seq<Entry>, live: Live, draft: Draft, starts0: seq<nat>, shown0: seq<seq<Origin>>)
    returns (starts: seq<nat>, shown: seq<seq<Origin>>)
    requires Told(Items(entries, live), |entries|, draft, starts0, shown0)
    ensures Told(Items(entries, live), |entries| + 1, WithPartial(draft, live.generation), starts, shown)
  {
    var items, n := Items(entries, live), |entries|;
    match live.generation {
      case Some(blocks) =>
        StreamingCellsAre(items, n, blocks);
        starts, shown := TellAdded(items, n, draft, starts0, shown0, StreamingCells(blocks),
                                   Origins(items[n], n, |blocks|));
      case None =>
        TellSilent(items, n, draft, starts0, shown0);
        starts, shown := starts0, shown0;
    }
  }

  // ---------- The calls ----------

  lemma {:induction false} OverrideIsLast(entries: seq<Entry>, callId: string)
    ensures callId in Overrides(entries) <==> exists entry <- entries :: IsOutputOf(entry, callId)
    ensures callId in Overrides(entries) ==>
              exists k :: LastOutput(entries, callId, k)
                          && entries[k].content.output.value.1 == Overrides(entries)[callId]
  {
    if entries != [] {
      var n, shorter := |entries| - 1, entries[..|entries| - 1];
      OverrideIsLast(shorter, callId);
      assert entries == shorter + [entries[n]];
      if IsOutputOf(entries[n], callId) {
        assert LastOutput(entries, callId, n);
      } else if callId in Overrides(shorter) {
        var k :| LastOutput(shorter, callId, k)
          && shorter[k].content.output.value.1 == Overrides(shorter)[callId];
        assert LastOutput(entries, callId, k);
      }
    }
  }

  lemma {:induction false} ResultIsLast(entries: seq<Entry>, callId: string)
    ensures callId in Results(entries) <==> exists entry <- entries :: IsResultOf(entry, callId)
    ensures callId in Results(entries) ==>
              exists k :: LastResult(entries, callId, k) && entries[k].content.result.value == Results(entries)[callId]
  {
    if entries != [] {
      var n, shorter := |entries| - 1, entries[..|entries| - 1];
      ResultIsLast(shorter, callId);
      assert entries == shorter + [entries[n]];
      if IsResultOf(entries[n], callId) {
        assert LastResult(entries, callId, n);
      } else if callId in Results(shorter) {
        var k :| LastResult(shorter, callId, k) && shorter[k].content.result.value == Results(shorter)[callId];
        assert LastResult(entries, callId, k);
      }
    }
  }

  lemma ShownStands(entries: seq<Entry>, live: Live, call: Call)
    ensures var part := Shown(call, ToolsOf(entries, live));
            part.ToolPart? && part.call == call && CallStands(entries, live, call.id, part.state)
  {
    OverrideIsLast(entries, call.id);
    ResultIsLast(entries, call.id);
  }

  lemma CellShows(entries: seq<Entry>, live: Live, item: Item, block: nat, cell: Cell)
    requires Visible(item, block) && CellFrom(item, block, cell)
    ensures ShowsPart(entries, live, item, block, RenderCell(cell, ToolsOf(entries, live)))
  {
    if cell.Placeholder? {
      ShownStands(entries, live, cell.call);
    }
  }

  // ---------- The names ----------

  function Value(digits: string): int {
    if digits == "" then 0 else Value(digits[..|digits| - 1]) * 10 + (digits[|digits| - 1] as int - '0' as int)
  }

  /** An entry's own id is its number in decimal. */
  lemma {:induction false} EntryIdIsDecimal(id: nat)
    ensures var digits := EntryId(id);
            && digits != "" && Value(digits) == id && (forall digit <- digits :: '0' <= digit <= '9')
            && (|digits| > 1 ==> digits[0] != '0')
  {
    var digit := DIGITS[id % 10];
    assert digit as int - '0' as int == id % 10;
    if id < 10 {
      assert EntryId(id)[..0] == "";
    } else {
      EntryIdIsDecimal(id / 10);
      assert EntryId(id)[..|EntryId(id)| - 1] == EntryId(id / 10);
      if |EntryId(id / 10)| == 1 {
        assert EntryId(id / 10)[..0] == "";
        assert Value("") == 0;
      }
    }
  }

  // ---------- The chat ----------

  /**
   * The chat is this: a message for each item that opens one, named after what comes before it, which shows every
   * visible block from there up to the next message once and in order, each call as it stands by the last newer output,
   * else the last result, else whether it still runs.
   */
  lemma ChatShows(entries: seq<Entry>, live: Live) returns (starts: seq<nat>, shown: seq<seq<Origin>>)
    ensures var items, chat := Items(entries, live), Chat(entries, live);
            && |starts| == |chat| == |shown|
            && (forall a, b | 0 <= a < b < |starts| :: starts[a] < starts[b])
            && (forall k: nat :: k in starts <==> Opens(items, k))
            && (forall m | 0 <= m < |starts| ::
                  && starts[m] < UpTo(starts, m, |items|) <= |items|
                  && MessageShows(entries, live, starts[m], UpTo(starts, m, |items|), chat[m], shown[m]))
  {
    var n := |entries|;
    var items, skeleton := Items(entries, live), Skeleton(entries, live);
    assert entries[..n] == entries;
    starts, shown := FoldTold(entries, live, n);
    starts, shown := PartialTold(entries, live, Fold(entries), starts, shown);
    forall m | 0 <= m < |starts|
      ensures starts[m] < UpTo(starts, m, |items|) <= |items|
      ensures MessageShows(
        entries, live, starts[m], UpTo(starts, m, |items|), Chat(entries, live)[m], shown[m])
    {
      assert starts[m] in starts && (m + 1 < |starts| ==> starts[m + 1] in starts);
      CellsShow(entries, live, starts[m], UpTo(starts, m, |items|), skeleton[m], shown[m]);
    }
  }

  lemma CellsShow(
    entries: seq<Entry>, live: Live, from: nat, to: nat, message: Message<Cell>, origins: seq<Origin>)
    requires from < to <= |entries| + 1 && HeaderIs(Items(entries, live), from, message)
    requires CellsAre(Items(entries, live), from, to, message.parts, origins)
    ensures MessageShows(entries, live, from, to, RenderMessage(message, ToolsOf(entries, live)), origins)
  {
    var items := Items(entries, live);
    forall i | 0 <= i < |origins|
      ensures ShowsPart(entries, live, items[origins[i].item], origins[i].block,
                        RenderCell(message.parts[i], ToolsOf(entries, live)))
    {
      assert origins[i] in origins;
      CellShows(entries, live, items[origins[i].item], origins[i].block, message.parts[i]);
    }
  }
}
