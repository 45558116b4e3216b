/**
 * Why comparing only the last two messages is enough (app/agents/builder-pi.ts:184-187): new entries and what runs
 * now can only touch the last message the entries derive, and a partial adds at most one after it.
 */
module ChatTail {
  import opened Wrappers
  import opened ChatFrame
  import opened ChatView

  /** The messages no later entry adds parts to: all but the last one the entries derive. */
  function SettledCount(entries: seq<Entry>): nat {
    Max(0, |Fold(entries).messages| - 1)
  }

  function SettledMessages(entries: seq<Entry>): seq<Message<Cell>> {
    Fold(entries).messages[..SettledCount(entries)]
  }

  function CallsIn(messages: seq<Message<Cell>>): set<Call> {
    set message, cell | message in messages && cell in message.parts && cell.Placeholder? :: cell.call
  }

  /** Where the stream starts comparing, when no output was written over a result since. */
  function TailStart(sent: nat, next: nat): nat {
    Max(0, Min(sent, next) - 2)
  }

  predicate HasToolOutput(entries: seq<Entry>) {
    exists entry | entry in entries :: entry.content.ToolOutput?
  }

  predicate HasResultFor(entries: seq<Entry>, callId: string) {
    exists entry | entry in entries ::
      entry.content.ToolResultEntry? && entry.content.result.Some? && entry.content.result.value.toolCallId == callId
  }

  /**
   * How pi-durable orders a commit: the results it adds, and the calls whose running state it changes, belong to the
   * last message the chat derived before it. Nothing is asked of newer outputs.
   */
  ghost predicate Orderly(entries: seq<Entry>, live: Live, more: seq<Entry>, live': Live) {
    forall call <- CallsIn(SettledMessages(entries)) ::
      !HasResultFor(more, call.id) && (call.id in Running(live) <==> call.id in Running(live'))
  }

  lemma {:induction false} FoldKeepsSettled(entries: seq<Entry>, more: seq<Entry>)
    ensures |Fold(entries + more).messages| >= |Fold(entries).messages|
    ensures Fold(entries + more).messages[..SettledCount(entries)] == SettledMessages(entries)
  {
    if more == [] {
      assert entries + more == entries;
    } else {
      var shorter := more[..|more| - 1];
      FoldKeepsSettled(entries, shorter);
      assert (entries + more)[..|entries + more| - 1] == entries + shorter;
      var before, k := Fold(entries + shorter), SettledCount(entries);
      KeepsAllButGrowing(before, more[|more| - 1]);
      var kept := if before.open then |before.messages| - 1 else |before.messages|;
      assert Fold(entries + more).messages[..kept][..k] == before.messages[..kept][..k];
      assert before.messages[..kept][..k] == before.messages[..k];
    }
  }

  /** An entry changes no message but the one still growing. */
  lemma KeepsAllButGrowing(draft: Draft, entry: Entry)
    requires draft.Valid()
    ensures
      var next := AddEntry(draft, entry);
      var kept := if draft.open then |draft.messages| - 1 else |draft.messages|;
      |next.messages| >= |draft.messages| && next.messages[..kept] == draft.messages[..kept]
  {
  }

  /** A partial adds at most one message, and changes none the entries settled. */
  lemma PartialKeepsSettled(entries: seq<Entry>, live: Live)
    ensures |Fold(entries).messages| <= |Skeleton(entries, live)| <= |Fold(entries).messages| + 1
    ensures Skeleton(entries, live)[..SettledCount(entries)] == SettledMessages(entries)
  {
  }

  /** Both chats' skeletons agree below the tail, and the comparison starts inside that part. */
  lemma SkeletonsShareSettled(entries: seq<Entry>, live: Live, more: seq<Entry>, live': Live)
    ensures
      var sent, next := Skeleton(entries, live), Skeleton(entries + more, live');
      && SettledCount(entries) <= |sent| && SettledCount(entries) <= |next|
      && sent[..SettledCount(entries)] == SettledMessages(entries) == next[..SettledCount(entries)]
      && TailStart(|sent|, |next|) <= SettledCount(entries)
  {
    PartialKeepsSettled(entries, live);
    FoldKeepsSettled(entries, more);
    PartialKeepsSettled(entries + more, live');
    var k := SettledCount(entries);
    var next, fold := Skeleton(entries + more, live'), Fold(entries + more).messages;
    assert next[..k] == next[..SettledCount(entries + more)][..k];
    assert fold[..k] == fold[..SettledCount(entries + more)][..k];
  }

  /**
   * Exactly when a message the comparison skips changed: for any extension of the log and any two live states, the
   * chats agree below `k` if and only if every call shown there is shown the same.
   */
  lemma SkippedMessagesAgreeExactly(entries: seq<Entry>, live: Live, more: seq<Entry>, live': Live, k: nat)
    requires k <= SettledCount(entries)
    ensures k <= |Chat(entries, live)| && k <= |Chat(entries + more, live')|
    ensures
      Chat(entries, live)[..k] == Chat(entries + more, live')[..k]
      <==>
      forall call <- CallsIn(Fold(entries).messages[..k]) ::
        Shown(call, ToolsOf(entries, live)) == Shown(call, ToolsOf(entries + more, live'))
  {
    SkeletonsShareSettled(entries, live, more, live');
    var settled := Fold(entries).messages[..k];
    var sent, next := Skeleton(entries, live), Skeleton(entries + more, live');
    assert sent[..k] == sent[..SettledCount(entries)][..k] == settled;
    assert next[..k] == next[..SettledCount(entries)][..k] == settled;
    var tools, tools' := ToolsOf(entries, live), ToolsOf(entries + more, live');
    assert Chat(entries, live)[..k] == Render(settled, tools);
    assert Chat(entries + more, live')[..k] == Render(settled, tools');
    RendersEqualExactly(settled, tools, tools');
  }

  lemma RendersEqualExactly(messages: seq<Message<Cell>>, tools: Tools, tools': Tools)
    ensures Render(messages, tools) == Render(messages, tools')
            <==> forall call <- CallsIn(messages) :: Shown(call, tools) == Shown(call, tools')
  {
    if forall call <- CallsIn(messages) :: Shown(call, tools) == Shown(call, tools') {
      forall i | 0 <= i < |messages|
        ensures RenderMessage(messages[i], tools) == RenderMessage(messages[i], tools')
      {
        assert messages[i] in messages;
        forall c | 0 <= c < |messages[i].parts|
          ensures RenderCell(messages[i].parts[c], tools) == RenderCell(messages[i].parts[c], tools')
        {
          var cell := messages[i].parts[c];
          assert cell in messages[i].parts;
          assert cell.Placeholder? ==> cell.call in CallsIn(messages);
        }
      }
    } else {
      var call :| call in CallsIn(messages) && Shown(call, tools) != Shown(call, tools');
      var i, c :| 0 <= i < |messages| && 0 <= c < |messages[i].parts| && messages[i].parts[c] == Placeholder(call);
      assert Render(messages, tools)[i].parts[c] != Render(messages, tools')[i].parts[c];
    }
  }

  lemma {:induction false} ResultsStay(entries: seq<Entry>, more: seq<Entry>, callId: string)
    requires !HasResultFor(more, callId)
    ensures Lookup(Results(entries + more), callId) == Lookup(Results(entries), callId)
  {
    if more == [] {
      assert entries + more == entries;
    } else {
      assert more[|more| - 1] in more;
      assert (entries + more)[..|entries + more| - 1] == entries + more[..|more| - 1];
      ResultsStay(entries, more[..|more| - 1], callId);
    }
  }

  lemma {:induction false} OverridesStay(entries: seq<Entry>, more: seq<Entry>)
    requires !HasToolOutput(more)
    ensures Overrides(entries + more) == Overrides(entries)
  {
    if more == [] {
      assert entries + more == entries;
    } else {
      assert more[|more| - 1] in more;
      assert (entries + more)[..|entries + more| - 1] == entries + more[..|more| - 1];
      OverridesStay(entries, more[..|more| - 1]);
    }
  }

  /**
   * Tail-comparison soundness: under pi-durable's order, an extension without a newer output changes no message
   * before the one the comparison starts at.
   */
  lemma TailComparisonSound(entries: seq<Entry>, live: Live, more: seq<Entry>, live': Live)
    requires !HasToolOutput(more)
    requires Orderly(entries, live, more, live')
    ensures
      var sent, next := Chat(entries, live), Chat(entries + more, live');
      var k := TailStart(|sent|, |next|);
      k <= |sent| && k <= |next| && sent[..k] == next[..k]
  {
    SkeletonsShareSettled(entries, live, more, live');
    var k := TailStart(|Chat(entries, live)|, |Chat(entries + more, live')|);
    OverridesStay(entries, more);
    forall call <- CallsIn(Fold(entries).messages[..k])
      ensures Shown(call, ToolsOf(entries, live)) == Shown(call, ToolsOf(entries + more, live'))
    {
      CallsGrow(Fold(entries).messages[..k], SettledMessages(entries));
      ResultsStay(entries, more, call.id);
    }
    SkippedMessagesAgreeExactly(entries, live, more, live', k);
  }

  lemma CallsGrow(fewer: seq<Message<Cell>>, more: seq<Message<Cell>>)
    requires fewer <= more
    ensures CallsIn(fewer) <= CallsIn(more)
  {
    forall call | call in CallsIn(fewer) ensures call in CallsIn(more) {
      var i, c :| 0 <= i < |fewer| && 0 <= c < |fewer[i].parts| && fewer[i].parts[c] == Placeholder(call);
      assert more[i] == fewer[i] && more[i] in more && Placeholder(call) in more[i].parts;
    }
  }

  /** pi-durable's order, entry by entry: a result is of a call in the last message derived before it. */
  ghost predicate OrderedLog(log: seq<Entry>) {
    forall n | 0 <= n < |log| ::
      forall call <- CallsIn(SettledMessages(log[..n])) :: !HasResultFor([log[n]], call.id)
  }

  lemma SettledCallsStay(log: seq<Entry>, read: nat, n: nat)
    requires read <= n <= |log|
    ensures CallsIn(SettledMessages(log[..read])) <= CallsIn(SettledMessages(log[..n]))
  {
    assert log[..n] == log[..read] + log[read..n];
    FoldKeepsSettled(log[..read], log[read..n]);
    CallsGrow(SettledMessages(log[..read]), SettledMessages(log[..n]));
  }

  lemma LaterEntryKeepsSettled(log: seq<Entry>, read: nat, n: nat, call: Call)
    requires OrderedLog(log) && read <= n < |log| && call in CallsIn(SettledMessages(log[..read]))
    ensures !HasResultFor([log[n]], call.id)
  {
    SettledCallsStay(log, read, n);
    assert call in CallsIn(SettledMessages(log[..n]));
  }

  lemma NoResultInAny(entries: seq<Entry>, callId: string)
    requires forall entry <- entries :: !HasResultFor([entry], callId)
    ensures !HasResultFor(entries, callId)
  {
    assert forall entry <- entries :: entry in [entry];
  }

  /** However a read cuts an ordered log, what it has not read yet holds no result for a call it settled. */
  lemma OrderedLogKeepsSettled(log: seq<Entry>, read: nat)
    requires OrderedLog(log) && read <= |log|
    ensures forall call <- CallsIn(SettledMessages(log[..read])) :: !HasResultFor(log[read..], call.id)
  {
    forall call <- CallsIn(SettledMessages(log[..read])) ensures !HasResultFor(log[read..], call.id) {
      forall entry <- log[read..] ensures !HasResultFor([entry], call.id) {
        var n :| read <= n < |log| && log[n] == entry;
        LaterEntryKeepsSettled(log, read, n, call);
      }
      NoResultInAny(log[read..], call.id);
    }
  }

  // ---------- The order is needed ----------

  const A_CALL := Call("c", "exec", "{}")
  const ASKED: seq<Entry> := [
    Entry(1, UserMessage("a")), Entry(2, Content.Assistant(Some([ToolCall(A_CALL)]))),
    Entry(3, UserMessage("b")), Entry(4, UserMessage("d"))]
  const LATE: seq<Entry> := [Entry(5, ToolResultEntry(Some(ToolResult("c", Some("1"), ""))))]

  /**
   * Out of that order the tail hides a change: a result that arrives once the chat went on by two messages leaves
   * the comparison with nothing to send, though the chat changed.
   */
  lemma LateResultIsHidden()
    ensures
      var sent, next := Chat(ASKED, NOTHING_LIVE), Chat(ASKED + LATE, NOTHING_LIVE);
      && !HasToolOutput(LATE)
      && !OrderedLog(ASKED + LATE)
      && sent != next
      && FrameChange(sent, next, TailStart(|sent|, |next|)).None?
  {
    FoldAsked();
    var all := ASKED + LATE;
    assert all[..|all| - 1] == ASKED;
    assert Results(all) == Results(ASKED)["c" := ToolResult("c", Some("1"), "")];
    NoResults(ASKED);
    NoOverrides(all);
    assert Running(NOTHING_LIVE) == {};
    assert all[..4] == ASKED && HasResultFor([all[4]], "c");
    assert A_CALL in CallsIn(SettledMessages(ASKED)) by {
      assert SettledMessages(ASKED)[1].parts[0] == Placeholder(A_CALL);
    }
    var sent, next := Chat(ASKED, NOTHING_LIVE), Chat(all, NOTHING_LIVE);
    assert sent[1].parts[0] == ToolPart(A_CALL, OutputError(STOPPED_TOOL_TEXT));
    assert next[1].parts[0] == ToolPart(A_CALL, OutputAvailable("1"));
    assert |sent| == |next| == 4;
    var tail := Fold(ASKED).messages[2..];
    RendersEqualExactly(tail, ToolsOf(ASKED, NOTHING_LIVE), ToolsOf(all, NOTHING_LIVE));
    assert sent[2..] == Render(tail, ToolsOf(ASKED, NOTHING_LIVE));
    assert next[2..] == Render(tail, ToolsOf(all, NOTHING_LIVE));
    PrefixReached(sent[2..], next[2..], 2);
  }

  lemma FoldAsked()
    ensures
      var messages := Fold(ASKED).messages;
      && |messages| == 4
      && messages[1].parts == [Placeholder(A_CALL)]
      && CallsIn(messages[2..]) == {}
  {
    var one, two, three := ASKED[..1], ASKED[..2], ASKED[..3];
    assert one[..0] == [] && two[..1] == one && three[..2] == two && ASKED[..3] == three;
    assert Fold(one) == AddEntry(EMPTY, ASKED[0]);
    assert Fold(two) == AddEntry(Fold(one), ASKED[1]);
    assert Fold(three) == AddEntry(Fold(two), ASKED[2]);
    assert Fold(ASKED) == AddEntry(Fold(three), ASKED[3]);
    var blocks := [ToolCall(A_CALL)];
    assert blocks[..0] == [];
    assert DoneCells(blocks) == DoneCells([]) + [Placeholder(A_CALL)];
  }

  lemma {:induction false} NoResults(entries: seq<Entry>)
    requires forall entry <- entries :: !entry.content.ToolResultEntry?
    ensures Results(entries) == map[]
  {
    if entries != [] {
      NoResults(entries[..|entries| - 1]);
      assert entries[|entries| - 1] in entries;
    }
  }

  lemma NoOverrides(entries: seq<Entry>)
    requires !HasToolOutput(entries)
    ensures Overrides(entries) == map[]
  {
    assert [] + entries == entries;
    OverridesStay([], entries);
  }
}
