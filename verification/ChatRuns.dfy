/**
 * Every run of the chat stream: the log grows, pages are read, frames are sent and delivered, browsers come and go.
 * Sending diffs refines sending the whole chat each time.
 */
module ChatRuns {
  import opened Wrappers
  import opened ChatFrame
  import opened ChatView
  import opened ChatTail
  import opened ChatStream

  /** What a browser shows, and the frames on their way to it. */
  datatype Browser = Browser(messages: seq<Message<Part>>, busy: bool, inbox: seq<Frame>)

  function Receive(browser: Browser, frame: Frame): Browser {
    Browser(ApplyChatFrame(browser.messages, frame.change), frame.busy, browser.inbox)
  }

  /** The browser once every frame on its way arrived. */
  function Caught(browser: Browser): Browser
    decreases |browser.inbox|
  {
    if browser.inbox == [] then browser else
    Caught(Receive(browser.(inbox := browser.inbox[1..]), browser.inbox[0]))
  }

  /**
   * The conversation (`log`, `live`), the commits the stream was not told of yet, the stream and its browsers.
   * History: what `sent` was derived from, how long the log was when the read began, and whether a read failed since
   * the last one that ended.
   */
  datatype World = World(
    log: seq<Entry>, live: Live, notices: nat, server: Server, browsers: map<nat, Browser>,
    sentEntries: seq<Entry>, sentLive: Live, logAtBegin: nat, failed: bool)

  const NEW_WORLD := World([], NOTHING_LIVE, 0, NEW_SERVER, map[], [], NOTHING_LIVE, 0, false)

  datatype Event =
    | Commit(more: seq<Entry>, live: Live)
    | Notice
    | Refresh
    | StartBegins
    | FlushBegins
    | PageRead(first: nat, end: nat)
    | ReadEnds
    | ReadFails
    | Connect(browser: nat)
    | Disconnect(browser: nat)
    | Deliver(browser: nat)

  ghost predicate Ascending(log: seq<Entry>) {
    forall i, j | 0 <= i < j < |log| :: log[i].id < log[j].id
  }

  /** pi-durable's promise about a commit: ids ascend, results are in order, and settled calls stay as they were. */
  ghost predicate CommitAllowed(log: seq<Entry>, live: Live, more: seq<Entry>, live': Live) {
    && Ascending(log + more)
    && OrderedLog(log + more)
    && forall call <- CallsIn(SettledMessages(log)) :: call.id in Running(live) <==> call.id in Running(live')
  }

  ghost predicate Enabled(w: World, event: Event) {
    var s := w.server;
    match event
    case Commit(more, live) => CommitAllowed(w.log, w.live, more, live)
    case Notice => w.notices > 0
    case Refresh => s.started
    case StartBegins => !s.started && s.phase.Idle?
    case FlushBegins => s.started
    case PageRead(first, end) =>
      // The first page starts no later than where the read began; the next ones go on from there.
      && s.phase.Reading?
      && first <= end <= |w.log|
      && (if |s.entries| == s.phase.before then first <= |s.entries| else first == |s.entries|)
      && |s.entries| <= end
    case ReadEnds => s.phase.Reading? && |s.entries| >= w.logAtBegin
    case ReadFails => s.phase.Reading?
    case Connect(b) => s.started && b !in w.browsers
    case Disconnect(b) => b in w.browsers
    case Deliver(b) => b in w.browsers && w.browsers[b].inbox != []
  }

  function Broadcast(browsers: map<nat, Browser>, frame: Option<Frame>): map<nat, Browser> {
    match frame
    case None => browsers
    case Some(frame) => map b <- browsers :: browsers[b].(inbox := browsers[b].inbox + [frame])
  }

  ghost function Next(w: World, event: Event): World
    requires Enabled(w, event)
  {
    var s := w.server;
    match event
    case Commit(more, live) => w.(log := w.log + more, live := live, notices := w.notices + 1)
    case Notice => w.(notices := w.notices - 1, server := s.(dirty := true))
    case Refresh => w.(server := s.(dirty := true))
    case StartBegins => w.(server := BeginRead(s), logAtBegin := |w.log|)
    case FlushBegins =>
      if BeginFlush(s) == s then w else w.(server := BeginFlush(s), logAtBegin := |w.log|)
    case PageRead(first, end) => w.(server := ReadPage(s, w.log[first..end]))
    case ReadEnds =>
      if s.started then
        var (s', frame) := FinishFlush(s, w.live);
        w.(server := s', browsers := Broadcast(w.browsers, frame),
           sentEntries := s.entries, sentLive := w.live, failed := false)
      else
        w.(server := FinishStart(s, w.live), sentEntries := s.entries, sentLive := w.live, failed := false)
    case ReadFails => w.(server := s.(phase := Idle), failed := true)
    case Connect(b) => w.(browsers := w.browsers[b := Browser([], false, [WholeFrame(s)])])
    case Disconnect(b) => w.(browsers := w.browsers - {b})
    case Deliver(b) =>
      var browser := w.browsers[b];
      w.(browsers := w.browsers[b := Receive(browser.(inbox := browser.inbox[1..]), browser.inbox[0])])
  }

  // ---------- The invariant ----------

  ghost predicate LogInv(w: World) {
    && Ascending(w.log) && OrderedLog(w.log)
    && w.server.entries <= w.log
    && (w.server.phase.Reading? ==>
          && w.server.phase.before <= |w.server.entries|
          && w.server.phase.last == LastId(w.server.entries[..w.server.phase.before])
          && w.logAtBegin <= |w.log|)
  }

  ghost predicate SentInv(w: World) {
    && w.sentEntries <= w.server.entries
    && w.server.sent == Chat(w.sentEntries, w.sentLive)
    && w.server.live == w.sentLive && w.server.sentBusy == w.sentLive.run
    && (w.server.overrideSeen || !HasToolOutput(w.server.entries[|w.sentEntries|..]))
    && (forall call <- CallsIn(SettledMessages(w.sentEntries)) ::
          call.id in Running(w.sentLive) <==> call.id in Running(w.live))
  }

  ghost predicate BrowsersInv(w: World) {
    forall b <- w.browsers :: Caught(w.browsers[b]) == Browser(w.server.sent, w.server.sentBusy, [])
  }

  /** Nothing is lost: once every notice was taken and no flush is due, what was sent is the whole conversation. */
  ghost predicate FreshInv(w: World) {
    !w.server.dirty && w.notices == 0 ==>
      && (w.server.phase.Reading? ==> w.logAtBegin == |w.log|)
      && (w.server.phase.Idle? && w.server.started && !w.failed ==> w.sentEntries == w.log && w.sentLive == w.live)
  }

  ghost predicate Inv(w: World) {
    && LogInv(w)
    && FreshInv(w)
    && if w.server.started then SentInv(w) && BrowsersInv(w) else w.browsers == map[]
  }

  // ---------- Reading ----------

  /** What the stretches of one read push is exactly what the log holds beyond what was read. */
  lemma ReadPageFollowsLog(s: Server, log: seq<Entry>, first: nat, end: nat)
    requires Ascending(log) && s.entries <= log
    requires s.phase.Reading? && s.phase.before <= |s.entries| && s.phase.last == LastId(s.entries[..s.phase.before])
    requires first <= end <= |log| && |s.entries| <= end
    requires if |s.entries| == s.phase.before then first <= |s.entries| else first == |s.entries|
    ensures ReadPage(s, log[first..end]).entries == log[..end]
    ensures After(log[first..end], s.phase.last) == log[|s.entries|..end]
  {
    assert s.entries[..s.phase.before] == log[..s.phase.before];
    AfterSkipsRead(log, s.phase.before, first, end);
    assert Max(first, s.phase.before) == |s.entries|;
    Continues(s.entries, log, end);
  }

  lemma Continues(entries: seq<Entry>, log: seq<Entry>, end: nat)
    requires entries <= log && |entries| <= end <= |log|
    ensures entries + log[|entries|..end] == log[..end]
  {
  }

  lemma {:induction false} AfterTogether(a: seq<Entry>, b: seq<Entry>, last: Option<nat>)
    ensures After(a + b, last) == After(a, last) + After(b, last)
    decreases |b|
  {
    if b == [] {
      assert a + b == a;
    } else {
      assert (a + b)[..|a + b| - 1] == a + b[..|b| - 1];
      AfterTogether(a, b[..|b| - 1], last);
    }
  }

  lemma {:induction false} AllUnread(page: seq<Entry>, last: Option<nat>)
    requires last.Some? ==> forall k | 0 <= k < |page| :: page[k].id > last.value
    ensures After(page, last) == page
  {
    if page != [] {
      AllUnread(page[..|page| - 1], last);
    }
  }

  lemma {:induction false} AllRead(page: seq<Entry>, last: Option<nat>)
    requires last.Some? && forall k | 0 <= k < |page| :: page[k].id <= last.value
    ensures After(page, last) == []
  {
    if page != [] {
      AllRead(page[..|page| - 1], last);
    }
  }

  lemma ReadUpToThere(log: seq<Entry>, before: nat, first: nat)
    requires Ascending(log) && first < before <= |log|
    ensures After(log[first..before], LastId(log[..before])) == []
  {
    AllRead(log[first..before], LastId(log[..before]));
  }

  lemma UnreadFromThere(log: seq<Entry>, before: nat, from: nat, end: nat)
    requires Ascending(log) && before <= from <= end <= |log|
    ensures After(log[from..end], LastId(log[..before])) == log[from..end]
  {
    AllUnread(log[from..end], LastId(log[..before]));
  }

  lemma CutAt(log: seq<Entry>, first: nat, from: nat, end: nat)
    requires first <= from <= end <= |log|
    ensures log[first..from] + log[from..end] == log[first..end]
  {
  }

  /** Of a stretch of the log, what lies beyond the entries read is pushed. */
  lemma AfterSkipsRead(log: seq<Entry>, before: nat, first: nat, end: nat)
    requires Ascending(log) && first <= end <= |log| && before <= end
    ensures After(log[first..end], LastId(log[..before])) == log[Max(first, before)..end]
  {
    var from, last := Max(first, before), LastId(log[..before]);
    if first < before {
      ReadUpToThere(log, before, first);
    }
    UnreadFromThere(log, before, from, end);
    AfterTogether(log[first..from], log[from..end], last);
    CutAt(log, first, from, end);
  }

  // ---------- Sending ----------

  lemma {:induction false} CaughtAppend(browser: Browser, frame: Frame)
    ensures Caught(browser.(inbox := browser.inbox + [frame])) == Receive(Caught(browser), frame)
    decreases |browser.inbox|
  {
    var longer := browser.(inbox := browser.inbox + [frame]);
    if browser.inbox == [] {
      assert longer.inbox == [frame] && longer.inbox[1..] == [];
      assert Caught(longer) == Caught(Receive(browser, frame));
    } else {
      var step := Receive(browser.(inbox := browser.inbox[1..]), browser.inbox[0]);
      assert longer.inbox[1..] == browser.inbox[1..] + [frame];
      CaughtAppend(step, frame);
    }
  }

  /** One flush: whatever frame it sends, a browser showing the old chat then shows the new one. */
  lemma FlushPatches(w: World, shown: Browser)
    requires LogInv(w) && SentInv(w) && w.server.phase.Reading?
    requires shown == Browser(w.server.sent, w.server.sentBusy, [])
    ensures
      var (s', frame) := FinishFlush(w.server, w.live);
      var shown' := if frame.None? then shown else Receive(shown, frame.value);
      && shown' == Browser(Chat(w.server.entries, w.live), w.live.run, [])
      && shown' == Browser(s'.sent, s'.sentBusy, [])
  {
    var s := w.server;
    var next := Chat(s.entries, w.live);
    var more := s.entries[|w.sentEntries|..];
    assert s.entries == w.sentEntries + more;
    var start := CompareStart(s.sent, next, CompareFrom(s, next));
    if CompareFrom(s, next) == 0 {
      assert s.sent[..start] == next[..start];
    } else {
      SettledStay(w, more);
      TailComparisonSound(w.sentEntries, w.sentLive, more, w.live);
    }
    PatchInvertsDiff(s.sent, next, CompareFrom(s, next));
    EmptyChangeKeeps(next);
  }

  /** A flush is silent exactly when nothing changed: the chat, the busy flag, and no tool shows its progress. */
  lemma SilentExactly(w: World)
    requires LogInv(w) && SentInv(w) && w.server.phase.Reading?
    ensures
      FinishFlush(w.server, w.live).1.None? <==>
        && Chat(w.server.entries, w.live) == w.server.sent && w.live.run == w.server.sentBusy
        && forall slot <- w.live.tools :: !InProgress(slot)
  {
    FlushSays(w.server, w.live);
    FlushPatches(w, Browser(w.server.sent, w.server.sentBusy, []));
    var slots := ProgressIsLive(w.live.tools);
    if LiveToolProgress(w.live.tools) != [] {
      assert slots[0] in slots;
    }
    forall k | 0 <= k < |w.live.tools| && InProgress(w.live.tools[k])
      ensures LiveToolProgress(w.live.tools) != []
    {
      assert k in slots;
    }
  }

  lemma SettledStay(w: World, more: seq<Entry>)
    requires LogInv(w) && SentInv(w) && more == w.server.entries[|w.sentEntries|..]
    ensures Orderly(w.sentEntries, w.sentLive, more, w.live)
  {
    OrderedLogKeepsSettled(w.log, |w.sentEntries|);
    assert w.log[..|w.sentEntries|] == w.sentEntries;
    forall call <- CallsIn(SettledMessages(w.sentEntries)) ensures !HasResultFor(more, call.id) {
      assert more <= w.log[|w.sentEntries|..];
    }
  }

  lemma CommitKeeps(w: World, event: Event)
    requires Inv(w) && event.Commit? && Enabled(w, event)
    ensures Inv(Next(w, event))
  {
    if w.server.started {
      var suffix := w.log[|w.sentEntries|..];
      assert w.log == w.sentEntries + suffix;
      FoldKeepsSettled(w.sentEntries, suffix);
      CallsGrow(SettledMessages(w.sentEntries), SettledMessages(w.log));
    }
  }

  lemma PageKeeps(w: World, event: Event)
    requires Inv(w) && event.PageRead? && Enabled(w, event)
    ensures Inv(Next(w, event))
  {
    var s := w.server;
    ReadPageFollowsLog(s, w.log, event.first, event.end);
    var pushed := w.log[|s.entries|..event.end];
    var s' := ReadPage(s, w.log[event.first..event.end]);
    assert s'.entries == s.entries + pushed;
    CutLonger(s.entries, pushed, s.phase.before);
    if s.started {
      CutLonger(s.entries, pushed, |w.sentEntries|);
    }
  }

  lemma CutLonger(entries: seq<Entry>, pushed: seq<Entry>, at: nat)
    requires at <= |entries|
    ensures (entries + pushed)[..at] == entries[..at] && (entries + pushed)[at..] == entries[at..] + pushed
  {
  }

  lemma ReadEndKeeps(w: World)
    requires Inv(w) && Enabled(w, ReadEnds)
    ensures Inv(Next(w, ReadEnds))
  {
    var w' := Next(w, ReadEnds);
    assert w.server.entries[|w.server.entries|..] == [];
    if w.server.started {
      var frame := FinishFlush(w.server, w.live).1;
      forall b | b in w'.browsers
        ensures Caught(w'.browsers[b]) == Browser(w'.server.sent, w'.server.sentBusy, [])
      {
        FlushPatches(w, Caught(w.browsers[b]));
        if frame.Some? {
          CaughtAppend(w.browsers[b], frame.value);
        }
      }
    }
  }

  lemma BrowserEventKeeps(w: World, event: Event)
    requires Inv(w) && Enabled(w, event) && (event.Connect? || event.Disconnect? || event.Deliver?)
    ensures Inv(Next(w, event))
  {
    if event.Connect? {
      SnapshotReplaces([], w.server.sent);
    }
  }

  lemma StreamEventKeeps(w: World, event: Event)
    requires Inv(w) && Enabled(w, event)
    requires event.Notice? || event.Refresh? || event.StartBegins? || event.FlushBegins? || event.ReadFails?
    ensures Inv(Next(w, event))
  {
    assert w.server.entries[..|w.server.entries|] == w.server.entries;
  }

  /** Every step keeps the invariant. */
  lemma NextKeeps(w: World, event: Event)
    requires Inv(w) && Enabled(w, event)
    ensures Inv(Next(w, event))
  {
    match event {
      case Commit(_, _) => CommitKeeps(w, event);
      case PageRead(_, _) => PageKeeps(w, event);
      case ReadEnds => ReadEndKeeps(w);
      case Connect(_) => BrowserEventKeeps(w, event);
      case Disconnect(_) => BrowserEventKeeps(w, event);
      case Deliver(_) => BrowserEventKeeps(w, event);
      case _ => StreamEventKeeps(w, event);
    }
  }

  // ---------- Runs ----------

  ghost predicate IsRun(w: World, events: seq<Event>)
    decreases |events|
  {
    events == [] || (Enabled(w, events[0]) && IsRun(Next(w, events[0]), events[1..]))
  }

  ghost function Run(w: World, events: seq<Event>): World
    requires IsRun(w, events)
    decreases |events|
  {
    if events == [] then w else Run(Next(w, events[0]), events[1..])
  }

  lemma {:induction false} RunKeeps(w: World, events: seq<Event>)
    requires Inv(w) && IsRun(w, events)
    ensures Inv(Run(w, events))
    decreases |events|
  {
    if events != [] {
      NextKeeps(w, events[0]);
      RunKeeps(Next(w, events[0]), events[1..]);
    }
  }

  lemma NewWorldInv()
    ensures Inv(NEW_WORLD)
  {
  }

  /**
   * Over every run, each browser's patched messages are the server's `sent`, which is the chat derived from what it
   * read; and once no notice is outstanding, no flush due and none failed, that is the whole conversation as it is.
   */
  lemma EveryBrowserShowsTheChat(events: seq<Event>, b: nat)
    requires IsRun(NEW_WORLD, events)
    requires b in Run(NEW_WORLD, events).browsers
    ensures
      var w := Run(NEW_WORLD, events);
      && Caught(w.browsers[b]).messages == w.server.sent == Chat(w.sentEntries, w.sentLive)
      && Caught(w.browsers[b]).busy == w.sentLive.run
      && w.sentEntries <= w.server.entries <= w.log
      && (w.server.phase.Idle? && !w.server.dirty && w.notices == 0 && !w.failed ==>
            Caught(w.browsers[b]).messages == Chat(w.log, w.live))
  {
    NewWorldInv();
    RunKeeps(NEW_WORLD, events);
  }

  // ---------- Refinement of the naive sender ----------

  /** The naive sender: at the end of each read every browser is given the whole chat. */
  datatype Naive = Naive(chat: seq<Message<Part>>, busy: bool, shown: map<nat, (seq<Message<Part>>, bool)>)

  ghost function NaiveNext(n: Naive, w: World, event: Event): Naive {
    match event
    case ReadEnds =>
      var chat, busy := Chat(w.server.entries, w.live), w.live.run;
      Naive(chat, busy, map b <- n.shown :: (chat, busy))
    case Connect(b) => n.(shown := n.shown[b := (n.chat, n.busy)])
    case Disconnect(b) => n.(shown := n.shown - {b})
    case _ => n
  }

  ghost function NaiveRun(n: Naive, w: World, events: seq<Event>): Naive
    requires IsRun(w, events)
    decreases |events|
  {
    if events == [] then n else NaiveRun(NaiveNext(n, w, events[0]), Next(w, events[0]), events[1..])
  }

  /** The naive sender has the same browsers, and each shows the chat the incremental one last sent. */
  ghost predicate Matches(w: World, n: Naive) {
    && n.shown.Keys == w.browsers.Keys
    && (w.server.started ==> n.chat == w.server.sent && n.busy == w.server.sentBusy)
    && forall b <- n.shown :: n.shown[b] == (n.chat, n.busy)
  }

  lemma NextMatches(w: World, n: Naive, event: Event)
    requires !w.server.started ==> w.browsers == map[]
    requires Matches(w, n) && Enabled(w, event)
    ensures Matches(Next(w, event), NaiveNext(n, w, event))
  {
    var w' := Next(w, event);
    assert !event.Connect? && !event.Disconnect? ==> w'.browsers.Keys == w.browsers.Keys;
  }

  lemma {:induction false} RunRefines(w: World, n: Naive, events: seq<Event>)
    requires Inv(w) && Matches(w, n) && IsRun(w, events)
    ensures Matches(Run(w, events), NaiveRun(n, w, events))
    decreases |events|
  {
    if events != [] {
      NextKeeps(w, events[0]);
      NextMatches(w, n, events[0]);
      RunRefines(Next(w, events[0]), NaiveNext(n, w, events[0]), events[1..]);
    }
  }

  /** Sending diffs refines sending the whole chat each time: after every run each browser shows the same. */
  lemma DiffsRefineWholeChats(events: seq<Event>)
    requires IsRun(NEW_WORLD, events)
    ensures
      var w, n := Run(NEW_WORLD, events), NaiveRun(Naive([], false, map[]), NEW_WORLD, events);
      && n.shown.Keys == w.browsers.Keys
      && forall b <- w.browsers :: n.shown[b] == (Caught(w.browsers[b]).messages, Caught(w.browsers[b]).busy)
  {
    NewWorldInv();
    RunRefines(NEW_WORLD, Naive([], false, map[]), events);
    RunKeeps(NEW_WORLD, events);
  }

  // ---------- A failed read ----------

  /**
   * A read that fails loses its flush: the source marks the chat clean before it reads and drops the error, so with
   * nothing left to do the browsers still show the chat from before the commit, whatever the commit changed.
   */
  lemma FailedReadLosesCommit(w: World, more: seq<Entry>, live: Live)
    requires Inv(w) && CommitAllowed(w.log, w.live, more, live)
    requires w.server.started && w.server.phase.Idle? && !w.server.dirty && w.notices == 0 && !w.failed
    ensures
      var events := [Commit(more, live), Notice, FlushBegins, ReadFails];
      IsRun(w, events) &&
      var w' := Run(w, events);
      && w'.server.phase.Idle? && !w'.server.dirty && w'.notices == 0
      && w'.log == w.log + more && w'.live == live
      && w'.browsers == w.browsers && w'.server.sent == Chat(w.log, w.live)
  {
    var w1 := Next(w, Commit(more, live));
    var w2 := Next(w1, Notice);
    var w3 := Next(w2, FlushBegins);
    FourSteps(w, Commit(more, live), Notice, FlushBegins, ReadFails, w1, w2, w3, Next(w3, ReadFails));
  }

  lemma RunCons(w: World, event: Event, rest: seq<Event>)
    requires Enabled(w, event) && IsRun(Next(w, event), rest)
    ensures IsRun(w, [event] + rest) && Run(w, [event] + rest) == Run(Next(w, event), rest)
  {
    assert ([event] + rest)[1..] == rest;
  }

  lemma FourSteps(w: World, a: Event, b: Event, c: Event, d: Event, w1: World, w2: World, w3: World, w4: World)
    requires Enabled(w, a) && w1 == Next(w, a) && Enabled(w1, b) && w2 == Next(w1, b)
    requires Enabled(w2, c) && w3 == Next(w2, c) && Enabled(w3, d) && w4 == Next(w3, d)
    ensures IsRun(w, [a, b, c, d]) && Run(w, [a, b, c, d]) == w4
  {
    RunCons(w3, d, []);
    RunCons(w2, c, [d]);
    RunCons(w1, b, [c, d]);
    RunCons(w, a, [b, c, d]);
    assert [d] + [] == [d] && [c] + [d] == [c, d] && [b] + [c, d] == [b, c, d] && [a] + [b, c, d] == [a, b, c, d];
  }

  /** A message of the person is one more message in the chat, whatever else is live. */
  lemma MessageShows(log: seq<Entry>, id: nat, text: string, live: Live)
    ensures |Chat(log + [Entry(id, UserMessage(text))], live)| > |Chat(log, live)|
  {
    assert (log + [Entry(id, UserMessage(text))])[..|log|] == log;
  }

  lemma MessageMayBeCommitted(log: seq<Entry>, id: nat, text: string, live: Live)
    requires Ascending(log) && OrderedLog(log) && forall entry <- log :: entry.id < id
    ensures CommitAllowed(log, live, [Entry(id, UserMessage(text))], live)
  {
    var longer := log + [Entry(id, UserMessage(text))];
    forall n | 0 <= n < |longer|
      ensures forall call <- CallsIn(SettledMessages(longer[..n])) :: !HasResultFor([longer[n]], call.id)
    {
      if n < |log| {
        assert longer[..n] == log[..n];
      }
    }
  }

  /** The loss is real: the message a person sent is in the log and in no browser. */
  lemma FailedReadLosesMessage(w: World, id: nat, text: string)
    requires Inv(w) && forall entry <- w.log :: entry.id < id
    requires w.server.started && w.server.phase.Idle? && !w.server.dirty && w.notices == 0 && !w.failed
    ensures
      var events := [Commit([Entry(id, UserMessage(text))], w.live), Notice, FlushBegins, ReadFails];
      IsRun(w, events) &&
      var w' := Run(w, events);
      && w'.server.phase.Idle? && !w'.server.dirty && w'.notices == 0
      && forall b <- w'.browsers :: |Caught(w'.browsers[b]).messages| < |Chat(w'.log, w'.live)|
  {
    MessageMayBeCommitted(w.log, id, text, w.live);
    MessageShows(w.log, id, text, w.live);
    FailedReadLosesCommit(w, [Entry(id, UserMessage(text))], w.live);
  }

  ghost predicate Reaches(events: seq<Event>, w: World) {
    IsRun(NEW_WORLD, events) && Run(NEW_WORLD, events) == w
  }

  lemma {:induction false} RunTogether(w: World, events: seq<Event>, later: seq<Event>)
    requires IsRun(w, events) && IsRun(Run(w, events), later)
    ensures IsRun(w, events + later) && Run(w, events + later) == Run(Run(w, events), later)
    decreases |events|
  {
    if events == [] {
      assert events + later == later;
    } else {
      assert (events + later)[1..] == events[1..] + later;
      RunTogether(Next(w, events[0]), events[1..], later);
    }
  }

  lemma ReachOne(events: seq<Event>, event: Event, w: World)
    requires Reaches(events, w) && Enabled(w, event)
    ensures Reaches(events + [event], Next(w, event))
  {
    assert [event][1..] == [];
    RunTogether(NEW_WORLD, events, [event]);
  }

  /** The stream started and read an empty conversation, and is idle. */
  predicate IsQuiet(w: World) {
    && w.log == [] && w.live == NOTHING_LIVE && w.notices == 0 && !w.failed
    && w.server.entries == [] && w.server.started && w.server.phase.Idle? && !w.server.dirty
  }

  lemma StartReached() returns (events: seq<Event>, w: World)
    ensures Reaches(events, w) && IsQuiet(w.(server := w.server.(dirty := false)))
        && w.server.dirty && w.browsers == map[]
  {
    ReachOne([], StartBegins, NEW_WORLD);
    w := Next(NEW_WORLD, StartBegins);
    ReachOne([] + [StartBegins], ReadEnds, w);
    events := [] + [StartBegins] + [ReadEnds];
    w := Next(w, ReadEnds);
  }

  lemma QuietReached(b: nat) returns (events: seq<Event>, w: World)
    ensures Reaches(events, w) && IsQuiet(w) && b in w.browsers
  {
    events, w := StartReached();
    ReachOne(events, FlushBegins, w);
    events, w := events + [FlushBegins], Next(w, FlushBegins);
    ReachOne(events, ReadEnds, w);
    events, w := events + [ReadEnds], Next(w, ReadEnds);
    ReachOne(events, Connect(b), w);
    events, w := events + [Connect(b)], Next(w, Connect(b));
  }

  /**
   * The loss is reached: a run after which, with nothing to do, a connected browser does not show what the person
   * sent.
   */
  lemma LossIsReached(b: nat, text: string)
    ensures exists events, w ::
              && Reaches(events, w) && b in w.browsers
              && w.server.phase.Idle? && !w.server.dirty && w.notices == 0
              && |Caught(w.browsers[b]).messages| < |Chat(w.log, w.live)|
  {
    var events, quiet := QuietReached(b);
    NewWorldInv();
    RunKeeps(NEW_WORLD, events);
    FailedReadLosesMessage(quiet, 1, text);
    FailedReadLosesCommitOf(quiet, text);
    var later := [Commit([Entry(1, UserMessage(text))], quiet.live), Notice, FlushBegins, ReadFails];
    RunTogether(NEW_WORLD, events, later);
    assert Reaches(events + later, Run(quiet, later));
  }

  lemma FailedReadLosesCommitOf(w: World, text: string)
    requires Inv(w) && IsQuiet(w)
    ensures
      var events := [Commit([Entry(1, UserMessage(text))], w.live), Notice, FlushBegins, ReadFails];
      IsRun(w, events) && Run(w, events).browsers == w.browsers
  {
    MessageMayBeCommitted(w.log, 1, text, w.live);
    FailedReadLosesCommit(w, [Entry(1, UserMessage(text))], w.live);
  }
}
