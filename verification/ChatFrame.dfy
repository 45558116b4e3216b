/**
 * The diff the agent sends and the patch the browser applies (cloudchef-agent/chat-frame.ts). A part is an abstract
 * value with equality: the source compares its JSON text.
 */
module ChatFrame {
  import opened Wrappers

  datatype Role = User | Assistant | System

  datatype Message<P> = Message(id: string, role: Role, parts: seq<P>)

  /** A patch: everything before message `from` stays, and `keepParts` parts of that message; `messages` is the rest. */
  datatype Change<P> = Change(from: nat, keepParts: nat, messages: seq<Message<P>>)

  predicate MessagesEqual<P(==)>(left: Message<P>, right: Message<P>): (equal: bool)
    ensures equal <==> left == right
  {
    && left.id == right.id
    && left.role == right.role
    && |left.parts| == |right.parts|
    && forall k | 0 <= k < |left.parts| :: left.parts[k] == right.parts[k]
  }

  /** How many leading elements two sequences share. */
  function CommonPrefix<T(==)>(a: seq<T>, b: seq<T>): (n: nat)
    ensures n <= |a| && n <= |b| && a[..n] == b[..n]
    ensures n < |a| && n < |b| ==> a[n] != b[n]
  {
    if |a| == 0 || |b| == 0 || a[0] != b[0] then 0 else
    var n := 1 + CommonPrefix(a[1..], b[1..]);
    assert a[..n] == [a[0]] + a[1..][..n - 1] && b[..n] == [b[0]] + b[1..][..n - 1];
    n
  }

  /** Where the comparison starts: never past the end of either chat. */
  function CompareStart<P>(previous: seq<Message<P>>, next: seq<Message<P>>, compareFrom: nat): nat {
    Min(compareFrom, Min(|previous|, |next|))
  }

  predicate SameHeader<P>(previous: seq<Message<P>>, next: seq<Message<P>>, at: nat) {
    at < |previous| && at < |next| && previous[at].id == next[at].id && previous[at].role == next[at].role
  }

  /** The first message from `compareFrom` on that differs, or the end of the shorter chat. */
  function FirstDifference<P(==)>(previous: seq<Message<P>>, next: seq<Message<P>>, compareFrom: nat): (from: nat)
    ensures from <= |previous| && from <= |next|
    ensures from < |previous| && from < |next| ==> previous[from] != next[from]
  {
    var start := CompareStart(previous, next, compareFrom);
    start + CommonPrefix(previous[start..], next[start..])
  }

  /** The leading parts the message at `from` keeps: none unless it is the same message. */
  function KeptParts<P(==)>(previous: seq<Message<P>>, next: seq<Message<P>>, from: nat): (keepParts: nat)
    ensures keepParts > 0 ==>
              && from < |previous| && from < |next|
              && keepParts <= |previous[from].parts| && keepParts <= |next[from].parts|
              && previous[from].parts[..keepParts] == next[from].parts[..keepParts]
  {
    if SameHeader(previous, next, from) then CommonPrefix(previous[from].parts, next[from].parts) else 0
  }

  /** The change from `previous` to `next`, as the loops below compute it. */
  function FrameChange<P(==)>(previous: seq<Message<P>>, next: seq<Message<P>>, compareFrom: nat): Option<Change<P>> {
    var from := FirstDifference(previous, next, compareFrom);
    if from == |previous| && from == |next| then None else
    var keepParts := KeptParts(previous, next, from);
    Some(Change(from, keepParts, DropParts(next[from..], keepParts)))
  }

  /** `messages` without the first `keepParts` parts of its first message. */
  function DropParts<P>(messages: seq<Message<P>>, keepParts: nat): seq<Message<P>>
    requires keepParts > 0 ==> messages != [] && keepParts <= |messages[0].parts|
  {
    if keepParts == 0 then messages else messages[0 := messages[0].(parts := messages[0].parts[keepParts..])]
  }

  method ChatFrameChange<P(==)>(previous: seq<Message<P>>, next: seq<Message<P>>, compareFrom: nat)
    returns (change: Option<Change<P>>)
    ensures change == FrameChange(previous, next, compareFrom)
  {
    ghost var start := CompareStart(previous, next, compareFrom);
    var from: nat := Min(compareFrom, Min(|previous|, |next|));
    while from < |previous| && from < |next| && MessagesEqual(previous[from], next[from])
      invariant start <= from <= |previous| && from <= |next|
      invariant forall k | start <= k < from :: previous[k] == next[k]
    {
      from := from + 1;
    }
    PrefixReached(previous[start..], next[start..], from - start);
    assert from == FirstDifference(previous, next, compareFrom);
    if from == |previous| && from == |next| {
      return None;
    }
    var keepParts: nat := 0;
    if SameHeader(previous, next, from) {
      var before, after := previous[from].parts, next[from].parts;
      while keepParts < |before| && keepParts < |after| && before[keepParts] == after[keepParts]
        invariant keepParts <= |before| && keepParts <= |after|
        invariant before[..keepParts] == after[..keepParts]
      {
        keepParts := keepParts + 1;
      }
      PrefixReached(before, after, keepParts);
    }
    var messages := next[from..];
    if keepParts > 0 {
      messages := messages[0 := messages[0].(parts := messages[0].parts[keepParts..])];
    }
    return Some(Change(from, keepParts, messages));
  }

  /** The patched chat; slicing past the end stops there. */
  function ApplyChatFrame<P>(previous: seq<Message<P>>, change: Change<P>): seq<Message<P>> {
    var kept := previous[..Min(change.from, |previous|)];
    if change.messages == [] then kept else
    var first := change.messages[0];
    var keptParts :=
      if change.from < |previous|
      then previous[change.from].parts[..Min(change.keepParts, |previous[change.from].parts|)]
      else [];
    kept + [first.(parts := keptParts + first.parts)] + change.messages[1..]
  }

  lemma PrefixReached<T>(a: seq<T>, b: seq<T>, n: nat)
    requires n <= |a| && n <= |b| && a[..n] == b[..n]
    ensures n <= CommonPrefix(a, b)
    ensures n == |a| || n == |b| || a[n] != b[n] ==> n == CommonPrefix(a, b)
  {
    var m := CommonPrefix(a, b);
    SameUpTo(a, b, n);
    SameUpTo(a, b, m);
  }

  lemma SameUpTo<T>(a: seq<T>, b: seq<T>, n: nat)
    requires n <= |a| && n <= |b| && a[..n] == b[..n]
    ensures forall k | 0 <= k < n :: a[k] == b[k]
  {
    forall k | 0 <= k < n ensures a[k] == b[k] {
      assert a[k] == a[..n][k] && b[k] == b[..n][k];
    }
  }

  /** The patch undoes the diff, and no frame is sent exactly when nothing changed. */
  lemma PatchInvertsDiff<P>(previous: seq<Message<P>>, next: seq<Message<P>>, compareFrom: nat)
    requires
      var start := CompareStart(previous, next, compareFrom);
      previous[..start] == next[..start]
    ensures FrameChange(previous, next, compareFrom).None? <==> previous == next
    ensures FrameChange(previous, next, compareFrom).Some? ==>
              ApplyChatFrame(previous, FrameChange(previous, next, compareFrom).value) == next
  {
    var from := FirstDifference(previous, next, compareFrom);
    SharedUpToDifference(previous, next, compareFrom);
    if from == |previous| && from == |next| {
      assert previous[..|previous|] == previous && next[..|next|] == next;
    } else if from < |next| {
      RebuildsMessage(previous, next, FrameChange(previous, next, compareFrom).value);
      SplitAt(next, from);
    } else {
      assert next[..|next|] == next;
      assert next[from..] == [];
    }
  }

  lemma SplitAt<T>(s: seq<T>, at: nat)
    requires at < |s|
    ensures s == s[..at] + [s[at]] + s[at + 1..]
  {
  }

  /** Everything a comparison passes over is shared. */
  lemma SharedUpToDifference<P>(previous: seq<Message<P>>, next: seq<Message<P>>, compareFrom: nat)
    requires
      var start := CompareStart(previous, next, compareFrom);
      previous[..start] == next[..start]
    ensures
      var from := FirstDifference(previous, next, compareFrom);
      previous[..from] == next[..from]
  {
    var start := CompareStart(previous, next, compareFrom);
    var from := FirstDifference(previous, next, compareFrom);
    assert previous[..from] == previous[..start] + previous[start..][..from - start];
    assert next[..from] == next[..start] + next[start..][..from - start];
  }

  lemma RebuildsMessage<P>(previous: seq<Message<P>>, next: seq<Message<P>>, change: Change<P>)
    requires change.from <= |previous| && change.from < |next|
    requires change.keepParts <= |next[change.from].parts|
    requires change.messages == DropParts(next[change.from..], change.keepParts)
    requires change.keepParts > 0 ==>
               && change.from < |previous| && change.keepParts <= |previous[change.from].parts|
               && previous[change.from].parts[..change.keepParts] == next[change.from].parts[..change.keepParts]
    ensures ApplyChatFrame(previous, change) == previous[..change.from] + [next[change.from]] + next[change.from + 1..]
  {
    var after := next[change.from];
    assert after.parts == after.parts[..change.keepParts] + after.parts[change.keepParts..];
    assert after.parts == [] + after.parts;
    assert change.messages[1..] == next[change.from + 1..];
    assert change.messages[0] == after.(parts := after.parts[change.keepParts..]);
    var kept := if change.from < |previous|
      then previous[change.from].parts[..Min(change.keepParts, |previous[change.from].parts|)]
      else [];
    assert kept == after.parts[..change.keepParts];
  }

  /** The browser already shows `next`: the frame that only carries progress leaves it alone. */
  lemma EmptyChangeKeeps<P>(messages: seq<Message<P>>)
    ensures ApplyChatFrame(messages, Change(|messages|, 0, [])) == messages
  {
    assert messages[..|messages|] == messages;
  }

  /** A whole chat is the frame that keeps nothing. */
  lemma SnapshotReplaces<P>(previous: seq<Message<P>>, messages: seq<Message<P>>)
    ensures ApplyChatFrame(previous, Change(0, 0, messages)) == messages
  {
    if messages != [] {
      var first := messages[0];
      assert [] + first.parts == first.parts;
      assert first.(parts := first.parts) == first;
      assert [first] + messages[1..] == messages;
      assert ApplyChatFrame(previous, Change(0, 0, messages))
          == previous[..0] + [first.(parts := [] + first.parts)] + messages[1..];
    }
  }

  /** A frame that keeps only what the browser has, and keeps parts only of a message it goes on. */
  predicate KeepsWhatIsThere<P>(previous: seq<Message<P>>, change: Change<P>) {
    && change.from <= |previous|
    && (change.keepParts > 0 ==>
          change.messages != [] && change.from < |previous| && change.keepParts <= |previous[change.from].parts|)
  }

  /** Compared from the start, no frame that rebuilds `next` keeps more messages. */
  lemma FromIsMaximal<P>(previous: seq<Message<P>>, next: seq<Message<P>>, other: Change<P>)
    requires previous != next
    requires KeepsWhatIsThere(previous, other) && ApplyChatFrame(previous, other) == next
    ensures FrameChange(previous, next, 0).Some?
    ensures other.from <= FrameChange(previous, next, 0).value.from
  {
    PatchInvertsDiff(previous, next, 0);
    assert previous[0..] == previous && next[0..] == next;
    assert next[..other.from] == previous[..other.from];
    PrefixReached(previous, next, other.from);
  }

  /** The one family `keepParts` misses: the message got another id or role, and still starts with the same part. */
  predicate RenamedKeepingParts<P(==)>(previous: seq<Message<P>>, next: seq<Message<P>>, at: nat) {
    && at < |previous| && at < |next|
    && !SameHeader(previous, next, at)
    && previous[at].parts != [] && next[at].parts != [] && previous[at].parts[0] == next[at].parts[0]
  }

  ghost predicate KeepPartsMaximal<P(!new)>(previous: seq<Message<P>>, next: seq<Message<P>>, change: Change<P>) {
    forall other: Change<P> ::
      KeepsWhatIsThere(previous, other) && ApplyChatFrame(previous, other) == next && other.from == change.from
      ==> other.keepParts <= change.keepParts
  }

  /** `keepParts` is the most any frame can keep at that message, except for a renamed message, and only then. */
  lemma KeepPartsIsMaximalExactly<P(!new)>(previous: seq<Message<P>>, next: seq<Message<P>>)
    requires previous != next
    ensures FrameChange(previous, next, 0).Some?
    ensures
      var change := FrameChange(previous, next, 0).value;
      KeepPartsMaximal(previous, next, change) <==> !RenamedKeepingParts(previous, next, change.from)
  {
    PatchInvertsDiff(previous, next, 0);
    var change := FrameChange(previous, next, 0).value;
    if RenamedKeepingParts(previous, next, change.from) {
      SharedUpToDifference(previous, next, 0);
      KeepsOneMore(previous, next, change.from);
    } else {
      forall other: Change<P> |
        KeepsWhatIsThere(previous, other) && ApplyChatFrame(previous, other) == next && other.from == change.from
        ensures other.keepParts <= change.keepParts
      {
        if other.keepParts > 0 {
          KeptPartsAgree(previous, next, other);
        }
      }
    }
  }

  lemma KeepsOneMore<P>(previous: seq<Message<P>>, next: seq<Message<P>>, at: nat)
    requires RenamedKeepingParts(previous, next, at) && previous[..at] == next[..at]
    ensures
      var other := Change(at, 1, [next[at].(parts := next[at].parts[1..])] + next[at + 1..]);
      KeepsWhatIsThere(previous, other) && ApplyChatFrame(previous, other) == next
  {
    assert next[at].parts == previous[at].parts[..1] + next[at].parts[1..];
    assert next == next[..at] + [next[at]] + next[at + 1..];
  }

  lemma KeptPartsAgree<P>(previous: seq<Message<P>>, next: seq<Message<P>>, change: Change<P>)
    requires KeepsWhatIsThere(previous, change) && change.keepParts > 0
    requires ApplyChatFrame(previous, change) == next
    ensures change.from < |next|
    ensures !SameHeader(previous, next, change.from) ==> RenamedKeepingParts(previous, next, change.from)
    ensures SameHeader(previous, next, change.from) ==> change.keepParts <= KeptParts(previous, next, change.from)
  {
    var kept := previous[change.from].parts[..change.keepParts];
    assert next[change.from].parts == kept + change.messages[0].parts;
    assert next[change.from].parts[..change.keepParts] == kept;
    SameUpTo(previous[change.from].parts, next[change.from].parts, change.keepParts);
    PrefixReached(previous[change.from].parts, next[change.from].parts, change.keepParts);
  }
}
