/**
 * Reading a whole workspace while it changes (app/agents/builder-workspace-seed.ts, `readWholeSyncFeed`, and the
 * pages it is given, user-workspace-runtime/src/index.ts:996-1049). What the workspace holds at each revision is a
 * parameter.
 */
module WorkspaceFeed {
  import opened Wrappers
  import opened WorkspaceRevert

  const MAX_RESTARTS: nat := 5
  const SYNC_BATCH_FILES: nat := 100
  const SYNC_BATCH_BYTES: nat := 4 * 1024 * 1024

  datatype Cursor = Cursor(revision: nat, index: nat)

  datatype Page = Page(restart: bool, entries: Listing, targetRevision: nat, nextCursor: Option<Cursor>)

  /** The workspace's revision when a page is asked for, and when its files were read. */
  datatype Moment = Moment(before: nat, after: nat)

  /** Where a page that starts there ends: at the file cap or before the file that does not fit. */
  function PageStop(files: Listing, start: nat, stop: nat, bytes: nat): (end: nat)
    requires start <= stop <= |files|
    ensures stop <= end <= |files| && (start == stop < |files| ==> end > start)
    decreases |files| - stop
  {
    if stop == |files| || stop - start >= SYNC_BATCH_FILES
       || (stop > start && bytes + |files[stop].bytes| > SYNC_BATCH_BYTES)
    then stop else
    PageStop(files, start, stop + 1, bytes + |files[stop].bytes|)
  }

  function TotalBytes(files: Listing): nat {
    if files == [] then 0 else TotalBytes(files[..|files| - 1]) + |files[|files| - 1].bytes|
  }

  /** Within both caps, but for a lone larger file. */
  predicate FitsPage(files: Listing) {
    |files| <= 100 && (|files| > 1 ==> TotalBytes(files) <= 4 * 1024 * 1024)
  }

  /** The files from `start` to `end` fit on a page, and with the next one they would not. */
  ghost predicate LongestStretch(files: Listing, start: nat, end: nat) {
    && start <= end <= |files| && FitsPage(files[start..end])
    && (end < |files| ==> end > start && !FitsPage(files[start..end + 1]))
  }

  lemma OneFileMore(files: Listing, start: nat, stop: nat)
    requires start <= stop < |files|
    ensures TotalBytes(files[start..stop + 1]) == TotalBytes(files[start..stop]) + |files[stop].bytes|
  {
    assert files[start..stop + 1][..stop - start] == files[start..stop];
  }

  lemma {:induction false} StopIsLongest(files: Listing, start: nat, stop: nat)
    requires start <= stop <= |files| && FitsPage(files[start..stop])
    ensures LongestStretch(files, start, PageStop(files, start, stop, TotalBytes(files[start..stop])))
    decreases |files| - stop
  {
    if stop < |files| {
      OneFileMore(files, start, stop);
      if FitsPage(files[start..stop + 1]) {
        StopIsLongest(files, start, stop + 1);
      }
    }
  }

  /** Where a page that goes on from there starts. */
  function PageStart(files: Listing, cursor: Option<Cursor>): (start: nat)
    ensures start <= |files|
    ensures start == if cursor.None? then 0 else if cursor.value.index < |files| then cursor.value.index else |files|
  {
    if cursor.Some? then Min(cursor.value.index, |files|) else 0
  }

  /** A page that is no restart shows a longest stretch of the files, from where it was asked to go on. */
  lemma PageIsLongest(filesAt: nat -> Listing, cursor: Option<Cursor>, moment: Moment) returns (end: nat)
    requires filesAt(0) == [] && !SyncPage(filesAt, cursor, moment).restart
    ensures var page := SyncPage(filesAt, cursor, moment);
            var files := filesAt(page.targetRevision);
            var start := PageStart(files, cursor);
            && LongestStretch(files, start, end) && page.entries == files[start..end]
            && page.nextCursor == if end < |files| then Some(Cursor(page.targetRevision, end)) else None
  {
    var files := filesAt(SyncPage(filesAt, cursor, moment).targetRevision);
    var start := PageStart(files, cursor);
    assert files[start..start] == [];
    StopIsLongest(files, start, start);
    end := PageStop(files, start, start, 0);
  }

  /** What the runtime answers: a restart when the revision is no longer the one the reading began at. */
  function SyncPage(filesAt: nat -> Listing, cursor: Option<Cursor>, moment: Moment): Page {
    var target := if cursor.Some? then cursor.value.revision else moment.before;
    if moment.before != target then Page(true, [], moment.before, None)
    else if cursor.None? && target == 0 then Page(false, [], target, None)
    else if moment.after != target then Page(true, [], moment.after, None)
    else
      var files := filesAt(target);
      var start := PageStart(files, cursor);
      var end := PageStop(files, start, start, 0);
      Page(false, files[start..end], target, if end < |files| then Some(Cursor(target, end)) else None)
  }

  /** The workspace stayed at one revision over these calls. */
  ghost predicate Quiet(moments: nat -> Moment, from: nat, to: nat) {
    forall call | from <= call < to :: moments(call) == Moment(moments(from).before, moments(from).before)
  }

  /** Passes over the feed, each from its first call to the one after its last, one right after the other. */
  ghost predicate Passes(moments: nat -> Moment, starts: seq<nat>, last: nat) {
    && |starts| > 0 && starts[0] == 0 && starts[|starts| - 1] <= last
    && forall k | 0 < k < |starts| :: starts[k - 1] < starts[k] && !Quiet(moments, starts[k - 1], starts[k])
  }

  /** The files read so far in this pass. */
  ghost predicate Reading(
    filesAt: nat -> Listing, moments: nat -> Moment, start: nat, call: nat, files: Listing, cursor: Option<Cursor>) {
    && start <= call && Quiet(moments, start, call)
    && (if cursor.None? then start == call && files == [] else
        && start < call && cursor.value.revision == moments(start).before
        && cursor.value.index <= |filesAt(cursor.value.revision)|
        && files == filesAt(cursor.value.revision)[..cursor.value.index])
  }

  /** What is still to read, for termination: whole passes first. */
  ghost function Left(filesAt: nat -> Listing, cursor: Option<Cursor>): nat {
    if cursor.None? then 0 else
    var files := filesAt(cursor.value.revision);
    if cursor.value.index <= |files| then |files| - cursor.value.index else 0
  }

  /** What one more page says: a change within the pass, its end, or how far it has got. */
  lemma PageRead(
    filesAt: nat -> Listing, moments: nat -> Moment, start: nat, call: nat, files: Listing, cursor: Option<Cursor>)
    requires filesAt(0) == [] && Reading(filesAt, moments, start, call, files, cursor)
    ensures var page := SyncPage(filesAt, cursor, moments(call));
            var next := call + 1;
            if page.restart then !Quiet(moments, start, next)
            else if page.nextCursor.None? then
              && page.targetRevision == moments(start).before == moments(call).before
              && files + page.entries == filesAt(page.targetRevision)
            else
              && Reading(filesAt, moments, start, next, files + page.entries, page.nextCursor)
              && (cursor.Some? ==> Left(filesAt, page.nextCursor) < Left(filesAt, cursor))
  {
    var page, next := SyncPage(filesAt, cursor, moments(call)), call + 1;
    if page.restart {
      assert start <= call < next && moments(call) != Moment(moments(start).before, moments(start).before);
    } else if page.nextCursor.None? {
      if cursor.Some? || moments(start).before != 0 {
        var all := filesAt(page.targetRevision);
        assert files == all[..|files|] && page.entries == all[|files|..|all|];
      }
    } else {
      var all := filesAt(page.targetRevision);
      assert files == all[..|files|] && page.entries == all[|files|..page.nextCursor.value.index];
      assert files + page.entries == all[..page.nextCursor.value.index];
    }
  }

  lemma PassEnds(moments: nat -> Moment, starts: seq<nat>, call: nat, next: nat)
    requires Passes(moments, starts, call) && next == call + 1 && !Quiet(moments, starts[|starts| - 1], next)
    ensures Passes(moments, starts + [next], next)
  {
  }

  /**
   * What is returned is everything the workspace held at the revision returned, however it changed meanwhile, and the
   * workspace was at that revision at each call of the pass. Nothing is returned exactly when it changed within each of
   * six passes.
   */
  method ReadWholeSyncFeed(filesAt: nat -> Listing, moments: nat -> Moment)
    returns (result: Option<(Listing, nat)>, ghost starts: seq<nat>, ghost calls: nat)
    requires filesAt(0) == []
    ensures Passes(moments, starts, calls)
    ensures result.None? <==> |starts| == MAX_RESTARTS + 2
    ensures result.Some? ==> result.value.0 == filesAt(result.value.1)
    ensures result.Some? ==>
              var start := starts[|starts| - 1];
              && |starts| <= MAX_RESTARTS + 1 && start < calls
              && forall call | start <= call < calls :: moments(call).before == result.value.1
  {
    var files: Listing, cursor: Option<Cursor>, restarts, call := [], None, 0, 0;
    starts := [0];
    calls := 0;
    while restarts <= MAX_RESTARTS
      invariant restarts <= MAX_RESTARTS + 1 && |starts| == restarts + 1 && calls == call
      invariant Passes(moments, starts, call)
      invariant Reading(filesAt, moments, starts[restarts], call, files, cursor)
      decreases MAX_RESTARTS + 1 - restarts, cursor.None?, Left(filesAt, cursor)
    {
      PageRead(filesAt, moments, starts[restarts], call, files, cursor);
      var page := SyncPage(filesAt, cursor, moments(call));
      call, calls := call + 1, calls + 1;
      if page.restart {
        PassEnds(moments, starts, call - 1, call);
        restarts := restarts + 1;
        files := [];
        cursor := None;
        starts := starts + [call];
        continue;
      }
      files := files + page.entries;
      if page.nextCursor.None? {
        return Some((files, page.targetRevision)), starts, calls;
      }
      cursor := page.nextCursor;
    }
    return None, starts, calls;
  }
}
