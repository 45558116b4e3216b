/**
 * Seeding a workspace from a commit (app/agents/builder-workspace-seed.ts, `seedBatches`, and
 * app/agents/linked-project-workspace.ts, `seedLinkedWorkspace`), with the part of the workspace's runtime it calls
 * (user-workspace-runtime/src/index.ts). Paths are those in the project.
 */
module WorkspaceSeed {
  import opened Wrappers
  import opened WorkspaceRevert

  const BATCH_FILES: nat := 100
  const BATCH_CHARACTERS: nat := 4 * 1024 * 1024 * 6
  const WORK_DIR := "/home/project"

  /** The path and content characters an entry is sent with: content goes as base64. */
  function Characters(entry: Entry<bv16>): nat {
    |WORK_DIR| + 1 + |entry.path| + (|entry.bytes| + 2) / 3 * 4
  }

  function TotalCharacters(entries: Listing): nat {
    if entries == [] then 0 else TotalCharacters(entries[..|entries| - 1]) + Characters(entries[|entries| - 1])
  }

  /** What one call may carry: a file over the cap goes alone. */
  predicate Fits(batch: Listing) {
    batch != [] && |batch| <= BATCH_FILES && (|batch| == 1 || TotalCharacters(batch) <= BATCH_CHARACTERS)
  }

  /** Each batch fits, and would not with the entry after it. */
  ghost predicate Greedy(batches: seq<Listing>) {
    batches == [] ||
    (Fits(batches[0]) && Greedy(batches[1..])
     && (|batches| == 1 || (batches[1] != [] && !Fits(batches[0] + [batches[1][0]]))))
  }

  /** The entries in order, in batches that fit and are as long as they can be. */
  ghost predicate Batched(entries: Listing, batches: seq<Listing>) {
    Flatten(batches) == entries && Greedy(batches)
  }

  /** The last of these batches would not fit with this entry. */
  ghost predicate ClosedBefore(batches: seq<Listing>, entry: Entry<bv16>) {
    batches == [] || !Fits(batches[|batches| - 1] + [entry])
  }

  lemma {:induction false} GreedySnoc(batches: seq<Listing>, batch: Listing)
    requires Greedy(batches) && Fits(batch) && ClosedBefore(batches, batch[0])
    ensures Greedy(batches + [batch])
  {
    if batches != [] {
      assert (batches + [batch])[1..] == batches[1..] + [batch];
      GreedySnoc(batches[1..], batch);
    }
  }

  lemma TotalSnoc(batch: Listing, entry: Entry<bv16>)
    ensures TotalCharacters(batch + [entry]) == TotalCharacters(batch) + Characters(entry)
  {
    assert (batch + [entry])[..|batch|] == batch;
  }

  lemma OneFits(entry: Entry<bv16>)
    ensures Fits([entry]) && TotalCharacters([entry]) == Characters(entry)
  {
    assert [entry][..0] == [];
  }

  lemma OneMoreFits(batch: Listing, entry: Entry<bv16>)
    requires Fits(batch)
    ensures Fits(batch + [entry]) <==>
            |batch| < BATCH_FILES && TotalCharacters(batch) + Characters(entry) <= BATCH_CHARACTERS
    ensures (batch + [entry])[0] == batch[0]
  {
    TotalSnoc(batch, entry);
  }

  /** The batches sent and the one being filled, once these entries are in. */
  ghost predicate Filling(entries: Listing, batches: seq<Listing>, batch: Listing) {
    && Flatten(batches) + batch == entries && Greedy(batches)
    && if batch == [] then batches == [] else Fits(batch) && ClosedBefore(batches, batch[0])
  }

  lemma FillOne(entries: Listing, batches: seq<Listing>, batch: Listing, entry: Entry<bv16>)
    requires Filling(entries, batches, batch) && (batch == [] || Fits(batch + [entry]))
    ensures Filling(entries + [entry], batches, batch + [entry])
  {
    OneFits(entry);
    if batch == [] {
      assert batch + [entry] == [entry];
    } else {
      OneMoreFits(batch, entry);
    }
    assert Flatten(batches) + (batch + [entry]) == entries + [entry];
  }

  lemma SendOne(entries: Listing, batches: seq<Listing>, batch: Listing)
    requires Filling(entries, batches, batch) && batch != []
    ensures Greedy(batches + [batch]) && Flatten(batches + [batch]) == entries
  {
    FlattenSnoc(batches, batch);
    GreedySnoc(batches, batch);
  }

  lemma StartOne(entries: Listing, batches: seq<Listing>, batch: Listing, entry: Entry<bv16>)
    requires Filling(entries, batches, batch) && batch != [] && !Fits(batch + [entry])
    ensures Filling(entries + [entry], batches + [batch], [entry])
  {
    SendOne(entries, batches, batch);
    OneFits(entry);
  }

  method SeedBatches(entries: Listing) returns (batches: seq<Listing>)
    ensures Batched(entries, batches)
  {
    batches := [];
    var batch: Listing, characters := [], 0;
    assert entries[..|entries|] == entries;
    for i := 0 to |entries|
      invariant Filling(entries[..i], batches, batch) && characters == TotalCharacters(batch)
    {
      var entry := entries[i];
      assert entries[..i + 1] == entries[..i] + [entry];
      TotalSnoc(batch, entry);
      OneFits(entry);
      if batch != [] {
        OneMoreFits(batch, entry);
      }
      if |batch| > 0 && (|batch| >= BATCH_FILES || characters + Characters(entry) > BATCH_CHARACTERS) {
        SendOne(entries[..i], batches, batch);
        StartOne(entries[..i], batches, batch, entry);
        batches := batches + [batch];
        batch := [];
        characters := 0;
        assert [] + [entry] == [entry];
      } else {
        FillOne(entries[..i], batches, batch, entry);
      }
      batch := batch + [entry];
      characters := characters + Characters(entry);
    }
    if |batch| > 0 {
      SendOne(entries, batches, batch);
      batches := batches + [batch];
    }
  }

  lemma {:induction false} PrefixFits(batch: Listing, n: nat)
    requires Fits(batch) && 0 < n <= |batch|
    ensures Fits(batch[..n])
    decreases |batch|
  {
    if n < |batch| {
      var shorter := batch[..|batch| - 1];
      assert Fits(shorter);
      PrefixFits(shorter, n);
      assert shorter[..n] == batch[..n];
    } else {
      assert batch[..n] == batch;
    }
  }

  /** A first batch that ends sooner than another would fit with the entry it left. */
  lemma NotSooner(entries: Listing, a: seq<Listing>, b: seq<Listing>)
    requires Batched(entries, a) && Batched(entries, b) && a != [] && b != []
    ensures |a[0]| >= |b[0]|
  {
    var n := |a[0]|;
    assert entries[..n] == a[0] && entries[..|b[0]|] == b[0];
    if n < |b[0]| {
      var rest := a[1..];
      assert entries == a[0] + Flatten(rest) && entries == b[0] + Flatten(b[1..]);
      assert rest != [];
      assert Flatten(rest)[0] == a[1][0];
      assert entries[n] == a[1][0];
      assert b[0][..n + 1] == a[0] + [a[1][0]];
      PrefixFits(b[0], n + 1);
    }
  }

  /** There is one way to batch. */
  lemma {:induction false} BatchesAreUnique(entries: Listing, a: seq<Listing>, b: seq<Listing>)
    requires Batched(entries, a) && Batched(entries, b)
    ensures a == b
  {
    if a != [] && b != [] {
      NotSooner(entries, a, b);
      NotSooner(entries, b, a);
      assert entries[..|a[0]|] == a[0] && entries[..|b[0]|] == b[0];
      assert entries[|a[0]|..] == Flatten(a[1..]) && entries[|b[0]|..] == Flatten(b[1..]);
      BatchesAreUnique(entries[|a[0]|..], a[1..], b[1..]);
    }
  }

  // ---------- What the workspace's runtime does ----------

  datatype Link = Link(orgProjectId: string, baseCommit: string)

  datatype SeedStatus = Initialized | Seeding | Started

  datatype Row = Row(initialized: bool, seedId: Option<string>, files: Tree, link: Option<Link>)

  function WriteAll(files: Tree, batch: Listing): Tree {
    if batch == [] then files else
    var last := batch[|batch| - 1];
    WriteAll(files, batch[..|batch| - 1])[last.path := File(last.bytes, last.mode)]
  }

  ghost function Any(files: Tree): string
    requires files != map[]
    ensures Any(files) in files
  {
    var path :| path in files;
    path
  }

  /** The bytes of all files, in whatever order they are read. */
  ghost function TotalBytes(files: Tree): nat
    decreases |files|
  {
    if files == map[] then 0 else |files[Any(files)].bytes| + TotalBytes(files - {Any(files)})
  }

  lemma {:induction false} TotalWithout(files: Tree, path: string)
    requires path in files
    ensures TotalBytes(files) == |files[path].bytes| + TotalBytes(files - {path})
    decreases |files|
  {
    var any := Any(files);
    if any != path {
      TotalWithout(files - {any}, path);
      TotalWithout(files - {path}, any);
      assert files - {any} - {path} == files - {path} - {any};
    }
  }

  method CountBytes(files: Tree) returns (bytes: nat)
    ensures bytes == TotalBytes(files)
  {
    bytes := 0;
    var unread := files;
    while unread != map[]
      invariant bytes + TotalBytes(unread) == TotalBytes(files)
      decreases |unread|
    {
      var path :| path in unread;
      TotalWithout(unread, path);
      bytes := bytes + |unread[path].bytes|;
      unread := unread - {path};
    }
  }

  class Workspace {
    var row: Row

    constructor ()
      ensures row == Row(false, None, map[], None)
    {
      row := Row(false, None, map[], None);
    }

    /** A seed under way is gone on with as it is; any other is cleared away. */
    method BeginSeed(seedId: string) returns (status: SeedStatus)
      modifies this
      ensures status == if old(row).initialized then Initialized
                        else if old(row).seedId == Some(seedId) then Seeding else Started
      ensures row == if status.Started? then Row(false, Some(seedId), map[], old(row).link) else old(row)
    {
      if row.initialized {
        return Initialized;
      }
      if row.seedId == Some(seedId) {
        return Seeding;
      }
      row := Row(false, Some(seedId), map[], row.link);
      return Started;
    }

    method AppendSeed(seedId: string, batch: Listing) returns (ok: bool)
      modifies this
      ensures ok == (old(row).seedId == Some(seedId))
      ensures row == if ok then old(row).(files := WriteAll(old(row).files, batch)) else old(row)
    {
      if row.seedId != Some(seedId) {
        return false;
      }
      row := row.(files := WriteAll(row.files, batch));
      return true;
    }

    method SetLinkedProject(link: Link)
      modifies this
      ensures row == old(row).(link := Some(link))
    {
      row := row.(link := Some(link));
    }

    /** Accepted only if the workspace holds as many files, and as many bytes, as were sent. */
    method CommitSeed(seedId: string, fileCount: nat, totalBytes: nat) returns (ok: bool)
      modifies this
      ensures ok == (old(row).seedId == Some(seedId) && |old(row).files| == fileCount
                     && TotalBytes(old(row).files) == totalBytes)
      ensures row == if ok then Row(true, None, old(row).files, old(row).link) else old(row)
    {
      if row.seedId != Some(seedId) {
        return false;
      }
      var bytes := CountBytes(row.files);
      if |row.files| != fileCount || bytes != totalBytes {
        return false;
      }
      row := Row(true, None, row.files, row.link);
      return true;
    }

    method AbortSeed(seedId: string)
      modifies this
      ensures row == if old(row).seedId == Some(seedId) then Row(false, None, map[], old(row).link) else old(row)
    {
      if row.seedId == Some(seedId) {
        row := Row(false, None, map[], row.link);
      }
    }
  }

  // ---------- Seeding ----------

  /** A repository's commit as the workspace takes it: its mode goes in with each file. */
  function EntryOf(file: Entry<string>): Entry<bv16> {
    Entry(file.path, file.bytes, ModeOf(file.mode))
  }

  function Entries(files: Commit): Listing {
    if files == [] then [] else Entries(files[..|files| - 1]) + [EntryOf(files[|files| - 1])]
  }

  function SumBytes(files: Commit): nat {
    if files == [] then 0 else SumBytes(files[..|files| - 1]) + |files[|files| - 1].bytes|
  }

  lemma {:induction false} EntriesAre(files: Commit)
    ensures |Entries(files)| == |files| && forall i | 0 <= i < |files| :: Entries(files)[i] == EntryOf(files[i])
    ensures Paths(Entries(files)) == Paths(files)
  {
    if files != [] {
      EntriesAre(files[..|files| - 1]);
      assert files == files[..|files| - 1] + [files[|files| - 1]];
    }
  }

  lemma {:induction false} WriteAllTwice(files: Tree, a: Listing, b: Listing)
    ensures WriteAll(files, a + b) == WriteAll(WriteAll(files, a), b)
  {
    if b == [] {
      assert a + b == a;
    } else {
      assert (a + b)[..|a + b| - 1] == a + b[..|b| - 1];
      WriteAllTwice(files, a, b[..|b| - 1]);
    }
  }

  /** What was left of an earlier attempt stays only where the commit has no file of that path. */
  lemma {:induction false} WriteAllOver(files: Tree, entries: Listing)
    ensures WriteAll(files, entries).Keys == files.Keys + Paths(entries)
    ensures forall path <- Paths(entries) ::
        path in TreeOf(entries) && WriteAll(files, entries)[path] == TreeOf(entries)[path]
    ensures TreeOf(entries).Keys == Paths(entries)
  {
    if entries != [] {
      WriteAllOver(files, entries[..|entries| - 1]);
      assert entries == entries[..|entries| - 1] + [entries[|entries| - 1]];
    }
  }

  lemma {:induction false} DistinctPaths<M>(entries: seq<Entry<M>>)
    requires Distinct(entries)
    ensures |Paths(entries)| == |entries|
  {
    if entries != [] {
      var shorter, last := entries[..|entries| - 1], entries[|entries| - 1];
      LastIsNew(entries);
      DistinctPaths(shorter);
      assert entries == shorter + [last];
      assert Paths(entries) == Paths(shorter) + {last.path};
    }
  }

  lemma {:induction false} DistinctBytes(files: Commit)
    requires Distinct(files)
    ensures TotalBytes(TreeOf(Entries(files))) == SumBytes(files)
  {
    if files != [] {
      var shorter, last := files[..|files| - 1], files[|files| - 1];
      LastIsNew(files);
      DistinctBytes(shorter);
      EntriesAre(shorter);
      WriteAllOver(map[], Entries(shorter));
      TotalAdded(TreeOf(Entries(shorter)), last.path, File(last.bytes, ModeOf(last.mode)));
    }
  }

  /** What an initialized workspace holds: the commit's files and no other, under one of git's two modes. */
  lemma SeededTree(files: Commit, path: string)
    requires Distinct(files)
    ensures path in TreeOf(Entries(files)) <==> exists f <- files :: f.path == path
    ensures forall f <- files | f.path == path ::
              && path in TreeOf(Entries(files))
              && TreeOf(Entries(files))[path] == File(f.bytes, if f.mode == "100755" then 0x1ed else 0x1a4)
  {
    var entries := Entries(files);
    EntriesAre(files);
    WriteAllOver(map[], entries);
    forall i, j | 0 <= i < j < |entries| ensures entries[i].path != entries[j].path {
      assert files[i].path != files[j].path;
    }
    forall e <- entries ensures Relative(e.path) {
      var i :| 0 <= i < |entries| && entries[i] == e;
      assert files[i] in files;
    }
    TreeOfIs(entries);
    forall f <- files ensures EntryOf(f) in entries {
      var i :| 0 <= i < |files| && files[i] == f;
      assert entries[i] == EntryOf(f);
    }
  }

  lemma TotalAdded(files: Tree, path: string, file: File)
    requires path !in files
    ensures TotalBytes(files[path := file]) == TotalBytes(files) + |file.bytes|
  {
    TotalWithout(files[path := file], path);
    assert files[path := file] - {path} == files;
  }

  /** With as many files as were sent, nothing of an earlier attempt is left but what the commit replaced. */
  lemma CountSaysReplaced(start: Tree, files: Commit)
    requires Distinct(files)
    ensures |WriteAll(start, Entries(files))| == |files| <==> start.Keys <= Paths(files)
  {
    var end := WriteAll(start, Entries(files));
    EntriesAre(files);
    WriteAllOver(start, Entries(files));
    DistinctPaths(files);
    SameSize(start.Keys, Paths(files));
    assert |end| == |end.Keys|;
  }

  lemma ReplacedIsCommit(start: Tree, files: Commit)
    requires start.Keys <= Paths(files)
    ensures WriteAll(start, Entries(files)) == TreeOf(Entries(files))
  {
    EntriesAre(files);
    WriteAllOver(start, Entries(files));
    SameTree(WriteAll(start, Entries(files)), TreeOf(Entries(files)));
  }

  /**
   * The workspace accepts the counts sent exactly when nothing of an earlier attempt is left but what the commit
   * replaced, and then it holds the commit.
   */
  lemma AcceptedExactly(start: Tree, files: Commit)
    requires Distinct(files)
    ensures var end := WriteAll(start, Entries(files));
            && (|end| == |files| && TotalBytes(end) == SumBytes(files) <==> start.Keys <= Paths(files))
            && (start.Keys <= Paths(files) ==> end == TreeOf(Entries(files)))
  {
    CountSaysReplaced(start, files);
    if start.Keys <= Paths(files) {
      ReplacedIsCommit(start, files);
      DistinctBytes(files);
    }
  }

  lemma SameSize(a: set<string>, b: set<string>)
    ensures |a + b| == |b| <==> a <= b
  {
    assert a + b == b + (a - b);
    if a <= b {
      assert a + b == b;
    }
  }

  lemma SameTree(a: Tree, b: Tree)
    requires a.Keys == b.Keys && forall path <- a.Keys :: a[path] == b[path]
    ensures a == b
  {
  }

  lemma {:induction false} BatchesAreFew(batches: seq<Listing>)
    requires Greedy(batches)
    ensures |batches| <= |Flatten(batches)|
  {
    if batches != [] {
      BatchesAreFew(batches[1..]);
    }
  }

  method ReadEntries(files: Commit) returns (entries: Listing, fileCount: nat, totalBytes: nat)
    ensures entries == Entries(files) && fileCount == |files| && totalBytes == SumBytes(files)
  {
    entries, fileCount, totalBytes := [], 0, 0;
    assert files[..|files|] == files;
    for i := 0 to |files|
      invariant entries == Entries(files[..i]) && fileCount == i && totalBytes == SumBytes(files[..i])
    {
      assert files[..i + 1][..i] == files[..i];
      fileCount := fileCount + 1;
      totalBytes := totalBytes + |files[i].bytes|;
      entries := entries + [EntryOf(files[i])];
    }
  }

  /**
   * Sends the batches. `calls` calls go through; the one after them fails, and `applied` says whether it still had its
   * effect.
   */
  method AppendBatches(workspace: Workspace, seedId: string, batches: seq<Listing>, calls: nat, applied: bool)
    returns (sent: bool)
    requires workspace.row.seedId == Some(seedId)
    modifies workspace
    ensures sent == (calls >= |batches|)
    ensures exists files :: workspace.row == old(workspace.row).(files := files)
    ensures sent ==> workspace.row.files == WriteAll(old(workspace.row).files, Flatten(batches))
  {
    var i := 0;
    assert batches[..|batches|] == batches && batches[..0] == [];
    while i < |batches|
      invariant 0 <= i <= |batches| && i <= calls
      invariant workspace.row
             == old(workspace.row).(files := WriteAll(old(workspace.row).files, Flatten(batches[..i])))
    {
      if i == calls && !applied {
        return false;
      }
      var ok := workspace.AppendSeed(seedId, batches[i]);
      if i == calls {
        return false;
      }
      WriteAllTwice(old(workspace.row).files, Flatten(batches[..i]), batches[i]);
      FlattenSnoc(batches[..i], batches[i]);
      assert batches[..i + 1] == batches[..i] + [batches[i]];
      i := i + 1;
    }
    return true;
  }

  /** Every file in, then the link, then the commit: the link is recorded before the workspace is initialized. */
  method SendSeed(workspace: Workspace, seedId: string, link: Link, files: Commit, calls: nat, applied: bool)
    returns (committed: bool)
    requires Distinct(files) && workspace.row.seedId == Some(seedId) && !workspace.row.initialized
    modifies workspace
    ensures committed ==> workspace.row.initialized
    ensures if workspace.row.initialized then workspace.row == Row(true, None, TreeOf(Entries(files)), Some(link))
            else workspace.row.seedId == Some(seedId)
    ensures calls >= |files| + 2 ==> (committed <==> old(workspace.row).files.Keys <= Paths(files))
  {
    ghost var start := workspace.row.files;
    var entries, fileCount, totalBytes := ReadEntries(files);
    var batches := SeedBatches(entries);
    BatchesAreFew(batches);
    EntriesAre(files);
    AcceptedExactly(start, files);
    var sent := AppendBatches(workspace, seedId, batches, calls, applied);
    if !sent {
      return false;
    }
    var left := calls - |batches|;
    if left > 0 || applied {
      workspace.SetLinkedProject(link);
    }
    if left == 0 || (left == 1 && !applied) {
      return false;
    }
    committed := workspace.CommitSeed(seedId, fileCount, totalBytes);
    if left == 1 {
      return false;
    }
  }

  function SeedIdOf(orgProjectId: string): string {
    "linked_" + orgProjectId
  }

  /** An initialized workspace holds a commit of its project, exactly, and is linked to it. */
  ghost predicate SeedInv(row: Row, orgProjectId: string, repository: string -> Commit) {
    row.initialized ==>
      && row.link.Some? && row.link.value.orgProjectId == orgProjectId
      && row.files == TreeOf(Entries(repository(row.link.value.baseCommit)))
  }

  /**
   * One attempt, at whatever commit main is then: `calls` calls to the workspace go through, and then one fails (having
   * had its effect or not) or, when `evicted`, the agent is gone. So this is every attempt, cut off anywhere; over any
   * number of them the invariant holds.
   */
  method SeedLinkedWorkspace(
    workspace: Workspace, orgProjectId: string, head: string, repository: string -> Commit,
    calls: nat, applied: bool, evicted: bool) returns (seeded: bool)
    requires SeedInv(workspace.row, orgProjectId, repository) && Distinct(repository(head))
    modifies workspace
    ensures SeedInv(workspace.row, orgProjectId, repository)
    ensures seeded ==> workspace.row.initialized
    ensures old(workspace.row).initialized ==> workspace.row == old(workspace.row)
    ensures calls >= |repository(head)| + 3 ==>
      (seeded <==>
        || old(workspace.row).initialized
        || old(workspace.row).seedId != Some(SeedIdOf(orgProjectId))
        || old(workspace.row).files.Keys <= Paths(repository(head)))
    ensures calls > 0 && !seeded && !evicted ==>
        workspace.row.seedId != Some(SeedIdOf(orgProjectId)) || workspace.row.initialized
  {
    var seedId := SeedIdOf(orgProjectId);
    if calls == 0 && !applied {
      return false;
    }
    var status := workspace.BeginSeed(seedId);
    if calls == 0 {
      return false;
    }
    if status.Initialized? {
      return calls > 1 && workspace.row.link.Some?;
    }
    seeded := SendSeed(workspace, seedId, Link(orgProjectId, head), repository(head), calls - 1, applied);
    if !seeded && !evicted {
      workspace.AbortSeed(seedId);
    }
  }
}
