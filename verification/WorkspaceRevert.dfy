/**
 * Committing a workspace and restoring a commit (app/agents/linked-project-workspace.ts, `workspaceCommitFiles` and
 * `revertChanges`). The workspace takes a change set as writes that replace by path and deletions by path. SHA-256 is
 * taken as injective, so files are compared by their bytes; how a `.gitignore` is parsed is a parameter, `p`.
 */
module WorkspaceRevert {
  import opened Wrappers
  import opened Gitignore

  type Bytes = seq<bv8>

  /** A file by its path in the project. The workspace's modes are numbers, git's are strings. */
  datatype Entry<M> = Entry(path: string, bytes: Bytes, mode: M)

  type Listing = seq<Entry<bv16>>
  type Commit = seq<Entry<string>>

  datatype File = File(bytes: Bytes, mode: bv16)

  type Tree = map<string, File>

  datatype Change = Write(path: string, file: File) | Delete(path: string)

  const EXCLUDED_ROOTS: set<string> :=
    {"node_modules", "dist", ".output", ".tanstack", ".wrangler", ".cloudflare", ".venv"}
  const PUBLISHED_ENV_EXAMPLES: set<string> := {".env.example", ".env.sample", ".env.template"}

  function FirstSegment(path: string): string {
    if path == "" || path[0] == '/' then "" else [path[0]] + FirstSegment(path[1..])
  }

  /** Under one of the roots that hold what an install or a build made. */
  predicate IsExcluded(path: string) {
    FirstSegment(path) in EXCLUDED_ROOTS
  }

  /** A secrets file by its name, in whatever directory; the examples that are meant to be shared are none. */
  predicate IsNeverPublished(path: string) {
    IsSecretName(path[LastSlash(path) + 1..])
  }

  predicate IsSecretName(name: string) {
    name !in PUBLISHED_ENV_EXAMPLES
    && (name == ".env" || ".env." <= name || name == ".dev.vars" || ".dev.vars." <= name)
  }

  /** What a repository takes: the rules a file holds, and the paths that are excluded or secret. */
  datatype Policy = Policy(rulesOf: Bytes -> seq<Rule>, excluded: string -> bool, secret: string -> bool)

  /** The source's own; every result holds of any policy that makes no rules file a secret. */
  function SourcePolicy(rulesOf: Bytes -> seq<Rule>): Policy {
    Policy(rulesOf, IsExcluded, IsNeverPublished)
  }

  predicate EndsWith(path: string, suffix: string) {
    |path| >= |suffix| && path[|path| - |suffix|..] == suffix
  }

  predicate IsGitignore(path: string) {
    path == ".gitignore" || EndsWith(path, "/" + ".gitignore")
  }

  /** 0o755 for an executable, else 0o644. */
  function ModeOf(mode: string): bv16 {
    if mode == "100755" then 0x1ed else 0x1a4
  }

  /** The three executable bits, 0o111. */
  function Executable(mode: bv16): bv16 {
    mode & 0x49
  }

  /** A path relative to the project. */
  predicate Relative(path: string) {
    path != "" && path[0] != '/'
  }

  /** Each path once. */
  ghost predicate Distinct<M>(entries: seq<Entry<M>>) {
    && (forall i, j | 0 <= i < j < |entries| :: entries[i].path != entries[j].path)
    && (forall entry <- entries :: Relative(entry.path))
  }

  function Paths<M(==)>(entries: seq<Entry<M>>): set<string> {
    set entry <- entries :: entry.path
  }

  /** The entries by path, the last of a path winning. */
  function TreeOf(listing: Listing): Tree {
    if listing == [] then map[] else
    var last := listing[|listing| - 1];
    TreeOf(listing[..|listing| - 1])[last.path := File(last.bytes, last.mode)]
  }

  /** What is neither installed nor built. */
  function Kept(p: Policy, listing: Listing): Listing {
    if listing == [] then [] else
    var last := listing[|listing| - 1];
    Kept(p, listing[..|listing| - 1]) + if p.excluded(last.path) then [] else [last]
  }

  /** The rules of the `.gitignore` files among the entries. */
  function Scopes<M>(p: Policy, entries: seq<Entry<M>>): seq<Scope> {
    if entries == [] then [] else
    var last := entries[|entries| - 1];
    Scopes(p, entries[..|entries| - 1])
    + if IsGitignore(last.path) then [Scope(ParentDirectory(last.path), p.rulesOf(last.bytes))] else []
  }

  // ---------- Restoring a commit ----------

  /** The rules a revert goes by: the workspace's files', then the commit's. */
  function Combined(p: Policy, listing: Listing, files: Commit): seq<Scope> {
    Scopes(p, Kept(p, listing)) + Scopes(p, files)
  }

  /** The tree already holds the file: the same bytes and executable bits. */
  predicate Holds(tree: Tree, file: Entry<string>) {
    file.path in tree && tree[file.path].bytes == file.bytes
    && Executable(tree[file.path].mode) == Executable(ModeOf(file.mode))
  }

  function WriteOf(file: Entry<string>): Change {
    Write(file.path, File(file.bytes, ModeOf(file.mode)))
  }

  function Writes(existing: Tree, files: Commit): seq<Change> {
    if files == [] then [] else
    var last := files[|files| - 1];
    Writes(existing, files[..|files| - 1]) + if Holds(existing, last) then [] else [WriteOf(last)]
  }

  /** What no commit holds. */
  predicate Spared(p: Policy, scopes: seq<Scope>, path: string) {
    p.secret(path) || Ignored(SortByDepth(scopes), path)
  }

  function Deletions(p: Policy, current: Listing, wanted: set<string>, scopes: seq<Scope>): seq<Change> {
    if current == [] then [] else
    var last := current[|current| - 1];
    Deletions(p, current[..|current| - 1], wanted, scopes)
    + if last.path in wanted || Spared(p, scopes, last.path) then [] else [Delete(last.path)]
  }

  /** The change set. */
  function Revert(p: Policy, listing: Listing, files: Commit): seq<Change> {
    Writes(TreeOf(Kept(p, listing)), files)
    + Deletions(p, Kept(p, listing), Paths(files), Combined(p, listing, files))
  }

  method KeptOf(p: Policy, listing: Listing) returns (current: Listing)
    ensures current == Kept(p, listing)
  {
    current := [];
    assert listing[..|listing|] == listing;
    for i := 0 to |listing|
      invariant current == Kept(p, listing[..i])
    {
      assert listing[..i + 1][..i] == listing[..i];
      if !p.excluded(listing[i].path) {
        current := current + [listing[i]];
      }
    }
  }

  method ScopesOf<M>(p: Policy, entries: seq<Entry<M>>) returns (scopes: seq<Scope>)
    ensures scopes == Scopes(p, entries)
  {
    scopes := [];
    assert entries[..|entries|] == entries;
    for i := 0 to |entries|
      invariant scopes == Scopes(p, entries[..i])
    {
      assert entries[..i + 1][..i] == entries[..i];
      if IsGitignore(entries[i].path) {
        scopes := scopes + [Scope(ParentDirectory(entries[i].path), p.rulesOf(entries[i].bytes))];
      }
    }
  }

  method WriteChanged(existing: Tree, files: Commit) returns (changes: seq<Change>, wanted: set<string>)
    ensures changes == Writes(existing, files) && wanted == Paths(files)
  {
    wanted, changes := {}, [];
    assert files[..|files|] == files;
    for i := 0 to |files|
      invariant wanted == Paths(files[..i])
      invariant changes == Writes(existing, files[..i])
    {
      assert files[..i + 1][..i] == files[..i];
      var file := files[i];
      wanted := wanted + {file.path};
      if !Holds(existing, file) {
        changes := changes + [WriteOf(file)];
      }
    }
  }

  lemma DeletionsSnoc(p: Policy, current: Listing, entry: Entry<bv16>, wanted: set<string>, scopes: seq<Scope>)
    ensures Deletions(p, current + [entry], wanted, scopes)
         == Deletions(p, current, wanted, scopes)
            + if entry.path in wanted || Spared(p, scopes, entry.path) then [] else [Delete(entry.path)]
  {
    assert (current + [entry])[..|current|] == current;
  }

  /** The deletion of one file, unless the commit wants it or nothing of it is a commit's. */
  method DeletionOf(p: Policy, matcher: GitignoreMatcher, path: string,
      wanted: set<string>, ghost gitignores: seq<Scope>)
    returns (deletion: seq<Change>)
    requires matcher.Valid() && matcher.scopes == SortByDepth(gitignores)
    modifies matcher
    ensures matcher.Valid()
    ensures deletion == if path in wanted || Spared(p, gitignores, path) then [] else [Delete(path)]
  {
    if path in wanted || p.secret(path) {
      return [];
    }
    var ignored := matcher.Matches(path);
    deletion := if ignored then [] else [Delete(path)];
  }

  method DeleteUnwanted(p: Policy, current: Listing, wanted: set<string>, gitignores: seq<Scope>)
      returns (changes: seq<Change>)
    ensures changes == Deletions(p, current, wanted, gitignores)
  {
    var matcher := new GitignoreMatcher(gitignores);
    changes := [];
    for i := 0 to |current|
      invariant matcher.Valid()
      invariant changes == Deletions(p, current[..i], wanted, gitignores)
    {
      assert current[..i + 1] == current[..i] + [current[i]];
      DeletionsSnoc(p, current[..i], current[i], wanted, gitignores);
      var deletion := DeletionOf(p, matcher, current[i].path, wanted, gitignores);
      changes := changes + deletion;
    }
    assert current[..|current|] == current;
  }

  method RevertChanges(p: Policy, listing: Listing, files: Commit) returns (changes: seq<Change>)
    ensures changes == Revert(p, listing, files)
  {
    var current := KeptOf(p, listing);
    var workspaceRules := ScopesOf(p, current);
    var commitRules := ScopesOf(p, files);
    var writes, wanted := WriteChanged(TreeOf(current), files);
    var deletions := DeleteUnwanted(p, current, wanted, workspaceRules + commitRules);
    changes := writes + deletions;
  }

  // ---------- Committing the workspace ----------

  /** What a commit may hold: nothing installed or built, and secrets only where the repository tracks them. */
  function Committable(p: Policy, feed: Listing, tracked: set<string>): Listing {
    if feed == [] then [] else
    var last := feed[|feed| - 1];
    Committable(p, feed[..|feed| - 1], tracked)
    + if p.excluded(last.path) || (p.secret(last.path) && last.path !in tracked) then [] else [last]
  }

  function Unignored(files: Listing, tracked: set<string>, scopes: seq<Scope>): Listing {
    if files == [] then [] else
    var last := files[|files| - 1];
    Unignored(files[..|files| - 1], tracked, scopes)
    + if last.path in tracked || !Ignored(SortByDepth(scopes), last.path) then [last] else []
  }

  function CommitOf(p: Policy, feed: Listing, tracked: set<string>): Listing {
    var files := Committable(p, feed, tracked);
    Unignored(files, tracked, Scopes(p, files))
  }

  lemma CommittableSnoc(p: Policy, feed: Listing, entry: Entry<bv16>, tracked: set<string>)
    ensures Committable(p, feed + [entry], tracked)
         == Committable(p, feed, tracked)
            + if p.excluded(entry.path) || (p.secret(entry.path) && entry.path !in tracked) then [] else [entry]
  {
    assert (feed + [entry])[..|feed|] == feed;
  }

  lemma UnignoredSnoc(files: Listing, entry: Entry<bv16>, tracked: set<string>, scopes: seq<Scope>)
    ensures Unignored(files + [entry], tracked, scopes)
         == Unignored(files, tracked, scopes)
            + if entry.path in tracked || !Ignored(SortByDepth(scopes), entry.path) then [entry] else []
  {
    assert (files + [entry])[..|files|] == files;
  }

  method Keeps(matcher: GitignoreMatcher, path: string, tracked: set<string>, ghost gitignores: seq<Scope>)
    returns (keep: bool)
    requires matcher.Valid() && matcher.scopes == SortByDepth(gitignores)
    modifies matcher
    ensures matcher.Valid()
    ensures keep == (path in tracked || !Ignored(SortByDepth(gitignores), path))
  {
    if path in tracked {
      return true;
    }
    var ignored := matcher.Matches(path);
    keep := !ignored;
  }

  method UnignoredFiles(files: Listing, tracked: set<string>, gitignores: seq<Scope>) returns (kept: Listing)
    ensures kept == Unignored(files, tracked, gitignores)
  {
    var matcher := new GitignoreMatcher(gitignores);
    kept := [];
    for i := 0 to |files|
      invariant matcher.Valid()
      invariant kept == Unignored(files[..i], tracked, gitignores)
    {
      assert files[..i + 1] == files[..i] + [files[i]];
      UnignoredSnoc(files[..i], files[i], tracked, gitignores);
      var keep := Keeps(matcher, files[i].path, tracked, gitignores);
      if keep {
        kept := kept + [files[i]];
      }
    }
    assert files[..|files|] == files;
  }

  method WorkspaceCommitFiles(p: Policy, feed: Listing, tracked: set<string>)
    returns (committed: Listing)
    ensures committed == CommitOf(p, feed, tracked)
  {
    var files := CommittableFiles(p, feed, tracked);
    var gitignores := ScopesOf(p, files);
    committed := UnignoredFiles(files, tracked, gitignores);
  }

  method CommittableFiles(p: Policy, feed: Listing, tracked: set<string>) returns (files: Listing)
    ensures files == Committable(p, feed, tracked)
  {
    files := [];
    for i := 0 to |feed|
      invariant files == Committable(p, feed[..i], tracked)
    {
      assert feed[..i + 1] == feed[..i] + [feed[i]];
      CommittableSnoc(p, feed[..i], feed[i], tracked);
      if p.excluded(feed[i].path) || (p.secret(feed[i].path) && feed[i].path !in tracked) {
        continue;
      }
      files := files + [feed[i]];
    }
    assert feed[..|feed|] == feed;
  }

  // ---------- What a revert does to the workspace ----------

  /** What the workspace makes of a change set. */
  function Apply(tree: Tree, changes: seq<Change>): Tree {
    if changes == [] then tree else
    var last, before := changes[|changes| - 1], Apply(tree, changes[..|changes| - 1]);
    match last
    case Write(path, file) => before[path := file]
    case Delete(path) => before - {path}
  }

  function Held(tree: Tree, path: string): Option<File> {
    if path in tree then Some(tree[path]) else None
  }

  /** No path is touched twice: neither written and deleted, nor written twice. */
  ghost predicate TouchesOnce(changes: seq<Change>) {
    forall i, j | 0 <= i < j < |changes| :: changes[i].path != changes[j].path
  }

  lemma {:induction false} ApplyAt(tree: Tree, changes: seq<Change>, path: string)
    requires TouchesOnce(changes)
    ensures (forall c <- changes :: c.path != path) ==> Held(Apply(tree, changes), path) == Held(tree, path)
    ensures forall c <- changes | c.path == path ::
              Held(Apply(tree, changes), path) == if c.Write? then Some(c.file) else None
  {
    if changes != [] {
      var shorter, last := changes[..|changes| - 1], changes[|changes| - 1];
      ApplyAt(tree, shorter, path);
      assert last in changes;
      forall c <- changes | c.path == path && c != last ensures c in shorter && last.path != path {
      }
      if last.path == path {
        forall k | 0 <= k < |shorter| ensures shorter[k].path != path {
          assert changes[k].path != changes[|changes| - 1].path;
        }
      }
    }
  }

  lemma {:induction false} TreeOfIs(listing: Listing)
    requires Distinct(listing)
    ensures forall e <- listing :: e.path in TreeOf(listing) && TreeOf(listing)[e.path] == File(e.bytes, e.mode)
    ensures forall p <- TreeOf(listing) :: Entry(p, TreeOf(listing)[p].bytes, TreeOf(listing)[p].mode) in listing
  {
    if listing != [] {
      var shorter := listing[..|listing| - 1];
      TreeOfIs(shorter);
    }
  }

  lemma {:induction false} KeptIs(p: Policy, listing: Listing)
    ensures forall e :: e in Kept(p, listing) <==> e in listing && !p.excluded(e.path)
    ensures Distinct(listing) ==> Distinct(Kept(p, listing))
  {
    if listing != [] {
      KeptIs(p, listing[..|listing| - 1]);
      LastIsNew(listing);
    }
  }

  lemma LastIsNew<M>(entries: seq<Entry<M>>)
    requires entries != []
    ensures Distinct(entries) ==>
      Distinct(entries[..|entries| - 1])
      && forall e <- entries[..|entries| - 1] :: e.path != entries[|entries| - 1].path
  {
  }

  lemma {:induction false} WritesAre(existing: Tree, files: Commit)
    ensures forall c <- Writes(existing, files) ::
              exists f :: f in files && c == WriteOf(f) && !Holds(existing, f)
    ensures forall f <- files :: !Holds(existing, f) ==> WriteOf(f) in Writes(existing, files)
  {
    if files != [] {
      WritesAre(existing, files[..|files| - 1]);
      assert files[|files| - 1] in files;
    }
  }

  lemma {:induction false} WritesTouchOnce(existing: Tree, files: Commit)
    requires Distinct(files)
    ensures TouchesOnce(Writes(existing, files))
  {
    if files != [] {
      var shorter, last := files[..|files| - 1], files[|files| - 1];
      LastIsNew(files);
      WritesTouchOnce(existing, shorter);
      WritesAre(existing, shorter);
      forall c <- Writes(existing, shorter) ensures c.path != last.path {
      }
    }
  }

  lemma {:induction false} DeletionsAre(p: Policy, current: Listing, wanted: set<string>, scopes: seq<Scope>)
    ensures forall c <- Deletions(p, current, wanted, scopes) ::
              c.Delete? && c.path in Paths(current) && c.path !in wanted && !Spared(p, scopes, c.path)
    ensures forall e <- current :: e.path !in wanted && !Spared(p, scopes, e.path) ==>
        Delete(e.path) in Deletions(p, current, wanted, scopes)
    ensures Distinct(current) ==> TouchesOnce(Deletions(p, current, wanted, scopes))
  {
    if current != [] {
      DeletionsAre(p, current[..|current| - 1], wanted, scopes);
      LastIsNew(current);
    }
  }

  /** The file of this path, in the workspace it is about. */
  ghost predicate RestoredAt(p: Policy, tree: Tree, files: Commit, scopes: seq<Scope>, tree': Tree, path: string) {
    if path in Paths(files) then forall f <- files | f.path == path :: Holds(tree', f)
    else if p.excluded(path) || Spared(p, scopes, path) then Held(tree', path) == Held(tree, path)
    else path !in tree'
  }

  /** Only what differs is touched, and each path once. */
  lemma RevertTouches(p: Policy, listing: Listing, files: Commit)
    requires Distinct(listing) && Distinct(files)
    ensures TouchesOnce(Revert(p, listing, files))
    ensures forall f <- files | !p.excluded(f.path) && Holds(TreeOf(listing), f) ::
              forall c <- Revert(p, listing, files) :: c.path != f.path
  {
    var current, scopes := Kept(p, listing), Combined(p, listing, files);
    var writes, deletions := Writes(TreeOf(current), files), Deletions(p, current, Paths(files), scopes);
    KeptIs(p, listing);
    WritesAre(TreeOf(current), files);
    WritesTouchOnce(TreeOf(current), files);
    DeletionsAre(p, current, Paths(files), scopes);
    assert forall c <- writes :: c.path in Paths(files);
    TouchOnceTogether(writes, deletions);
    forall f <- files, c <- writes | !p.excluded(f.path) && Holds(TreeOf(listing), f)
      ensures c.path != f.path
    {
      KeptTree(p, listing, f.path);
      var g :| g in files && c == WriteOf(g) && !Holds(TreeOf(current), g);
      assert g.path == f.path ==> g == f;
    }
  }

  lemma TouchOnceTogether(a: seq<Change>, b: seq<Change>)
    requires TouchesOnce(a) && TouchesOnce(b) && forall c <- a, d <- b :: c.path != d.path
    ensures TouchesOnce(a + b)
  {
  }

  lemma KeptTree(p: Policy, listing: Listing, path: string)
    requires Distinct(listing)
    ensures Held(TreeOf(Kept(p, listing)), path) == if p.excluded(path) then None else Held(TreeOf(listing), path)
  {
    KeptIs(p, listing);
    TreeOfIs(listing);
    TreeOfIs(Kept(p, listing));
  }

  /** A path the commit lacks is touched only to delete it: when the workspace has it and nothing spares it. */
  lemma TouchedElsewhere(p: Policy, listing: Listing, files: Commit, path: string)
    requires Distinct(listing) && path !in Paths(files)
    ensures
      var changes, scopes := Revert(p, listing, files), Combined(p, listing, files);
      if path in TreeOf(listing) && !p.excluded(path) && !Spared(p, scopes, path)
      then Delete(path) in changes else forall c <- changes :: c.path != path
  {
    var current, scopes := Kept(p, listing), Combined(p, listing, files);
    KeptIs(p, listing);
    TreeOfIs(listing);
    WritesAre(TreeOf(current), files);
    DeletionsAre(p, current, Paths(files), scopes);
    assert forall c <- Writes(TreeOf(current), files) :: c.path in Paths(files);
    if path in TreeOf(listing) && !p.excluded(path) {
      var file := TreeOf(listing)[path];
      assert Entry(path, file.bytes, file.mode) in current;
    }
  }

  lemma OthersRestored(p: Policy, listing: Listing, files: Commit, path: string)
    requires Distinct(listing) && Distinct(files) && path !in Paths(files)
    ensures RestoredAt(p, TreeOf(listing), files, Combined(p, listing, files),
                       Apply(TreeOf(listing), Revert(p, listing, files)), path)
  {
    RevertTouches(p, listing, files);
    ApplyAt(TreeOf(listing), Revert(p, listing, files), path);
    TouchedElsewhere(p, listing, files, path);
  }

  /** A path of the commit is touched only to write it, and unless the workspace holds the file it is. */
  lemma TouchedWanted(p: Policy, listing: Listing, files: Commit, f: Entry<string>)
    requires Distinct(listing) && f in files
    ensures
      var changes := Revert(p, listing, files);
      if Holds(TreeOf(Kept(p, listing)), f) then true else WriteOf(f) in changes
  {
    WritesAre(TreeOf(Kept(p, listing)), files);
  }

  lemma WantedRestored(p: Policy, listing: Listing, files: Commit, f: Entry<string>)
    requires Distinct(listing) && Distinct(files) && f in files
    ensures Holds(Apply(TreeOf(listing), Revert(p, listing, files)), f)
  {
    var changes := Revert(p, listing, files);
    RevertTouches(p, listing, files);
    ApplyAt(TreeOf(listing), changes, f.path);
    TouchedWanted(p, listing, files, f);
    KeptTree(p, listing, f.path);
  }

  /** The workspace holds the commit's files, the files no commit holds as they were, and nothing else. */
  lemma RevertRestores(p: Policy, listing: Listing, files: Commit, path: string)
    requires Distinct(listing) && Distinct(files)
    ensures RestoredAt(p, TreeOf(listing), files, Combined(p, listing, files),
                       Apply(TreeOf(listing), Revert(p, listing, files)), path)
  {
    if path in Paths(files) {
      forall f <- files | f.path == path ensures Holds(Apply(TreeOf(listing), Revert(p, listing, files)), f) {
        WantedRestored(p, listing, files, f);
      }
    } else {
      OthersRestored(p, listing, files, path);
    }
  }

  // ---------- Which rules hold after a revert ----------

  function Own(directory: string): string {
    Prefix(directory) + ".gitignore"
  }

  lemma {:induction false} SlashBefore(directory: string, name: string)
    requires '/' !in name
    ensures LastSlash(directory + "/" + name) == |directory|
    decreases |name|
  {
    var path := directory + "/" + name;
    if name == "" {
      assert path[|path| - 1] == '/';
    } else {
      assert path[|path| - 1] == name[|name| - 1];
      assert path[..|path| - 1] == directory + "/" + name[..|name| - 1];
      SlashBefore(directory, name[..|name| - 1]);
    }
  }

  lemma NamedIs(path: string, directory: string, name: string)
    requires Relative(path) && '/' !in name && name != ""
    requires (path == name || EndsWith(path, "/" + name)) && ParentDirectory(path) == directory
    ensures path == Prefix(directory) + name
  {
    if path == name {
      assert LastSlash(path) < 0;
    } else {
      var parent := path[..|path| - |name| - 1];
      assert path == parent + ("/" + name);
      assert path == parent + "/" + name;
      SlashBefore(parent, name);
      assert path[0] == parent[0] || parent == "";
    }
  }

  lemma NamedLies(path: string, directory: string, name: string)
    requires Relative(path) && '/' !in name && name != "" && path == Prefix(directory) + name
    ensures (path == name || EndsWith(path, "/" + name)) && ParentDirectory(path) == directory
  {
    if directory == "" {
      assert LastSlash(path) < 0;
    } else {
      SlashBefore(directory, name);
      assert path == directory + ("/" + name);
      assert path[..|directory|] == directory;
    }
  }

  lemma OwnIs(path: string, directory: string)
    requires Relative(path)
    ensures IsGitignore(path) && ParentDirectory(path) == directory <==> path == Own(directory)
  {
    assert '/' !in ".gitignore";
    if IsGitignore(path) && ParentDirectory(path) == directory {
      NamedIs(path, directory, ".gitignore");
    }
    if path == Own(directory) {
      NamedLies(path, directory, ".gitignore");
    }
  }

  lemma {:induction false} OfTogether(a: seq<Scope>, b: seq<Scope>, directory: string)
    ensures Of(a + b, directory) == Of(a, directory) + Of(b, directory)
  {
    if b == [] {
      assert a + b == a;
    } else {
      assert (a + b)[..|a + b| - 1] == a + b[..|b| - 1];
      OfTogether(a, b[..|b| - 1], directory);
    }
  }

  /** The bytes of the `.gitignore` standing in a directory, if there is one. */
  function OwnBytes<M>(entries: seq<Entry<M>>, directory: string): Option<Bytes> {
    if entries == [] then None else
    var last := entries[|entries| - 1];
    if last.path == Own(directory) then Some(last.bytes) else OwnBytes(entries[..|entries| - 1], directory)
  }

  lemma {:induction false} OwnBytesAre<M>(entries: seq<Entry<M>>, directory: string)
    requires Distinct(entries)
    ensures forall e <- entries | e.path == Own(directory) :: OwnBytes(entries, directory) == Some(e.bytes)
    ensures OwnBytes(entries, directory).Some? ==>
              exists e :: e in entries && e.path == Own(directory) && OwnBytes(entries, directory) == Some(e.bytes)
  {
    if entries != [] {
      LastIsNew(entries);
      OwnBytesAre(entries[..|entries| - 1], directory);
      assert entries[|entries| - 1] in entries;
    }
  }

  function RulesIn(p: Policy, bytes: Option<Bytes>, directory: string): seq<Scope> {
    if bytes.Some? then [Scope(directory, p.rulesOf(bytes.value))] else []
  }

  /** A directory's rules are those of its own `.gitignore`. */
  lemma {:induction false} OfScopes<M>(p: Policy, entries: seq<Entry<M>>, directory: string)
    requires Distinct(entries)
    ensures Of(Scopes(p, entries), directory) == RulesIn(p, OwnBytes(entries, directory), directory)
  {
    if entries != [] {
      var last, shorter := entries[|entries| - 1], entries[..|entries| - 1];
      LastIsNew(entries);
      OfScopes(p, shorter, directory);
      OwnIs(last.path, directory);
      OwnBytesAre(shorter, directory);
      var scope := Scope(ParentDirectory(last.path), p.rulesOf(last.bytes));
      var added := if IsGitignore(last.path) then [scope] else [];
      assert Scopes(p, entries) == Scopes(p, shorter) + added;
      OfTogether(Scopes(p, shorter), added, directory);
      assert Of(added, directory) == if last.path == Own(directory) then [scope] else [] by {
        assert added != [] ==> added[..0] == [];
      }
    }
  }

  /**
   * Two lists of rules about each directory decide alike when the directory's own bytes are the same, listed once or
   * twice.
   */
  lemma SameBytesDecideAlike(p: Policy, files: seq<Scope>, files': seq<Scope>, directory: string, a: Option<Bytes>,
                             b: Option<Bytes>, c: Option<Bytes>, d: Option<Bytes>)
    requires Of(files, directory) == RulesIn(p, a, directory) + RulesIn(p, b, directory)
    requires Of(files', directory) == RulesIn(p, c, directory) + RulesIn(p, d, directory)
    requires a.None? || b.None? || a == b
    requires c.None? || d.None? || c == d
    requires (if a.Some? then a else b) == (if c.Some? then c else d)
    ensures SameAt(files, files', directory)
  {
    var own := if a.Some? then a else b;
    if own.Some? {
      var scope := Scope(directory, p.rulesOf(own.value));
      TwiceIsOnce(scope);
      assert RulesIn(p, own, directory) == [scope] && [scope] + [scope] == [scope, scope];
      assert Of(files, directory) == [scope] || Of(files, directory) == [scope, scope];
      assert Of(files', directory) == [scope] || Of(files', directory) == [scope, scope];
    } else {
      assert Of(files, directory) == [] && Of(files', directory) == [];
    }
  }

  lemma TwiceIsOnce(scope: Scope)
    ensures forall path :: Decide([scope, scope], path) == Decide([scope], path)
  {
    assert [scope, scope][..1] == [scope] && [scope][..0] == [];
  }
}
