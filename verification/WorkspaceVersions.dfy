/**
 * How committing and restoring fit together (app/agents/linked-project-workspace.ts): a saved version restores to
 * itself, and a restored version saves to itself, and is not restored twice, exactly when what the workspace keeps
 * beside it is still what no commit holds.
 */
module WorkspaceVersions {
  import opened Wrappers
  import opened Gitignore
  import opened WorkspaceRevert

  // ---------- Which rules decide ----------

  /** Each rules file of the commit is in the workspace, as it is in the commit. */
  ghost predicate RulesHeld(p: Policy, listing: Listing, files: Commit) {
    forall f <- files | IsGitignore(f.path) ::
        exists e :: e in Kept(p, listing) && e.path == f.path && e.bytes == f.bytes
  }

  ghost predicate DecideAlike(files: seq<Scope>, files': seq<Scope>) {
    forall path :: Ignored(SortByDepth(files), path) == Ignored(SortByDepth(files'), path)
  }

  lemma SameEverywhere(files: seq<Scope>, files': seq<Scope>)
    requires forall d :: SameAt(files, files', d)
    ensures DecideAlike(files, files')
  {
    forall path ensures Ignored(SortByDepth(files), path) == Ignored(SortByDepth(files'), path) {
      OrderAcrossDirectoriesIsFree(files, files', path);
    }
  }

  lemma OwnIsRules(directory: string)
    requires Relative(Own(directory))
    ensures IsGitignore(Own(directory))
  {
    OwnIs(Own(directory), directory);
  }

  /** No rules file is a secret. */
  ghost predicate RulesArePublic(p: Policy) {
    forall directory | Relative(Own(directory)) :: !p.secret(Own(directory))
  }

  lemma OwnName(directory: string)
    ensures Own(directory)[LastSlash(Own(directory)) + 1..] == ".gitignore"
  {
    assert '/' !in ".gitignore";
    var path := Own(directory);
    if directory != "" {
      SlashBefore(directory, ".gitignore");
      assert path == directory + "/" + ".gitignore";
    } else {
      assert path[0..] == path;
      assert LastSlash(path) < 0;
    }
  }

  lemma NoSecretName(name: string)
    requires |name| > 1 && name[1] == 'g'
    ensures !IsSecretName(name)
  {
    assert ".env"[1] == 'e' && ".env."[1] == 'e' && ".dev.vars"[1] == 'd' && ".dev.vars."[1] == 'd';
  }

  lemma NoSecretPath(path: string, name: string)
    requires path[LastSlash(path) + 1..] == name && !IsSecretName(name)
    ensures !IsNeverPublished(path)
  {
  }

  lemma OwnIsNoSecret(directory: string)
    ensures !IsNeverPublished(Own(directory))
  {
    var name := Own(directory)[LastSlash(Own(directory)) + 1..];
    OwnName(directory);
    assert |".gitignore"| == 10 && ".gitignore"[1] == 'g';
    NoSecretName(name);
    NoSecretPath(Own(directory), name);
  }

  /** Nor is it by the source's policy. */
  lemma SourceRulesArePublic(rulesOf: Bytes -> seq<Rule>)
    ensures RulesArePublic(SourcePolicy(rulesOf))
  {
    var p := SourcePolicy(rulesOf);
    forall directory | Relative(Own(directory)) ensures !p.secret(Own(directory)) {
      OwnIsNoSecret(directory);
    }
  }

  lemma OwnBytesHeld(p: Policy, listing: Listing, files: Commit, directory: string)
    requires Distinct(listing) && Distinct(files) && RulesHeld(p, listing, files)
    ensures OwnBytes(files, directory).Some? ==> OwnBytes(Kept(p, listing), directory) == OwnBytes(files, directory)
  {
    KeptIs(p, listing);
    OwnBytesAre(Kept(p, listing), directory);
    OwnBytesAre(files, directory);
    if OwnBytes(files, directory).Some? {
      var f :| f in files && f.path == Own(directory) && OwnBytes(files, directory) == Some(f.bytes);
      OwnIsRules(directory);
      var e :| e in Kept(p, listing) && e.path == f.path && e.bytes == f.bytes;
    }
  }

  /** A commit's rules add nothing to a workspace that holds them. */
  lemma CombinedIsWorkspace(p: Policy, listing: Listing, files: Commit)
    requires Distinct(listing) && Distinct(files) && RulesHeld(p, listing, files)
    ensures DecideAlike(Combined(p, listing, files), Scopes(p, Kept(p, listing)))
  {
    var kept := Kept(p, listing);
    forall d ensures SameAt(Combined(p, listing, files), Scopes(p, kept), d) {
      KeptIs(p, listing);
      OfTogether(Scopes(p, kept), Scopes(p, files), d);
      OfScopes(p, kept, d);
      OfScopes(p, files, d);
      OwnBytesHeld(p, listing, files, d);
      SameBytesDecideAlike(p, Combined(p, listing, files), Scopes(p, kept), d,
                           OwnBytes(kept, d), OwnBytes(files, d), OwnBytes(kept, d), None);
    }
    SameEverywhere(Combined(p, listing, files), Scopes(p, kept));
  }

  lemma {:induction false} CommittableIs(p: Policy, feed: Listing, tracked: set<string>)
    ensures forall e :: e in Committable(p, feed, tracked) <==>
              e in Kept(p, feed) && (e.path in tracked || !p.secret(e.path))
    ensures Distinct(feed) ==> Distinct(Committable(p, feed, tracked))
  {
    KeptIs(p, feed);
    if feed != [] {
      CommittableIs(p, feed[..|feed| - 1], tracked);
      LastIsNew(feed);
      KeptIs(p, feed[..|feed| - 1]);
    }
  }

  /** The secrets left out are no rules. */
  lemma CommittableDecides(p: Policy, feed: Listing, tracked: set<string>)
    requires RulesArePublic(p)
    requires Distinct(feed)
    ensures DecideAlike(Scopes(p, Committable(p, feed, tracked)), Scopes(p, Kept(p, feed)))
  {
    KeptIs(p, feed);
    CommittableIs(p, feed, tracked);
    var kept, files := Kept(p, feed), Committable(p, feed, tracked);
    forall d ensures SameAt(Scopes(p, files), Scopes(p, kept), d) {
      OfScopes(p, kept, d);
      OfScopes(p, files, d);
      OwnBytesAre(kept, d);
      OwnBytesAre(files, d);
      if OwnBytes(kept, d).Some? {
        OwnIsRules(d);
      }
      assert OwnBytes(kept, d) == OwnBytes(files, d);
      SameBytesDecideAlike(p, Scopes(p, files), Scopes(p, kept), d,
                           OwnBytes(files, d), None, OwnBytes(kept, d), None);
    }
    SameEverywhere(Scopes(p, files), Scopes(p, kept));
  }

  lemma {:induction false} UnignoredIs(files: Listing, tracked: set<string>, scopes: seq<Scope>)
    ensures forall e :: e in Unignored(files, tracked, scopes) <==>
              e in files && (e.path in tracked || !Ignored(SortByDepth(scopes), e.path))
    ensures Distinct(files) ==> Distinct(Unignored(files, tracked, scopes))
  {
    if files != [] {
      UnignoredIs(files[..|files| - 1], tracked, scopes);
      LastIsNew(files);
    }
  }

  /** A commit holds the tracked files, and every other file that is no secret and that the workspace's rules keep. */
  lemma CommitIs(p: Policy, feed: Listing, tracked: set<string>)
    requires RulesArePublic(p)
    requires Distinct(feed)
    ensures Distinct(CommitOf(p, feed, tracked))
    ensures forall e :: e in CommitOf(p, feed, tracked) <==>
              e in Kept(p, feed) && (e.path in tracked || !Spared(p, Scopes(p, Kept(p, feed)), e.path))
  {
    CommittableIs(p, feed, tracked);
    CommittableDecides(p, feed, tracked);
    UnignoredIs(Committable(p, feed, tracked), tracked, Scopes(p, Committable(p, feed, tracked)));
  }

  // ---------- A saved version restores to itself ----------

  /** A file as git keeps it: executable or not. */
  function Saved(entry: Entry<bv16>): Entry<string> {
    Entry(entry.path, entry.bytes, if Executable(entry.mode) != 0 then "100755" else "100644")
  }

  function SavedCommit(files: Listing): Commit {
    seq(|files|, i requires 0 <= i < |files| => Saved(files[i]))
  }

  /** Executable for everybody or for nobody, which is all git keeps. */
  predicate GitMode(mode: bv16) {
    Executable(mode) == 0 || Executable(mode) == 0x49
  }

  /**
   * Restoring the version just saved deletes nothing and changes no file's bytes, and changes nothing at all exactly
   * when each file saved has a mode git keeps.
   */
  lemma SavedVersionRestoresToItself(p: Policy, listing: Listing, tracked: set<string>)
    requires RulesArePublic(p)
    requires Distinct(listing)
    ensures var files := CommitOf(p, listing, tracked);
            var changes := Revert(p, listing, SavedCommit(files));
            && (forall c <- changes ::
                c.Write? && c.path in TreeOf(listing) && TreeOf(listing)[c.path].bytes == c.file.bytes)
            && (changes == [] <==> forall e <- files :: GitMode(e.mode))
  {
    var files := CommitOf(p, listing, tracked);
    var commit := SavedCommit(files);
    CommitIs(p, listing, tracked);
    KeptIs(p, listing);
    SavedIsHeld(p, listing, files);
    CombinedIsWorkspace(p, listing, commit);
    var scopes := Combined(p, listing, commit);
    var kept := Kept(p, listing);
    SavedPaths(files);
    SparedIsNotDeleted(p, kept, Paths(commit), scopes);
    WritesAre(TreeOf(kept), commit);
    SavedIsWritten(p, listing, files);
  }

  lemma {:induction false} SparedIsNotDeleted(p: Policy, current: Listing, wanted: set<string>, scopes: seq<Scope>)
    requires forall e <- current :: e.path in wanted || Spared(p, scopes, e.path)
    ensures Deletions(p, current, wanted, scopes) == []
  {
    if current != [] {
      SparedIsNotDeleted(p, current[..|current| - 1], wanted, scopes);
    }
  }

  lemma SavedIsHeld(p: Policy, listing: Listing, files: Listing)
    requires Distinct(listing) && Distinct(files) && forall e <- files :: e in Kept(p, listing)
    ensures Distinct(SavedCommit(files)) && RulesHeld(p, listing, SavedCommit(files))
  {
    var commit := SavedCommit(files);
    forall f <- commit
      ensures exists e :: e in Kept(p, listing) && e.path == f.path && e.bytes == f.bytes && Relative(f.path)
    {
      var i :| 0 <= i < |commit| && commit[i] == f;
      assert files[i] in files;
    }
  }

  lemma SavedPaths(files: Listing)
    ensures Paths(SavedCommit(files)) == Paths(files)
  {
    var commit := SavedCommit(files);
    forall path ensures path in Paths(commit) <==> path in Paths(files) {
      if e :| e in files && e.path == path {
        var i :| 0 <= i < |files| && files[i] == e;
        assert commit[i] in commit;
      }
    }
  }

  /**
   * What of a saved version differs from the workspace it was saved from: no bytes, and only modes git does not keep.
   */
  lemma SavedDiffers(p: Policy, listing: Listing, files: Listing, i: nat)
    requires Distinct(listing) && i < |files| && files[i] in Kept(p, listing)
    ensures files[i].path in TreeOf(listing) && TreeOf(listing)[files[i].path].bytes == files[i].bytes
    ensures Holds(TreeOf(Kept(p, listing)), Saved(files[i])) <==> GitMode(files[i].mode)
  {
    KeptIs(p, listing);
    TreeOfIs(listing);
    TreeOfIs(Kept(p, listing));
  }

  lemma SavedIsWritten(p: Policy, listing: Listing, files: Listing)
    requires Distinct(listing) && Distinct(files) && forall e <- files :: e in Kept(p, listing)
    ensures var writes := Writes(TreeOf(Kept(p, listing)), SavedCommit(files));
            && (forall c <- writes ::
                c.Write? && c.path in TreeOf(listing) && TreeOf(listing)[c.path].bytes == c.file.bytes)
            && (writes == [] <==> forall e <- files :: GitMode(e.mode))
  {
    var existing, commit := TreeOf(Kept(p, listing)), SavedCommit(files);
    var writes := Writes(existing, commit);
    forall i | 0 <= i < |files|
      ensures files[i].path in TreeOf(listing) && TreeOf(listing)[files[i].path].bytes == files[i].bytes
      ensures Holds(existing, commit[i]) <==> GitMode(files[i].mode)
    {
      assert files[i] in files;
      SavedDiffers(p, listing, files, i);
    }
    WritesAre(existing, commit);
    forall c <- writes
      ensures c.Write? && c.path in TreeOf(listing) && TreeOf(listing)[c.path].bytes == c.file.bytes
      ensures exists e :: e in files && !GitMode(e.mode)
    {
      var f :| f in commit && c == WriteOf(f) && !Holds(existing, f);
      var i :| 0 <= i < |commit| && commit[i] == f;
      assert files[i] in files;
    }
    if writes == [] {
      forall e <- files ensures GitMode(e.mode) {
        var i :| 0 <= i < |files| && files[i] == e;
        assert commit[i] in commit;
      }
    } else {
      assert writes[0] in writes;
    }
  }

  // ---------- What a restored version keeps beside it ----------

  /** The workspace's files the commit lacks that a revert leaves, but for what is installed or built. */
  function Beside(p: Policy, current: Listing, wanted: set<string>, scopes: seq<Scope>): Listing {
    if current == [] then [] else
    var last := current[|current| - 1];
    Beside(p, current[..|current| - 1], wanted, scopes)
    + if last.path !in wanted && Spared(p, scopes, last.path) then [last] else []
  }

  function Remaining(p: Policy, listing: Listing, files: Commit): Listing {
    Beside(p, Kept(p, listing), Paths(files), Combined(p, listing, files))
  }

  /** The rules the workspace has once restored. */
  function RulesAfter(p: Policy, listing: Listing, files: Commit): seq<Scope> {
    Scopes(p, Remaining(p, listing, files)) + Scopes(p, files)
  }

  /** What the revert leaves beside the commit is still what no commit holds, by the rules that are left. */
  ghost predicate StillSpared(p: Policy, listing: Listing, files: Commit) {
    forall e <- Remaining(p, listing, files) :: Spared(p, RulesAfter(p, listing, files), e.path)
  }

  /** The workspace after the revert, as it lists itself, in whatever order. */
  ghost predicate ListedAfter(p: Policy, listing: Listing, files: Commit, listing': Listing) {
    && Distinct(listing')
    && TreeOf(listing') == Apply(TreeOf(listing), Revert(p, listing, files))
  }

  /** No file of the commit lies under an excluded root: the restore reads none of those. */
  ghost predicate ReadForRestore(p: Policy, files: Commit) {
    Distinct(files) && forall f <- files :: !p.excluded(f.path)
  }

  lemma {:induction false} BesideIs(p: Policy, current: Listing, wanted: set<string>, scopes: seq<Scope>)
    ensures forall e :: e in Beside(p, current, wanted, scopes) <==>
              e in current && e.path !in wanted && Spared(p, scopes, e.path)
    ensures Distinct(current) ==> Distinct(Beside(p, current, wanted, scopes))
  {
    if current != [] {
      BesideIs(p, current[..|current| - 1], wanted, scopes);
      LastIsNew(current);
    }
  }

  /** Beside the commit's files, the restored workspace lists what remains. */
  lemma RemainsAfter(p: Policy, listing: Listing, files: Commit, listing': Listing, e: Entry<bv16>)
    requires Distinct(listing) && ReadForRestore(p, files) && ListedAfter(p, listing, files, listing')
    requires e.path !in Paths(files)
    ensures e in Kept(p, listing') <==> e in Remaining(p, listing, files)
  {
    KeptIs(p, listing);
    KeptIs(p, listing');
    TreeOfIs(listing);
    TreeOfIs(listing');
    RevertRestores(p, listing, files, e.path);
    BesideIs(p, Kept(p, listing), Paths(files), Combined(p, listing, files));
  }

  lemma HeldAfter(p: Policy, listing: Listing, files: Commit, listing': Listing, f: Entry<string>)
    requires Distinct(listing) && ReadForRestore(p, files) && ListedAfter(p, listing, files, listing')
    requires f in files
    ensures Holds(TreeOf(Kept(p, listing')), f)
    ensures exists e :: e in Kept(p, listing') && e.path == f.path && e.bytes == f.bytes
  {
    RevertRestores(p, listing, files, f.path);
    KeptIs(p, listing');
    TreeOfIs(Kept(p, listing'));
    KeptTree(p, listing', f.path);
    var file := TreeOf(listing')[f.path];
    assert Entry(f.path, file.bytes, file.mode) in Kept(p, listing');
  }

  lemma RulesHeldAfter(p: Policy, listing: Listing, files: Commit, listing': Listing)
    requires Distinct(listing) && ReadForRestore(p, files) && ListedAfter(p, listing, files, listing')
    ensures RulesHeld(p, listing', files)
  {
    forall f <- files | IsGitignore(f.path)
      ensures exists e :: e in Kept(p, listing') && e.path == f.path && e.bytes == f.bytes
    {
      HeldAfter(p, listing, files, listing', f);
    }
  }

  lemma OwnBytesAfter(p: Policy, listing: Listing, files: Commit, listing': Listing, directory: string)
    requires Distinct(listing) && ReadForRestore(p, files) && ListedAfter(p, listing, files, listing')
    ensures var remaining := Remaining(p, listing, files);
            if OwnBytes(files, directory).Some?
            then OwnBytes(Kept(p, listing'), directory) == OwnBytes(files, directory)
                && OwnBytes(remaining, directory).None?
            else OwnBytes(Kept(p, listing'), directory) == OwnBytes(remaining, directory)
  {
    var remaining := Remaining(p, listing, files);
    KeptIs(p, listing);
    KeptIs(p, listing');
    BesideIs(p, Kept(p, listing), Paths(files), Combined(p, listing, files));
    OwnBytesAre(files, directory);
    OwnBytesAre(remaining, directory);
    OwnBytesAre(Kept(p, listing'), directory);
    if OwnBytes(files, directory).Some? {
      RulesHeldAfter(p, listing, files, listing');
      OwnBytesHeld(p, listing', files, directory);
    } else {
      assert Own(directory) !in Paths(files);
      if e :| e in Kept(p, listing') && e.path == Own(directory) {
        RemainsAfter(p, listing, files, listing', e);
      }
      if e :| e in remaining && e.path == Own(directory) {
        RemainsAfter(p, listing, files, listing', e);
      }
    }
  }

  /** The restored workspace's rules are those that were left: the commit's, and those of what remains beside it. */
  lemma RulesAfterDecide(p: Policy, listing: Listing, files: Commit, listing': Listing)
    requires Distinct(listing) && ReadForRestore(p, files) && ListedAfter(p, listing, files, listing')
    ensures DecideAlike(Scopes(p, Kept(p, listing')), RulesAfter(p, listing, files))
  {
    var kept', remaining := Kept(p, listing'), Remaining(p, listing, files);
    forall d ensures SameAt(Scopes(p, kept'), RulesAfter(p, listing, files), d) {
      KeptIs(p, listing);
      KeptIs(p, listing');
      BesideIs(p, Kept(p, listing), Paths(files), Combined(p, listing, files));
      OfTogether(Scopes(p, remaining), Scopes(p, files), d);
      OfScopes(p, kept', d);
      OfScopes(p, remaining, d);
      OfScopes(p, files, d);
      OwnBytesAfter(p, listing, files, listing', d);
      SameBytesDecideAlike(p, Scopes(p, kept'), RulesAfter(p, listing, files), d,
                           OwnBytes(kept', d), None, OwnBytes(remaining, d), OwnBytes(files, d));
    }
    SameEverywhere(Scopes(p, kept'), RulesAfter(p, listing, files));
  }

  lemma {:induction false} HeldIsNotWritten(existing: Tree, files: Commit)
    requires forall f <- files :: Holds(existing, f)
    ensures Writes(existing, files) == []
  {
    if files != [] {
      HeldIsNotWritten(existing, files[..|files| - 1]);
    }
  }

  /** What the rules after the revert say of what the restored workspace lists. */
  lemma SparedAfter(p: Policy, listing: Listing, files: Commit, listing': Listing)
    requires Distinct(listing) && ReadForRestore(p, files) && ListedAfter(p, listing, files, listing')
    ensures StillSpared(p, listing, files) <==>
            forall e <- Kept(p, listing') :: e.path in Paths(files) || Spared(p, Scopes(p, Kept(p, listing')), e.path)
  {
    var scopes := Scopes(p, Kept(p, listing'));
    RulesAfterDecide(p, listing, files, listing');
    BesideIs(p, Kept(p, listing), Paths(files), Combined(p, listing, files));
    forall e: Entry<bv16> | e.path !in Paths(files)
      ensures e in Kept(p, listing') <==> e in Remaining(p, listing, files)
    {
      RemainsAfter(p, listing, files, listing', e);
    }
    assert forall path :: Spared(p, scopes, path) <==> Spared(p, RulesAfter(p, listing, files), path);
  }

  /** Restoring again writes nothing, and does nothing exactly when what was left is still spared. */
  lemma SecondRevert(p: Policy, listing: Listing, files: Commit, listing': Listing)
    requires Distinct(listing) && ReadForRestore(p, files) && ListedAfter(p, listing, files, listing')
    ensures forall c <- Revert(p, listing', files) :: c.Delete?
    ensures Revert(p, listing', files) == [] <==> StillSpared(p, listing, files)
  {
    var kept', scopes' := Kept(p, listing'), Combined(p, listing', files);
    forall f <- files ensures Holds(TreeOf(kept'), f) {
      HeldAfter(p, listing, files, listing', f);
    }
    HeldIsNotWritten(TreeOf(kept'), files);
    RulesHeldAfter(p, listing, files, listing');
    CombinedIsWorkspace(p, listing', files);
    SparedAfter(p, listing, files, listing');
    assert forall path :: Spared(p, scopes', path) <==> Spared(p, Scopes(p, kept'), path);
    var deletions := Deletions(p, kept', Paths(files), scopes');
    DeletionsAre(p, kept', Paths(files), scopes');
    if deletions != [] {
      assert deletions[0] in deletions;
    }
  }

  /** Every file of the commit is saved again as it is in the commit, and no other file. */
  ghost predicate SavesTo(saved: Listing, files: Commit) {
    && Paths(saved) == Paths(files)
    && forall e <- saved, f <- files | e.path == f.path ::
        e.bytes == f.bytes && Executable(e.mode) == Executable(ModeOf(f.mode))
  }

  /** Saving the restored workspace gives the commit back, exactly when what was left is still spared. */
  lemma RestoredVersionSavesToItself(p: Policy, listing: Listing, files: Commit, listing': Listing)
    requires RulesArePublic(p)
    requires Distinct(listing) && ReadForRestore(p, files) && ListedAfter(p, listing, files, listing')
    ensures SavesTo(CommitOf(p, listing', Paths(files)), files) <==> StillSpared(p, listing, files)
  {
    var kept', saved := Kept(p, listing'), CommitOf(p, listing', Paths(files));
    CommitIs(p, listing', Paths(files));
    SparedAfter(p, listing, files, listing');
    KeptIs(p, listing');
    TreeOfIs(kept');
    forall f <- files
      ensures f.path in Paths(saved)
      ensures forall e <- saved | e.path == f.path ::
          e.bytes == f.bytes && Executable(e.mode) == Executable(ModeOf(f.mode))
    {
      HeldAfter(p, listing, files, listing', f);
    }
  }

  /** The revert leaves alone the rules files the workspace already has. */
  ghost predicate RulesUntouched(p: Policy, listing: Listing, files: Commit) {
    forall c <- Revert(p, listing, files) | IsGitignore(c.path) :: c.path !in Paths(listing)
  }

  lemma OwnBytesUntouched(p: Policy, listing: Listing, files: Commit, directory: string)
    requires Distinct(listing) && ReadForRestore(p, files) && RulesUntouched(p, listing, files)
    ensures var own := OwnBytes(Kept(p, listing), directory);
            var remaining := OwnBytes(Remaining(p, listing, files), directory);
            if OwnBytes(files, directory).Some?
            then remaining.None? && (own.None? || own == OwnBytes(files, directory))
            else remaining == own
  {
    var kept, scopes, own := Kept(p, listing), Combined(p, listing, files), Own(directory);
    KeptIs(p, listing);
    BesideIs(p, kept, Paths(files), scopes);
    OwnBytesAre(kept, directory);
    OwnBytesAre(files, directory);
    OwnBytesAre(Remaining(p, listing, files), directory);
    WritesAre(TreeOf(kept), files);
    DeletionsAre(p, kept, Paths(files), scopes);
    TreeOfIs(kept);
    if e :| e in kept && e.path == own {
      OwnIsRules(directory);
      assert Delete(own) !in Revert(p, listing, files);
      if f :| f in files && f.path == own {
        assert WriteOf(f) !in Revert(p, listing, files);
        assert Holds(TreeOf(kept), f);
      }
    }
  }

  /** A revert that leaves those files alone spares the same afterwards: restoring again does nothing. */
  lemma RulesUntouchedIsEnough(p: Policy, listing: Listing, files: Commit)
    requires Distinct(listing) && ReadForRestore(p, files) && RulesUntouched(p, listing, files)
    ensures StillSpared(p, listing, files)
  {
    var kept, remaining := Kept(p, listing), Remaining(p, listing, files);
    var before, after := Combined(p, listing, files), RulesAfter(p, listing, files);
    forall d ensures SameAt(before, after, d) {
      KeptIs(p, listing);
      BesideIs(p, kept, Paths(files), before);
      OfTogether(Scopes(p, kept), Scopes(p, files), d);
      OfTogether(Scopes(p, remaining), Scopes(p, files), d);
      OfScopes(p, kept, d);
      OfScopes(p, remaining, d);
      OfScopes(p, files, d);
      OwnBytesUntouched(p, listing, files, d);
      SameBytesDecideAlike(p, before, after, d, OwnBytes(kept, d), OwnBytes(files, d),
                           OwnBytes(remaining, d), OwnBytes(files, d));
    }
    SameEverywhere(before, after);
    BesideIs(p, kept, Paths(files), before);
  }

  // ---------- A revert that is not its own repeat ----------

  lemma {:induction false} PlainName(name: string)
    requires '/' !in name
    ensures FirstSegment(name) == name && LastSlash(name) == -1 && ParentDirectory(name) == "" && name[0..] == name
  {
    if name != "" {
      PlainName(name[1..]);
    }
  }

  /** What a rules file with one rule, standing at the root, ignores there. */
  lemma OneRule(rule: Rule, name: string)
    requires rule.ignores && '/' !in name && name != ""
    ensures Ignored(SortByDepth([Scope("", [rule])]), name) <==> rule.matches(name)
  {
    var scope := Scope("", [rule]);
    PlainName(name);
    assert [scope][..0] == [] && [rule][..0] == [];
    assert SortByDepth([scope]) == [scope];
    assert MatchIn([rule], name) == if rule.matches(name) then Some(true) else None;
    assert Prefix(scope.directory) == "" && Applies(scope, name) && name[|Prefix(scope.directory)|..] == name;
    assert DecideOne(scope, name) == MatchIn([rule], name);
    assert Decide([scope], name) == DecideOne(scope, name);
  }

  lemma TwoFiles(p: Policy, rules: Entry<bv16>, file: Entry<bv16>)
    requires !p.excluded(rules.path) && !p.excluded(file.path)
    ensures Kept(p, [rules, file]) == [rules, file] && Kept(p, [file]) == [file]
  {
    assert [rules, file][..1] == [rules] && [rules][..0] == [] && [file][..0] == [];
    assert Kept(p, [rules]) == [rules];
  }

  lemma TwoScopes(p: Policy, rules: Entry<bv16>, file: Entry<bv16>)
    requires IsGitignore(rules.path) && !IsGitignore(file.path)
    ensures Scopes(p, [rules, file]) == [Scope(ParentDirectory(rules.path), p.rulesOf(rules.bytes))]
    ensures Scopes(p, [file]) == []
  {
    assert [rules, file][..1] == [rules] && [rules][..0] == [] && [file][..0] == [];
    assert Scopes(p, [rules]) == [Scope(ParentDirectory(rules.path), p.rulesOf(rules.bytes))];
  }

  lemma NoCommit(p: Policy, rules: Entry<bv16>, file: Entry<bv16>, scopes: seq<Scope>)
    requires !Spared(p, scopes, rules.path) && Spared(p, scopes, file.path) && !Spared(p, [], file.path)
    ensures Deletions(p, [rules, file], {}, scopes) == [Delete(rules.path)]
    ensures Deletions(p, [file], {}, []) == [Delete(file.path)]
  {
    assert [rules, file][..1] == [rules] && [rules][..0] == [] && [file][..0] == [];
    assert Deletions(p, [rules], {}, scopes) == [Delete(rules.path)];
  }

  lemma RevertToNothing(p: Policy, listing: Listing)
    ensures Revert(p, listing, []) == Deletions(p, Kept(p, listing), {}, Scopes(p, Kept(p, listing)))
  {
    var commit: Commit := [];
    assert Combined(p, listing, commit) == Scopes(p, Kept(p, listing));
    assert Paths(commit) == {};
  }

  lemma TwoTrees(rules: Entry<bv16>, file: Entry<bv16>)
    requires rules.path != file.path
    ensures Apply(TreeOf([rules, file]), [Delete(rules.path)]) == TreeOf([file])
  {
    assert [rules, file][..1] == [rules] && [rules][..0] == [] && [file][..0] == [];
    assert [Delete(rules.path)][..0] == [];
    assert TreeOf([rules]) == map[rules.path := File(rules.bytes, rules.mode)];
  }

  /**
   * A workspace of a rules file at the root and an ordinary file it ignores, restored to a commit with neither: the
   * rules file is deleted, and so the file it ignored is deleted the next time.
   */
  lemma SecondRevertMayDelete(p: Policy, rules: Entry<bv16>, file: Entry<bv16>, rule: Rule)
    requires rules.path != file.path && rules.path != "" && file.path != ""
    requires '/' !in rules.path && '/' !in file.path
    requires IsGitignore(rules.path) && !p.excluded(rules.path) && !p.secret(rules.path)
    requires !IsGitignore(file.path) && !p.excluded(file.path) && !p.secret(file.path)
    requires p.rulesOf(rules.bytes) == [rule] && rule.ignores && rule.matches(file.path) && !rule.matches(rules.path)
    ensures Revert(p, [rules, file], []) == [Delete(rules.path)]
    ensures ListedAfter(p, [rules, file], [], [file])
    ensures Revert(p, [file], []) == [Delete(file.path)]
  {
    var scope := Scope("", [rule]);
    PlainName(rules.path);
    PlainName(file.path);
    TwoFiles(p, rules, file);
    TwoScopes(p, rules, file);
    RevertToNothing(p, [rules, file]);
    RevertToNothing(p, [file]);
    OneRule(rule, file.path);
    OneRule(rule, rules.path);
    assert !Spared(p, [scope], rules.path) && Spared(p, [scope], file.path);
    assert !Spared(p, [], file.path) by {
      assert SortByDepth([]) == [];
    }
    NoCommit(p, rules, file, [scope]);
    TwoTrees(rules, file);
    assert Distinct([file]);
  }
}
