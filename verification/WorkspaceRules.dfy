/**
 * Which `.gitignore` rule decides a path of a project (app/agents/linked-project-workspace.ts, `revertChanges` and
 * `workspaceCommitFiles`), said of the files themselves: those of the workspace and those of the commit restored. And
 * what the source's own policy takes for installed, built or secret.
 */
module WorkspaceRules {
  import opened Wrappers
  import opened Gitignore
  import opened WorkspaceRevert
  import opened WorkspaceVersions

  /** Rule `r` of a file, the `.gitignore` of the directory of that length, matches the path as seen from there. */
  ghost predicate MatchesIn(p: Policy, file: string, bytes: Bytes, path: string, at: int, r: int, ignores: bool) {
    && Below(path, at) && file == (if at == 0 then ".gitignore" else path[..at] + "/" + ".gitignore")
    && 0 <= r < |p.rulesOf(bytes)| && p.rulesOf(bytes)[r].ignores == ignores
    && p.rulesOf(bytes)[r].matches(RelativeTo(path, at))
  }

  /** Such a rule of the commit, or of the workspace but for what is installed or built. */
  ghost predicate OwnRule(
    p: Policy, listing: Listing, files: Commit, path: string, at: int, commits: bool, r: int, ignores: bool)
  {
    if commits then exists f <- files :: MatchesIn(p, f.path, f.bytes, path, at, r, ignores)
    else exists e <- listing :: !p.excluded(e.path) && MatchesIn(p, e.path, e.bytes, path, at, r, ignores)
  }

  /** No matching rule stands deeper, nor, in that directory, in the commit's file before the workspace's, or later. */
  ghost predicate OwnRuleDecides(
    p: Policy, listing: Listing, files: Commit, path: string, at: int, commits: bool, r: int, ignores: bool)
  {
    && OwnRule(p, listing, files, path, at, commits, r, ignores)
    && forall at', commits', r', ignores' | OwnRule(p, listing, files, path, at', commits', r', ignores') ::
         at' < at || (at' == at && ((commits && !commits') || (commits == commits' && r' <= r)))
  }

  ghost predicate FilesSay(p: Policy, listing: Listing, files: Commit, path: string) {
    exists at, commits, r :: OwnRuleDecides(p, listing, files, path, at, commits, r, true)
  }

  /** Ignored by the `.gitignore` files of the workspace and the commit: a directory it lies in is, or it is itself. */
  ghost predicate FilesIgnore(p: Policy, listing: Listing, files: Commit, path: string) {
    || (exists at :: LiesIn(path, at) && FilesSay(p, listing, files, path[..at] + "/"))
    || FilesSay(p, listing, files, path)
  }

  // ---------- The files behind the rules ----------

  ghost predicate ScopeOf<M(!new)>(p: Policy, entry: Entry<M>, scope: Scope) {
    entry.path == Own(scope.directory) && scope.rules == p.rulesOf(entry.bytes)
  }

  /** Each list of rules is a file's, and no directory has two. */
  lemma {:induction false} ScopesAre<M(!new)>(p: Policy, entries: seq<Entry<M>>)
    requires Distinct(entries)
    ensures DistinctDirectories(Scopes(p, entries))
    ensures forall scope <- Scopes(p, entries) :: exists e <- entries :: ScopeOf(p, e, scope)
  {
    if entries != [] {
      var last, shorter := entries[|entries| - 1], entries[..|entries| - 1];
      LastIsNew(entries);
      ScopesAre(p, shorter);
      assert last in entries;
      var directory := ParentDirectory(last.path);
      OwnIs(last.path, directory);
      if IsGitignore(last.path) {
        var scope := Scope(directory, p.rulesOf(last.bytes));
        assert Scopes(p, entries) == Scopes(p, shorter) + [scope];
        assert ScopeOf(p, last, scope);
        forall other <- Scopes(p, shorter) ensures other.directory != directory {
          var e :| e in shorter && ScopeOf(p, e, other);
        }
      }
    }
  }

  lemma OwnIsGitignore(path: string, at: int)
    requires Below(path, at) && at <= |path|
    ensures Own(path[..at]) == if at == 0 then ".gitignore" else path[..at] + "/" + ".gitignore"
  {
  }

  lemma OwnIsRulesFile(path: string, directory: string)
    requires path == Own(directory) && Relative(path)
    ensures IsGitignore(path) && ParentDirectory(path) == directory
  {
    OwnIs(path, directory);
  }

  /** The rule of a scope is the rule of its file. */
  lemma ScopeRule<M(!new)>(p: Policy, entries: seq<Entry<M>>, path: string, at: int, f: int, r: int)
    requires Distinct(entries) && RuleMatches(Scopes(p, entries), path, at, f, r)
    ensures exists e <- entries ::
              MatchesIn(p, e.path, e.bytes, path, at, r, Scopes(p, entries)[f].rules[r].ignores)
  {
    ScopesAre(p, entries);
    var scope := Scopes(p, entries)[f];
    assert scope in Scopes(p, entries);
    var e :| e in entries && ScopeOf(p, e, scope);
    OwnIsGitignore(path, at);
    assert MatchesIn(p, e.path, e.bytes, path, at, r, scope.rules[r].ignores);
  }

  lemma FileScope<M(!new)>(p: Policy, entries: seq<Entry<M>>, e: Entry<M>, directory: string) returns (f: int)
    requires Distinct(entries) && e in entries && e.path == Own(directory)
    ensures 0 <= f < |Scopes(p, entries)|
    ensures Scopes(p, entries)[f] == Scope(directory, p.rulesOf(e.bytes))
  {
    OwnIsRulesFile(e.path, directory);
    f := ItsScope(p, entries, e);
    OwnIsRulesFile(e.path, Scopes(p, entries)[f].directory);
  }

  lemma {:induction false} ItsScope<M(!new)>(p: Policy, entries: seq<Entry<M>>, e: Entry<M>) returns (f: int)
    requires Distinct(entries) && e in entries && IsGitignore(e.path)
    ensures 0 <= f < |Scopes(p, entries)| && ScopeOf(p, e, Scopes(p, entries)[f])
  {
    var last, shorter := entries[|entries| - 1], entries[..|entries| - 1];
    if e == last {
      OwnIs(last.path, ParentDirectory(last.path));
      f := |Scopes(p, shorter)|;
    } else {
      LastIsNew(entries);
      f := ItsScope(p, shorter, e);
    }
  }

  lemma RuleScope<M(!new)>(
    p: Policy, entries: seq<Entry<M>>, path: string, at: int, r: int, ignores: bool, e: Entry<M>)
    returns (f: int)
    requires Distinct(entries) && e in entries && MatchesIn(p, e.path, e.bytes, path, at, r, ignores)
    ensures RuleMatches(Scopes(p, entries), path, at, f, r) && Scopes(p, entries)[f].rules[r].ignores == ignores
  {
    OwnIsGitignore(path, at);
    f := FileScope(p, entries, e, path[..at]);
  }

  lemma SameDirectoryOnce(scopes: seq<Scope>, path: string, at: int, f: int, r: int, f': int, r': int)
    requires DistinctDirectories(scopes)
    requires RuleMatches(scopes, path, at, f, r) && RuleMatches(scopes, path, at, f', r')
    ensures f == f'
  {
  }

  lemma TogetherMatch(a: seq<Scope>, b: seq<Scope>, path: string, at: int, f: int, r: int)
    ensures f < |a| ==> (RuleMatches(a + b, path, at, f, r) <==> RuleMatches(a, path, at, f, r))
    ensures f >= |a| ==> (RuleMatches(a + b, path, at, f, r) <==> RuleMatches(b, path, at, f - |a|, r))
  {
  }

  /** Every matching rule of the combined list is one of the files'. */
  lemma CombinedRule(p: Policy, listing: Listing, files: Commit, path: string, at: int, f: int, r: int)
    requires Distinct(listing) && Distinct(files) && RuleMatches(Combined(p, listing, files), path, at, f, r)
    ensures OwnRule(p, listing, files, path, at, f >= |Scopes(p, Kept(p, listing))|, r,
                    Combined(p, listing, files)[f].rules[r].ignores)
  {
    var ours, theirs := Scopes(p, Kept(p, listing)), Scopes(p, files);
    KeptIs(p, listing);
    TogetherMatch(ours, theirs, path, at, f, r);
    if f < |ours| {
      ScopeRule(p, Kept(p, listing), path, at, f, r);
    } else {
      ScopeRule(p, files, path, at, f - |ours|, r);
    }
  }

  /** And the other way round. */
  lemma RuleCombined(
    p: Policy, listing: Listing, files: Commit, path: string, at: int, commits: bool, r: int, ignores: bool)
    returns (f: int)
    requires Distinct(listing) && Distinct(files) && OwnRule(p, listing, files, path, at, commits, r, ignores)
    ensures RuleMatches(Combined(p, listing, files), path, at, f, r)
    ensures Combined(p, listing, files)[f].rules[r].ignores == ignores
    ensures commits == (f >= |Scopes(p, Kept(p, listing))|)
  {
    var ours, theirs := Scopes(p, Kept(p, listing)), Scopes(p, files);
    if commits {
      var e :| e in files && MatchesIn(p, e.path, e.bytes, path, at, r, ignores);
      f := RuleScope(p, files, path, at, r, ignores, e);
      f := f + |ours|;
      TogetherMatch(ours, theirs, path, at, f, r);
    } else {
      f := RuleOurs(p, listing, files, path, at, r, ignores);
      TogetherMatch(ours, theirs, path, at, f, r);
    }
  }

  lemma RuleOurs(p: Policy, listing: Listing, files: Commit, path: string, at: int, r: int, ignores: bool)
    returns (f: int)
    requires Distinct(listing) && OwnRule(p, listing, files, path, at, false, r, ignores)
    ensures RuleMatches(Scopes(p, Kept(p, listing)), path, at, f, r)
    ensures Scopes(p, Kept(p, listing))[f].rules[r].ignores == ignores
  {
    KeptIs(p, listing);
    var e :| e in listing && !p.excluded(e.path) && MatchesIn(p, e.path, e.bytes, path, at, r, ignores);
    f := RuleScope(p, Kept(p, listing), path, at, r, ignores, e);
  }

  /** Of one directory, the workspace's file and the commit's stand in the list once each, in that order. */
  lemma OrderIsOwn(p: Policy, listing: Listing, files: Commit, path: string, at: int, f: int, r: int, f': int, r': int)
    requires Distinct(listing) && Distinct(files)
    requires RuleMatches(Combined(p, listing, files), path, at, f, r)
    requires RuleMatches(Combined(p, listing, files), path, at, f', r')
    ensures var n := |Scopes(p, Kept(p, listing))|; (f < n <==> f' < n) ==> f == f'
  {
    var ours, theirs := Scopes(p, Kept(p, listing)), Scopes(p, files);
    KeptIs(p, listing);
    ScopesAre(p, Kept(p, listing));
    ScopesAre(p, files);
    TogetherMatch(ours, theirs, path, at, f, r);
    TogetherMatch(ours, theirs, path, at, f', r');
    if f < |ours| && f' < |ours| {
      SameDirectoryOnce(ours, path, at, f, r, f', r');
    } else if f >= |ours| && f' >= |ours| {
      SameDirectoryOnce(theirs, path, at, f - |ours|, r, f' - |ours|, r');
    }
  }

  lemma DecidingRule(p: Policy, listing: Listing, files: Commit, path: string, at: int, f: int, r: int)
    requires Distinct(listing) && Distinct(files) && RuleDecides(Combined(p, listing, files), path, at, f, r)
    ensures OwnRuleDecides(p, listing, files, path, at, f >= |Scopes(p, Kept(p, listing))|, r,
                           Combined(p, listing, files)[f].rules[r].ignores)
  {
    var commits := f >= |Scopes(p, Kept(p, listing))|;
    CombinedRule(p, listing, files, path, at, f, r);
    forall at', commits', r', ignores' | OwnRule(p, listing, files, path, at', commits', r', ignores')
      ensures at' < at || (at' == at && ((commits && !commits') || (commits == commits' && r' <= r)))
    {
      var f' := RuleCombined(p, listing, files, path, at', commits', r', ignores');
      if at' == at {
        OrderIsOwn(p, listing, files, path, at, f, r, f', r');
      }
    }
  }

  lemma DecidingFile(p: Policy, listing: Listing, files: Commit, path: string, at: int, commits: bool, r: int,
                     ignores: bool)
    requires Distinct(listing) && Distinct(files)
    requires OwnRuleDecides(p, listing, files, path, at, commits, r, ignores)
    ensures RuleSays(Combined(p, listing, files), path, ignores)
  {
    var combined := Combined(p, listing, files);
    var f := RuleCombined(p, listing, files, path, at, commits, r, ignores);
    forall at', f', r' | RuleMatches(combined, path, at', f', r')
      ensures at' < at || (at' == at && (f' < f || (f' == f && r' <= r)))
    {
      CombinedRule(p, listing, files, path, at', f', r');
      if at' == at {
        OrderIsOwn(p, listing, files, path, at, f, r, f', r');
      }
    }
    assert RuleDecides(combined, path, at, f, r);
  }

  lemma SaysIsFiles(p: Policy, listing: Listing, files: Commit, path: string)
    requires Distinct(listing) && Distinct(files)
    ensures Says(Combined(p, listing, files), path) <==> FilesSay(p, listing, files, path)
  {
    var combined := Combined(p, listing, files);
    if at, f, r :| RuleDecides(combined, path, at, f, r) && combined[f].rules[r].ignores {
      DecidingRule(p, listing, files, path, at, f, r);
    }
    if at, commits, r :| OwnRuleDecides(p, listing, files, path, at, commits, r, true) {
      DecidingFile(p, listing, files, path, at, commits, r, true);
    }
  }

  /**
   * What a revert spares: secrets, and what the `.gitignore` files ignore, the commit's deciding after the workspace's
   * of the same directory.
   */
  lemma SparedExactly(p: Policy, listing: Listing, files: Commit, path: string)
    requires Distinct(listing) && Distinct(files)
    ensures Spared(p, Combined(p, listing, files), path) <==> p.secret(path) || FilesIgnore(p, listing, files, path)
  {
    MatcherIsPlain(Combined(p, listing, files), path);
    SaysIsFiles(p, listing, files, path);
    forall at | LiesIn(path, at)
      ensures Says(Combined(p, listing, files), path[..at] + "/") <==> FilesSay(p, listing, files, path[..at] + "/")
    {
      SaysIsFiles(p, listing, files, path[..at] + "/");
    }
  }

  // ---------- What is restored and committed ----------

  /** The same bytes, and executable for all or for none as git says. */
  predicate SameAsGit(bytes: Bytes, mode: bv16, f: Entry<string>) {
    bytes == f.bytes && mode & 0x49 == if f.mode == "100755" then 0x49 else 0
  }

  /**
   * After a revert each path of the commit holds the commit's file; of the others those are as they were that are
   * installed or built, secret, or ignored by the `.gitignore` files, and no other is left.
   */
  lemma RestoredExactly(p: Policy, listing: Listing, files: Commit, path: string)
    requires Distinct(listing) && Distinct(files)
    ensures
      var tree := TreeOf(listing);
      var tree' := Apply(tree, Revert(p, listing, files));
      && (forall f <- files | f.path == path :: path in tree' && SameAsGit(tree'[path].bytes, tree'[path].mode, f))
      && ((forall f <- files :: f.path != path) ==>
            if path in tree && (p.excluded(path) || p.secret(path) || FilesIgnore(p, listing, files, path))
            then path in tree' && tree'[path] == tree[path] else path !in tree')
  {
    RevertRestores(p, listing, files, path);
    SparedExactly(p, listing, files, path);
    assert forall f <- files | f.path == path :: path in Paths(files);
  }

  /** The workspace lists that file already, and not under an excluded root. */
  ghost predicate HasAlready(p: Policy, listing: Listing, f: Entry<string>) {
    exists e <- listing :: e.path == f.path && !p.excluded(e.path) && SameAsGit(e.bytes, e.mode, f)
  }

  /** A revert writes a file of the commit exactly when the workspace does not hold it, under one of git's two modes. */
  lemma WrittenExactly(p: Policy, listing: Listing, files: Commit, f: Entry<string>)
    requires Distinct(listing) && Distinct(files) && f in files
    ensures
      var write := Write(f.path, File(f.bytes, if f.mode == "100755" then 0x1ed else 0x1a4));
      && (write in Revert(p, listing, files) <==> !HasAlready(p, listing, f))
      && (forall c <- Revert(p, listing, files) | c.path == f.path :: c == write)
  {
    var kept := Kept(p, listing);
    KeptIs(p, listing);
    TreeOfIs(kept);
    HeldIsThere(p, listing, f);
    WritesAre(TreeOf(kept), files);
    DeletionsAre(p, kept, Paths(files), Combined(p, listing, files));
  }

  lemma HeldIsThere(p: Policy, listing: Listing, f: Entry<string>)
    requires Distinct(listing)
    ensures Holds(TreeOf(Kept(p, listing)), f) <==> HasAlready(p, listing, f)
  {
    KeptIs(p, listing);
    TreeOfIs(Kept(p, listing));
    if Holds(TreeOf(Kept(p, listing)), f) {
      var file := TreeOf(Kept(p, listing))[f.path];
      assert Entry(f.path, file.bytes, file.mode) in listing;
    }
  }

  /** A commit takes what is tracked, and else what is neither secret nor ignored by the workspace's files. */
  lemma CommittedExactly(p: Policy, feed: Listing, tracked: set<string>, e: Entry<bv16>)
    requires Distinct(feed) && RulesArePublic(p)
    ensures e in CommitOf(p, feed, tracked) <==>
            && e in feed && !p.excluded(e.path)
            && (e.path in tracked || !(p.secret(e.path) || FilesIgnore(p, feed, [], e.path)))
  {
    var none: Commit := [];
    CommitIs(p, feed, tracked);
    KeptIs(p, feed);
    SparedExactly(p, feed, none, e.path);
    assert Combined(p, feed, none) == Scopes(p, Kept(p, feed));
  }

  // ---------- The source's own policy ----------

  lemma {:induction false} FirstSegmentIs(path: string)
    ensures var first := FirstSegment(path);
            first <= path && '/' !in first && (|first| < |path| ==> path[|first|] == '/')
    decreases |path|
  {
    if path != "" && path[0] != '/' {
      FirstSegmentIs(path[1..]);
    }
  }

  /** Installed or built is what one of the roots is, or has under it; a name that merely starts alike is not. */
  lemma ExcludedExactly(path: string)
    ensures IsExcluded(path) <==> exists root <- EXCLUDED_ROOTS :: path == root || root + "/" <= path
  {
    var first := FirstSegment(path);
    FirstSegmentIs(path);
    RootsHaveNoSlash();
    forall root <- EXCLUDED_ROOTS ensures first == root <==> path == root || root + "/" <= path {
      if root + "/" <= path {
        assert path[|root|] == '/' && path[..|root|] == root;
        assert |first| == |root|;
      }
      if first == root && path != root {
        assert path[..|root| + 1] == root + "/";
      }
    }
  }

  lemma RootsHaveNoSlash()
    ensures forall root <- EXCLUDED_ROOTS :: '/' !in root
  {
  }

  /** One of the two names, or one that goes on from them behind a dot, but for the three examples. */
  predicate NamesASecret(name: string) {
    && name !in {".env.example", ".env.sample", ".env.template"}
    && (name in {".env", ".dev.vars"} || ".env" + "." <= name || ".dev.vars" + "." <= name)
  }

  /** Secret is a file of such a name in whatever directory. */
  lemma SecretExactly(directory: string, name: string)
    requires '/' !in name
    ensures IsNeverPublished(Prefix(directory) + name) <==> NamesASecret(name)
  {
    LastName(directory, name);
    assert ".env" + "." == ".env." && ".dev.vars" + "." == ".dev.vars.";
  }

  lemma LastName(directory: string, name: string)
    requires '/' !in name
    ensures var path := Prefix(directory) + name; path[LastSlash(path) + 1..] == name
  {
    var path := Prefix(directory) + name;
    if directory == "" {
      PlainName(name);
      assert path == name;
    } else {
      SlashBefore(directory, name);
      assert path == directory + "/" + name;
    }
  }
}
