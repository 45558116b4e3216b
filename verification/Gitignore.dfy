/**
 * Which paths git would ignore (app/agents/linked-project-ignore.ts, `gitignoreMatcher`). A rule is whether it ignores
 * and which paths it matches; how a pattern is compiled to that is not part of this model.
 */
module Gitignore {
  import opened Wrappers

  datatype Rule = Rule(ignores: bool, matches: string -> bool)

  /** A `.gitignore` file: the directory it stands in, and its rules in order. */
  datatype Scope = Scope(directory: string, rules: seq<Rule>)

  /** The index of the last slash, or -1. */
  function LastSlash(path: string): (at: int)
    ensures -1 <= at < |path|
    ensures at >= 0 ==> path[at] == '/'
    ensures forall k | at < k < |path| :: path[k] != '/'
  {
    if path == "" then -1
    else if path[|path| - 1] == '/' then |path| - 1
    else LastSlash(path[..|path| - 1])
  }

  function ParentDirectory(path: string): string {
    var slash := LastSlash(path);
    if slash < 0 then "" else path[..slash]
  }

  function Slashes(path: string): nat {
    if path == "" then 0 else Slashes(path[..|path| - 1]) + if path[|path| - 1] == '/' then 1 else 0
  }

  function Depth(directory: string): nat {
    if directory == "" then 0 else Slashes(directory) + 1
  }

  function Prefix(directory: string): string {
    if directory == "" then "" else directory + "/"
  }

  /** The scope's rules are about the path: it lies in the scope's directory, and is not that directory. */
  predicate Applies(scope: Scope, path: string) {
    Prefix(scope.directory) <= path && |path| != |Prefix(scope.directory)|
  }

  /** What the last matching rule says. */
  function MatchIn(rules: seq<Rule>, relative: string): Option<bool> {
    if rules == [] then None else
    var last := rules[|rules| - 1];
    if last.matches(relative) then Some(last.ignores) else MatchIn(rules[..|rules| - 1], relative)
  }

  function DecideOne(scope: Scope, path: string): Option<bool> {
    if Applies(scope, path) then MatchIn(scope.rules, path[|Prefix(scope.directory)|..]) else None
  }

  /** What the last scope with a matching rule says. */
  function Decide(scopes: seq<Scope>, path: string): Option<bool> {
    if scopes == [] then None else
    var last := DecideOne(scopes[|scopes| - 1], path);
    if last.Some? then last else Decide(scopes[..|scopes| - 1], path)
  }

  predicate LastDecision(scopes: seq<Scope>, path: string) {
    Decide(scopes, path) == Some(true)
  }

  predicate IgnoredDirectory(scopes: seq<Scope>, directory: string)
    decreases |directory|
  {
    directory != "" &&
    (IgnoredDirectory(scopes, ParentDirectory(directory)) || LastDecision(scopes, directory + "/"))
  }

  predicate Ignored(scopes: seq<Scope>, path: string) {
    IgnoredDirectory(scopes, ParentDirectory(path)) || LastDecision(scopes, path)
  }

  /** The library sort by depth, which is stable. */
  function SortByDepth(scopes: seq<Scope>): seq<Scope> {
    if scopes == [] then [] else Insert(SortByDepth(scopes[..|scopes| - 1]), scopes[|scopes| - 1])
  }

  function Insert(scopes: seq<Scope>, scope: Scope): seq<Scope> {
    if scopes == [] || Depth(scopes[|scopes| - 1].directory) <= Depth(scope.directory) then scopes + [scope]
    else Insert(scopes[..|scopes| - 1], scope) + [scopes[|scopes| - 1]]
  }

  /** The rules walked back from the last. */
  method LastMatch(rules: seq<Rule>, relative: string) returns (decision: Option<bool>)
    ensures decision == MatchIn(rules, relative)
  {
    assert rules[..|rules|] == rules;
    for rule := |rules| downto 0
      invariant MatchIn(rules, relative) == MatchIn(rules[..rule], relative)
    {
      assert rules[..rule + 1][..rule] == rules[..rule];
      if rules[rule].matches(relative) {
        return Some(rules[rule].ignores);
      }
    }
    return None;
  }

  /** The matcher: the sorted scopes, and the directories decided so far. */
  class GitignoreMatcher {
    const scopes: seq<Scope>
    var directories: map<string, bool>
    /** The files as they were given. */
    ghost const files: seq<Scope>

    /** Every remembered answer is the plain one. */
    ghost predicate Valid()
      reads this
    {
      scopes == SortByDepth(files) && forall d <- directories :: directories[d] == IgnoredDirectory(scopes, d)
    }

    constructor (gitignores: seq<Scope>)
      ensures Valid() && scopes == SortByDepth(gitignores) && files == gitignores
    {
      files := gitignores;
      scopes := SortByDepth(gitignores);
      directories := map[];
    }

    method DecideLast(path: string) returns (ignores: bool)
      requires Valid()
      ensures ignores == LastDecision(scopes, path) && (ignores <==> RuleSays(files, path, true))
    {
      DecideIsRule(files, path);
      assert scopes[..|scopes|] == scopes;
      for index := |scopes| downto 0
        invariant Decide(scopes, path) == Decide(scopes[..index], path)
      {
        var scope := scopes[index];
        assert scopes[..index + 1][..index] == scopes[..index];
        var prefix := if scope.directory == "" then "" else scope.directory + "/";
        if prefix <= path && |path| != |prefix| {
          var decision := LastMatch(scope.rules, path[|prefix|..]);
          if decision.Some? {
            return decision.value;
          }
        }
      }
      return false;
    }

    method DecideDirectory(directory: string) returns (ignored: bool)
      requires Valid()
      modifies this
      ensures Valid() && ignored == IgnoredDirectory(scopes, directory)
      decreases |directory|
    {
      if directory == "" {
        return false;
      }
      if directory in directories {
        return directories[directory];
      }
      ignored := DecideDirectory(ParentDirectory(directory));
      if !ignored {
        ignored := DecideLast(directory + "/");
      }
      directories := directories[directory := ignored];
    }

    /** The answer of the memoised matcher is git's, whatever was asked before. */
    method Matches(path: string) returns (ignored: bool)
      requires Valid()
      modifies this
      ensures Valid() && ignored == Ignored(scopes, path) && (ignored <==> GitIgnores(files, path))
    {
      MatcherIsPlain(files, path);
      ignored := DecideDirectory(ParentDirectory(path));
      if !ignored {
        ignored := DecideLast(path);
      }
    }
  }

  // ---------- The plain specification ----------

  /** The files standing in one directory, in the order given. */
  ghost function Of(files: seq<Scope>, directory: string): seq<Scope> {
    if files == [] then [] else
    Of(files[..|files| - 1], directory)
    + if files[|files| - 1].directory == directory then [files[|files| - 1]] else []
  }

  /**
   * Walk up from the path: the first directory, from the one of length `from`, whose files have a matching rule
   * decides, and the root last.
   */
  ghost function WalkUp(files: seq<Scope>, path: string, from: nat): Option<bool>
    requires from <= |path|
  {
    if from == 0 then Decide(Of(files, ""), path) else
    var here := if from + 1 < |path| && path[from] == '/' then Decide(Of(files, path[..from]), path) else None;
    if here.Some? then here else WalkUp(files, path, from - 1)
  }

  /** The path lies below the directory that is its first `at` characters. */
  ghost predicate Below(path: string, at: int) {
    if at == 0 then path != "" else 0 < at && at + 1 < |path| && path[at] == '/'
  }

  ghost function RelativeTo(path: string, at: int): string
    requires Below(path, at)
  {
    if at == 0 then path else path[at + 1..]
  }

  /** Rule `r` of file `f`, which stands in the directory of length `at`, matches the path as seen from there. */
  ghost predicate RuleMatches(files: seq<Scope>, path: string, at: int, f: int, r: int) {
    && Below(path, at) && 0 <= f < |files| && files[f].directory == path[..at] && 0 <= r < |files[f].rules|
    && files[f].rules[r].matches(RelativeTo(path, at))
  }

  /** It matches, and no matching rule stands deeper, in a later file of its directory, or further on in its file. */
  ghost predicate RuleDecides(files: seq<Scope>, path: string, at: int, f: int, r: int) {
    && RuleMatches(files, path, at, f, r)
    && forall at', f', r' | RuleMatches(files, path, at', f', r') ::
         at' < at || (at' == at && (f' < f || (f' == f && r' <= r)))
  }

  /** Some rule decides, and that is what it says of the path. */
  ghost predicate RuleSays(files: seq<Scope>, path: string, ignores: bool) {
    exists at, f, r :: RuleDecides(files, path, at, f, r) && files[f].rules[r].ignores == ignores
  }

  ghost predicate Says(files: seq<Scope>, path: string) {
    RuleSays(files, path, true)
  }

  /** The directories a path lies in, but the root. */
  ghost predicate LiesIn(path: string, at: int) {
    0 < at < |path| && path[at] == '/'
  }

  /** Ignored if some directory it lies in is, else by the last matching rule of the deepest file with one. */
  ghost predicate GitIgnores(files: seq<Scope>, path: string) {
    (exists at :: LiesIn(path, at) && Says(files, path[..at] + "/")) || Says(files, path)
  }

  // ---------- Sorting ----------

  ghost predicate SortedByDepth(scopes: seq<Scope>) {
    forall i, j | 0 <= i < j < |scopes| :: Depth(scopes[i].directory) <= Depth(scopes[j].directory)
  }

  lemma {:induction false} InsertSorts(scopes: seq<Scope>, scope: Scope)
    requires SortedByDepth(scopes)
    ensures SortedByDepth(Insert(scopes, scope))
    ensures forall s <- Insert(scopes, scope) :: s in scopes || s == scope
  {
    var n := |scopes|;
    if !(n == 0 || Depth(scopes[n - 1].directory) <= Depth(scope.directory)) {
      InsertSorts(scopes[..n - 1], scope);
      forall s <- Insert(scopes[..n - 1], scope) ensures Depth(s.directory) <= Depth(scopes[n - 1].directory) {
      }
    }
  }

  lemma OfSnoc(scopes: seq<Scope>, scope: Scope, directory: string)
    ensures Of(scopes + [scope], directory)
         == Of(scopes, directory) + if scope.directory == directory then [scope] else []
  {
    assert (scopes + [scope])[..|scopes|] == scopes;
  }

  /** A scope is inserted behind those of its own directory. */
  lemma {:induction false} InsertIsStable(scopes: seq<Scope>, scope: Scope, directory: string)
    ensures Of(Insert(scopes, scope), directory)
         == Of(scopes, directory) + if scope.directory == directory then [scope] else []
  {
    var n := |scopes|;
    if n == 0 || Depth(scopes[n - 1].directory) <= Depth(scope.directory) {
      OfSnoc(scopes, scope, directory);
    } else {
      var shorter, last := scopes[..n - 1], scopes[n - 1];
      assert scopes == shorter + [last];
      InsertIsStable(shorter, scope, directory);
      OfSnoc(shorter, last, directory);
      OfSnoc(Insert(shorter, scope), last, directory);
      assert scope.directory != last.directory;
    }
  }

  lemma {:induction false} SortSorts(files: seq<Scope>)
    ensures SortedByDepth(SortByDepth(files))
  {
    if files != [] {
      SortSorts(files[..|files| - 1]);
      InsertSorts(SortByDepth(files[..|files| - 1]), files[|files| - 1]);
    }
  }

  lemma {:induction false} SortIsStable(files: seq<Scope>, directory: string)
    ensures Of(SortByDepth(files), directory) == Of(files, directory)
  {
    if files != [] {
      SortIsStable(files[..|files| - 1], directory);
      InsertIsStable(SortByDepth(files[..|files| - 1]), files[|files| - 1], directory);
    }
  }

  // ---------- Deciding ----------

  lemma {:induction false} DecideAppend(a: seq<Scope>, b: seq<Scope>, path: string)
    ensures Decide(a + b, path) == if Decide(b, path).Some? then Decide(b, path) else Decide(a, path)
  {
    if b == [] {
      assert a + b == a;
    } else {
      assert (a + b)[..|a + b| - 1] == a + b[..|b| - 1];
      DecideAppend(a, b[..|b| - 1], path);
    }
  }

  lemma {:induction false} SlashesAppend(a: string, b: string)
    ensures Slashes(a + b) == Slashes(a) + Slashes(b)
  {
    if b == "" {
      assert a + b == a;
    } else {
      assert (a + b)[..|a + b| - 1] == a + b[..|b| - 1];
      SlashesAppend(a, b[..|b| - 1]);
    }
  }

  /** Of two directories a path lies in, the longer one is the deeper one. */
  lemma LongerIsDeeper(a: Scope, b: Scope, path: string)
    requires Applies(a, path) && Applies(b, path) && |a.directory| < |b.directory|
    ensures Depth(a.directory) < Depth(b.directory)
  {
    var n := |a.directory|;
    if n > 0 {
      assert path[..n + 1] == a.directory + "/" && path[..|b.directory|] == b.directory;
      assert b.directory[..n + 1] == a.directory + "/";
      assert b.directory == a.directory + "/" + b.directory[n + 1..];
      SlashesAppend(a.directory, "/");
      SlashesAppend(a.directory + "/", b.directory[n + 1..]);
      assert "/"[..0] == "" && Slashes("/") == 1;
    }
  }

  /** The scopes that apply and stand in a directory of length `most` at most. */
  ghost function UpTo(scopes: seq<Scope>, path: string, most: int): seq<Scope> {
    if scopes == [] then [] else
    var last := scopes[|scopes| - 1];
    UpTo(scopes[..|scopes| - 1], path, most)
    + if Applies(last, path) && |last.directory| <= most then [last] else []
  }

  /** The scopes that apply and stand in the directory of length `length`. */
  ghost function At(scopes: seq<Scope>, path: string, length: int): seq<Scope> {
    if scopes == [] then [] else
    var last := scopes[|scopes| - 1];
    At(scopes[..|scopes| - 1], path, length)
    + if Applies(last, path) && |last.directory| == length then [last] else []
  }

  lemma {:induction false} UpToKeepsWhatApplies(scopes: seq<Scope>, path: string)
    ensures Decide(UpTo(scopes, path, |path|), path) == Decide(scopes, path)
  {
    if scopes != [] {
      var last, shorter := scopes[|scopes| - 1], scopes[..|scopes| - 1];
      UpToKeepsWhatApplies(shorter, path);
      var upTo := UpTo(shorter, path, |path|);
      assert (upTo + [last])[..|upTo|] == upTo;
      if Applies(last, path) {
        assert UpTo(scopes, path, |path|) == upTo + [last];
      } else {
        assert UpTo(scopes, path, |path|) == upTo + [] == upTo;
      }
    }
  }

  /** Sorted by depth, the scopes that apply are sorted by the length of their directory. */
  lemma {:induction false} UpToSplits(scopes: seq<Scope>, path: string, most: int)
    requires SortedByDepth(scopes)
    ensures UpTo(scopes, path, most) == UpTo(scopes, path, most - 1) + At(scopes, path, most)
  {
    if scopes != [] {
      var last, shorter := scopes[|scopes| - 1], scopes[..|scopes| - 1];
      UpToSplits(shorter, path, most);
      var under, at := UpTo(shorter, path, most - 1), At(shorter, path, most);
      if Applies(last, path) && |last.directory| < most {
        NoneLonger(shorter, last, path, most);
        assert UpTo(scopes, path, most) == under + [last] && UpTo(scopes, path, most - 1) == under + [last];
        assert At(scopes, path, most) == [];
      } else if Applies(last, path) && |last.directory| == most {
        assert UpTo(scopes, path, most) == under + at + [last] && UpTo(scopes, path, most - 1) == under;
        assert At(scopes, path, most) == at + [last];
      } else {
        assert UpTo(scopes, path, most) == under + at && UpTo(scopes, path, most - 1) == under;
        assert At(scopes, path, most) == at;
      }
    }
  }

  lemma {:induction false} NoneLonger(scopes: seq<Scope>, last: Scope, path: string, length: int)
    requires forall s <- scopes :: Depth(s.directory) <= Depth(last.directory)
    requires Applies(last, path) && |last.directory| < length
    ensures At(scopes, path, length) == []
  {
    if scopes != [] {
      NoneLonger(scopes[..|scopes| - 1], last, path, length);
      var s := scopes[|scopes| - 1];
      assert s in scopes;
      if Applies(s, path) && |s.directory| == length {
        LongerIsDeeper(last, s, path);
      }
    }
  }

  /** The scopes that apply at one length all stand in the same directory. */
  lemma {:induction false} AtIsOneDirectory(scopes: seq<Scope>, path: string, length: nat)
    requires length <= |path|
    ensures 0 < length && length + 1 < |path| && path[length] == '/' ==>
        At(scopes, path, length) == Of(scopes, path[..length])
    ensures length == 0 && path != "" ==> At(scopes, path, length) == Of(scopes, "")
    ensures 0 < length && !(length + 1 < |path| && path[length] == '/') ==> At(scopes, path, length) == []
    ensures path == "" ==> At(scopes, path, length) == []
  {
    if scopes != [] {
      var s := scopes[|scopes| - 1];
      AtIsOneDirectory(scopes[..|scopes| - 1], path, length);
      if length > 0 {
        if Applies(s, path) && |s.directory| == length {
          assert path[length] == (s.directory + "/")[length];
          assert path[..length] == s.directory;
        }
        if length + 1 < |path| && path[length] == '/' && s.directory == path[..length] {
          assert path[..length + 1] == s.directory + "/";
        }
      }
    }
  }

  lemma {:induction false} UpToWalks(files: seq<Scope>, path: string, from: nat)
    requires from <= |path|
    ensures Decide(UpTo(SortByDepth(files), path, from), path) == WalkUp(files, path, from)
  {
    var sorted := SortByDepth(files);
    SortSorts(files);
    SortIsStable(files, path[..from]);
    UpToSplits(sorted, path, from);
    DecideAppend(UpTo(sorted, path, from - 1), At(sorted, path, from), path);
    AtIsOneDirectory(sorted, path, from);
    if from == 0 {
      NoneBelowZero(sorted, path);
      if path == "" {
        NothingAppliesToNothing(Of(files, ""));
      }
    } else {
      UpToWalks(files, path, from - 1);
    }
  }

  lemma {:induction false} NoneBelowZero(scopes: seq<Scope>, path: string)
    ensures UpTo(scopes, path, -1) == []
  {
    if scopes != [] {
      NoneBelowZero(scopes[..|scopes| - 1], path);
    }
  }

  lemma {:induction false} NothingAppliesToNothing(scopes: seq<Scope>)
    ensures Decide(scopes, "") == None
  {
    if scopes != [] {
      NothingAppliesToNothing(scopes[..|scopes| - 1]);
    }
  }

  /** The rules walked back from the last of the sorted files decide as the plain walk up does. */
  lemma DecideIsWalkUp(files: seq<Scope>, path: string)
    ensures Decide(SortByDepth(files), path) == WalkUp(files, path, |path|)
  {
    UpToWalks(files, path, |path|);
    UpToKeepsWhatApplies(SortByDepth(files), path);
  }

  // ---------- The rule that decides ----------

  ghost predicate LastMatching(rules: seq<Rule>, relative: string, k: int) {
    && 0 <= k < |rules| && rules[k].matches(relative)
    && forall later | k < later < |rules| :: !rules[later].matches(relative)
  }

  /** What a file says is what its last matching rule says. */
  lemma {:induction false} MatchInIs(rules: seq<Rule>, relative: string)
    ensures forall says :: MatchIn(rules, relative) == Some(says) <==>
              exists k :: LastMatching(rules, relative, k) && rules[k].ignores == says
    ensures MatchIn(rules, relative) == None <==> forall k | 0 <= k < |rules| :: !rules[k].matches(relative)
  {
    if rules != [] {
      var n, shorter := |rules| - 1, rules[..|rules| - 1];
      if rules[n].matches(relative) {
        assert LastMatching(rules, relative, n);
      } else {
        MatchInIs(shorter, relative);
        assert forall k | 0 <= k < n :: shorter[k] == rules[k];
        if k :| LastMatching(shorter, relative, k) {
          assert LastMatching(rules, relative, k);
        }
      }
    }
  }

  /** Of the matching rules in the directories of such lengths, the one that decides. */
  ghost predicate DecidesWithin(files: seq<Scope>, path: string, least: int, most: int, at: int, f: int, r: int) {
    && RuleMatches(files, path, at, f, r) && least <= at <= most
    && forall at', f', r' | RuleMatches(files, path, at', f', r') && least <= at' <= most ::
         at' < at || (at' == at && (f' < f || (f' == f && r' <= r)))
  }

  ghost predicate WithinSays(files: seq<Scope>, path: string, least: int, most: int, says: Option<bool>) {
    if says.None? then forall at, f, r | RuleMatches(files, path, at, f, r) :: !(least <= at <= most) else
    exists at, f, r :: DecidesWithin(files, path, least, most, at, f, r) && files[f].rules[r].ignores == says.value
  }

  /** Of the matching rules of that file, what the last says. */
  ghost predicate ThatFileSays(files: seq<Scope>, path: string, at: int, f: int, says: Option<bool>) {
    if says.None? then forall r :: !RuleMatches(files, path, at, f, r) else
    exists r ::
      && RuleMatches(files, path, at, f, r) && files[f].rules[r].ignores == says.value
      && forall r' | RuleMatches(files, path, at, f, r') :: r' <= r
  }

  lemma FileSays(files: seq<Scope>, path: string, at: int, f: int)
    requires Below(path, at) && 0 <= f < |files| && files[f].directory == path[..at]
    ensures ThatFileSays(files, path, at, f, DecideOne(files[f], path))
  {
    var rules, relative := files[f].rules, RelativeTo(path, at);
    assert Prefix(files[f].directory) == if at == 0 then "" else path[..at + 1];
    assert Applies(files[f], path) && path[|Prefix(files[f].directory)|..] == relative;
    MatchInIs(rules, relative);
    if r :| LastMatching(rules, relative, r) {
      assert RuleMatches(files, path, at, f, r);
    }
  }

  /** The files of one directory say what the last matching rule of the last of them with one says. */
  lemma {:induction false} DirectorySays(files: seq<Scope>, path: string, at: int)
    requires Below(path, at)
    ensures WithinSays(files, path, at, at, Decide(Of(files, path[..at]), path))
  {
    if files != [] {
      var n, shorter, last := |files| - 1, files[..|files| - 1], files[|files| - 1];
      var before := Of(shorter, path[..at]);
      DirectorySays(shorter, path, at);
      if last.directory == path[..at] {
        FileSays(files, path, at, n);
        assert (before + [last])[..|before|] == before;
        LastFileSays(files, path, at, DecideOne(last, path), Decide(before, path));
      } else {
        assert Of(files, path[..at]) == before;
        LastFileSays(files, path, at, None, Decide(before, path));
      }
    }
  }

  /** What the last file says, if anything, else what those before it say. */
  lemma LastFileSays(files: seq<Scope>, path: string, at: int, last: Option<bool>, before: Option<bool>)
    requires files != [] && WithinSays(files[..|files| - 1], path, at, at, before)
    requires ThatFileSays(files, path, at, |files| - 1, last)
    ensures WithinSays(files, path, at, at, if last.Some? then last else before)
  {
    var n, shorter := |files| - 1, files[..|files| - 1];
    assert forall at', f, r | f < n :: RuleMatches(files, path, at', f, r) <==> RuleMatches(shorter, path, at', f, r);
    if last.Some? {
      var r :| RuleMatches(files, path, at, n, r) && files[n].rules[r].ignores == last.value
        && forall r' | RuleMatches(files, path, at, n, r') :: r' <= r;
      assert DecidesWithin(files, path, at, at, at, n, r);
    } else if before.Some? {
      var f, r :| DecidesWithin(shorter, path, at, at, at, f, r) && shorter[f].rules[r].ignores == before.value;
      assert DecidesWithin(files, path, at, at, at, f, r);
    }
  }

  lemma DeeperSays(files: seq<Scope>, path: string, most: int, here: Option<bool>, above: Option<bool>)
    requires WithinSays(files, path, most, most, here) && WithinSays(files, path, 0, most - 1, above)
    ensures WithinSays(files, path, 0, most, if here.Some? then here else above)
  {
    if here.Some? {
      var at, f, r :| DecidesWithin(files, path, most, most, at, f, r) && files[f].rules[r].ignores == here.value;
      assert DecidesWithin(files, path, 0, most, at, f, r);
    } else if above.Some? {
      var at, f, r :| DecidesWithin(files, path, 0, most - 1, at, f, r) && files[f].rules[r].ignores == above.value;
      assert DecidesWithin(files, path, 0, most, at, f, r);
    }
  }

  lemma {:induction false} WalkUpSays(files: seq<Scope>, path: string, from: nat)
    requires from <= |path|
    ensures WithinSays(files, path, 0, from, WalkUp(files, path, from))
  {
    if Below(path, from) {
      DirectorySays(files, path, from);
    }
    if from > 0 {
      WalkUpSays(files, path, from - 1);
      var here := if Below(path, from) then Decide(Of(files, path[..from]), path) else None;
      DeeperSays(files, path, from, here, WalkUp(files, path, from - 1));
    } else if path == "" {
      NothingAppliesToNothing(Of(files, ""));
    } else {
      assert path[..0] == "";
    }
  }

  lemma DecidesOnce(files: seq<Scope>, path: string)
    ensures !(RuleSays(files, path, true) && RuleSays(files, path, false))
    ensures RuleSays(files, path, true) || RuleSays(files, path, false) ==>
              exists at, f, r :: RuleMatches(files, path, at, f, r)
  {
  }

  /** The backward walk over the sorted files answers what the rule that decides says, or nothing when none matches. */
  lemma DecideIsRule(files: seq<Scope>, path: string)
    ensures forall says :: Decide(SortByDepth(files), path) == Some(says) <==> RuleSays(files, path, says)
    ensures Decide(SortByDepth(files), path) == None <==> forall at, f, r :: !RuleMatches(files, path, at, f, r)
  {
    DecideIsWalkUp(files, path);
    WalkUpSays(files, path, |path|);
    DecidesOnce(files, path);
    var answer := WalkUp(files, path, |path|);
    if answer.Some? {
      var at, f, r :| DecidesWithin(files, path, 0, |path|, at, f, r) && files[f].rules[r].ignores == answer.value;
      assert RuleDecides(files, path, at, f, r);
    }
  }

  /** The directories decided on the way up are those the path lies in. */
  lemma {:induction false} AncestorsAreIgnored(files: seq<Scope>, path: string)
    ensures IgnoredDirectory(SortByDepth(files), ParentDirectory(path))
            <==> exists at :: LiesIn(path, at) && Says(files, path[..at] + "/")
    decreases |path|
  {
    var slash, directory := LastSlash(path), ParentDirectory(path);
    if directory != "" {
      AncestorsAreIgnored(files, directory);
      DecideIsRule(files, directory + "/");
      assert LiesIn(path, slash);
      forall at | LiesIn(directory, at) ensures LiesIn(path, at) && path[..at] == directory[..at] {
      }
      forall at | LiesIn(path, at) && at != slash ensures LiesIn(directory, at) && path[..at] == directory[..at] {
      }
    }
  }

  /** The matcher is the plain specification, for every path. */
  lemma MatcherIsPlain(files: seq<Scope>, path: string)
    ensures Ignored(SortByDepth(files), path) <==> GitIgnores(files, path)
  {
    AncestorsAreIgnored(files, path);
    DecideIsRule(files, path);
  }

  /** A directory is ignored as the path with a slash behind it is. */
  lemma DirectoryIsWithin(files: seq<Scope>, directory: string)
    requires directory != "" && IgnoredDirectory(SortByDepth(files), directory)
    ensures GitIgnores(files, directory + "/")
  {
    var within := directory + "/";
    assert LastSlash(within) == |directory|;
    assert ParentDirectory(within) == directory;
    AncestorsAreIgnored(files, within);
  }

  lemma LiesBelow(directory: string, rest: string, at: int)
    requires LiesIn(directory + "/", at)
    ensures LiesIn(directory + "/" + rest, at) && (directory + "/" + rest)[..at] == (directory + "/")[..at]
  {
    assert (directory + "/" + rest)[..|directory| + 1] == directory + "/";
  }

  lemma BelowIsIgnored(files: seq<Scope>, directory: string, rest: string)
    requires directory != "" && rest != "" && GitIgnores(files, directory + "/")
    ensures GitIgnores(files, directory + "/" + rest)
  {
    var within, path := directory + "/", directory + "/" + rest;
    if at :| LiesIn(within, at) && Says(files, within[..at] + "/") {
      LiesBelow(directory, rest, at);
    } else {
      assert path[|directory|] == '/' && path[..|directory|] == directory;
      assert LiesIn(path, |directory|);
    }
  }

  /** Once a directory is ignored, so is every path below it, whatever rules match that path. */
  lemma NothingBelowIsReincluded(files: seq<Scope>, directory: string, rest: string)
    requires directory != ""
    requires GitIgnores(files, directory + "/") || IgnoredDirectory(SortByDepth(files), directory)
    ensures GitIgnores(files, directory + "/" + rest)
    ensures Ignored(SortByDepth(files), directory + "/" + rest)
  {
    if IgnoredDirectory(SortByDepth(files), directory) {
      DirectoryIsWithin(files, directory);
    }
    if rest == "" {
      assert directory + "/" + rest == directory + "/";
    } else {
      BelowIsIgnored(files, directory, rest);
    }
    MatcherIsPlain(files, directory + "/" + rest);
  }

  /** Both lists' files of that directory decide alike. */
  ghost predicate SameAt(files: seq<Scope>, files': seq<Scope>, directory: string) {
    forall path :: Decide(Of(files, directory), path) == Decide(Of(files', directory), path)
  }

  lemma {:induction false} WalkUpReads(files: seq<Scope>, files': seq<Scope>, path: string, from: nat)
    requires from <= |path|
    requires SameAt(files, files', "")
    requires forall at | LiesIn(path, at) && at <= from && at + 1 < |path| :: SameAt(files, files', path[..at])
    ensures WalkUp(files, path, from) == WalkUp(files', path, from)
  {
    if from > 0 {
      assert LiesIn(path, from) && from + 1 < |path| ==> SameAt(files, files', path[..from]);
      WalkUpReads(files, files', path, from - 1);
    }
  }

  /** The files of each directory this path lies in decide alike. */
  ghost predicate SameAbove(files: seq<Scope>, files': seq<Scope>, path: string) {
    && SameAt(files, files', "")
    && forall at | LiesIn(path, at) && at + 1 < |path| :: SameAt(files, files', path[..at])
  }

  lemma SameAboveDecides(files: seq<Scope>, files': seq<Scope>, path: string)
    requires SameAbove(files, files', path)
    ensures LastDecision(SortByDepth(files), path) == LastDecision(SortByDepth(files'), path)
  {
    DecideIsWalkUp(files, path);
    DecideIsWalkUp(files', path);
    WalkUpReads(files, files', path, |path|);
  }

  lemma ShorterIsAbove(files: seq<Scope>, files': seq<Scope>, directory: string)
    requires directory != "" && forall d | |d| < |directory| :: SameAt(files, files', d)
    ensures SameAbove(files, files', directory + "/")
  {
    assert |""| < |directory|;
    var path := directory + "/";
    forall at | LiesIn(path, at) && at + 1 < |path| ensures SameAt(files, files', path[..at]) {
      assert |path[..at]| < |directory|;
    }
  }

  /**
   * Whether a directory is ignored is up to the rules of shorter ones: its own file, and those below it, never
   * decide.
   */
  lemma {:induction false} OwnFileNeverDecides(files: seq<Scope>, files': seq<Scope>, directory: string)
    requires forall d | |d| < |directory| :: SameAt(files, files', d)
    ensures IgnoredDirectory(SortByDepth(files), directory) == IgnoredDirectory(SortByDepth(files'), directory)
    decreases |directory|
  {
    if directory != "" {
      OwnFileNeverDecides(files, files', ParentDirectory(directory));
      ShorterIsAbove(files, files', directory);
      SameAboveDecides(files, files', directory + "/");
    }
  }

  /** The answer depends only on what each directory's own files decide, not on how they are listed together. */
  lemma OrderAcrossDirectoriesIsFree(files: seq<Scope>, files': seq<Scope>, path: string)
    requires forall d :: SameAt(files, files', d)
    ensures Ignored(SortByDepth(files), path) == Ignored(SortByDepth(files'), path)
  {
    MatcherIsPlain(files, path);
    MatcherIsPlain(files', path);
    if GitIgnores(files, path) {
      GitIgnoresReads(files, files', path);
    }
    if GitIgnores(files', path) {
      assert forall d | SameAt(files, files', d) :: SameAt(files', files, d);
      GitIgnoresReads(files', files, path);
    }
  }

  lemma SaysReads(files: seq<Scope>, files': seq<Scope>, path: string)
    requires forall d :: SameAt(files, files', d)
    ensures Says(files, path) == Says(files', path)
  {
    WalkUpReads(files, files', path, |path|);
    DecideIsWalkUp(files, path);
    DecideIsWalkUp(files', path);
    DecideIsRule(files, path);
    DecideIsRule(files', path);
  }

  lemma GitIgnoresReads(files: seq<Scope>, files': seq<Scope>, path: string)
    requires forall d :: SameAt(files, files', d)
    requires GitIgnores(files, path)
    ensures GitIgnores(files', path)
  {
    SaysReads(files, files', path);
    if at :| LiesIn(path, at) && Says(files, path[..at] + "/") {
      SaysReads(files, files', path[..at] + "/");
    }
  }

  ghost predicate DistinctDirectories(files: seq<Scope>) {
    forall i, j | 0 <= i < j < |files| :: files[i].directory != files[j].directory
  }

  lemma {:induction false} OfDistinct(files: seq<Scope>, directory: string)
    requires DistinctDirectories(files)
    ensures forall s <- files :: s.directory == directory ==> Of(files, directory) == [s]
    ensures (forall s <- files :: s.directory != directory) ==> Of(files, directory) == []
  {
    if files != [] {
      var last, shorter := files[|files| - 1], files[..|files| - 1];
      OfDistinct(shorter, directory);
      forall s <- files | s.directory == directory ensures Of(files, directory) == [s] {
        if last.directory == directory {
          forall k | 0 <= k < |shorter| ensures shorter[k].directory != directory {
            assert files[k].directory != files[|files| - 1].directory;
          }
        }
      }
      assert last in files;
      assert forall s <- shorter :: s in files;
    }
  }

  /** With one file a directory, the order they are given in does not matter at all. */
  lemma OrderOfFilesIsFree(files: seq<Scope>, files': seq<Scope>, path: string)
    requires DistinctDirectories(files) && DistinctDirectories(files')
    requires forall s :: s in files <==> s in files'
    ensures Ignored(SortByDepth(files), path) == Ignored(SortByDepth(files'), path)
  {
    forall d ensures SameAt(files, files', d) {
      OfDistinct(files, d);
      OfDistinct(files', d);
      if s :| s in files && s.directory == d {
        assert s in files';
      }
    }
    OrderAcrossDirectoriesIsFree(files, files', path);
  }
}
