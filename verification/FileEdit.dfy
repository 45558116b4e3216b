/** Replacing text in a file (cloudchef-agent/file-edit.ts, `replaceText` and `countOccurrences`). */
module FileEdit {
  import opened Wrappers
  import opened Text

  predicate OccursAt(text: string, search: string, at: nat) {
    at + |search| <= |text| && text[at..at + |search|] == search
  }

  /** Where the text next occurs, or the end. */
  function IndexOf(text: string, search: string, from: nat): (at: nat)
    requires from <= |text| && search != ""
    ensures from <= at <= |text| && (at < |text| ==> at + |search| <= |text|)
    decreases |text| - from
  {
    if from == |text| || OccursAt(text, search, from) then from else IndexOf(text, search, from + 1)
  }

  /** The library split: at each occurrence after the last one. */
  function Split(text: string, search: string, from: nat): seq<string>
    requires from <= |text| && search != ""
    decreases |text| - from
  {
    var at := IndexOf(text, search, from);
    if at == |text| then [text[from..]] else [text[from..at]] + Split(text, search, at + |search|)
  }

  function ReplaceFirst(text: string, search: string, replacement: string): string
    requires search != ""
  {
    var at := IndexOf(text, search, 0);
    if at == |text| then text else text[..at] + replacement + text[at + |search|..]
  }

  function ReplaceEach(text: string, search: string, replacement: string): string
    requires search != ""
  {
    Join(Split(text, search, 0), replacement)
  }

  /** Each break, LF or CRLF, as CRLF. */
  function ToCrlf(text: string): string
    decreases |text|
  {
    if text == "" then ""
    else if |text| > 1 && text[0] == CR && text[1] == LF then [CR, LF] + ToCrlf(text[2..])
    else if text[0] == LF then [CR, LF] + ToCrlf(text[1..])
    else [text[0]] + ToCrlf(text[1..])
  }

  predicate HasCrlf(text: string) {
    IndexOf(text, [CR, LF], 0) < |text|
  }

  datatype EditError = NotFound | Ambiguous(count: nat)

  datatype Replaced = Replaced(content: string, replacements: nat)

  function Occurrences(text: string, search: string): nat
    requires search != ""
  {
    |Split(text, search, 0)| - 1
  }

  /** Matched as it stands, or else, in a file with CRLF, with the file's own breaks. */
  predicate Fallback(content: string, search: string)
    requires search != ""
  {
    Occurrences(content, search) == 0 && HasCrlf(content)
  }

  lemma ToCrlfGrows(text: string)
    ensures |ToCrlf(text)| >= |text|
    decreases |text|
  {
  }

  /** What is looked for: never empty. */
  function Search(content: string, oldString: string): (search: string)
    requires oldString != ""
    ensures search != ""
  {
    ToCrlfGrows(oldString);
    if Fallback(content, oldString) then ToCrlf(oldString) else oldString
  }

  function Replacement(content: string, oldString: string, newString: string): string
    requires oldString != ""
  {
    if Fallback(content, oldString) then ToCrlf(newString) else newString
  }

  function Replace(content: string, oldString: string, newString: string, replaceAll: bool): Result<Replaced, EditError>
    requires oldString != ""
  {
    var search, replacement := Search(content, oldString), Replacement(content, oldString, newString);
    var count := Occurrences(content, search);
    if count == 0 then Failure(NotFound)
    else if count > 1 && !replaceAll then Failure(Ambiguous(count))
    else if replaceAll then Success(Replaced(ReplaceEach(content, search, replacement), count))
    else Success(Replaced(ReplaceFirst(content, search, replacement), 1))
  }

  lemma SplitNext(text: string, search: string, from: nat, at: nat, next: nat)
    requires search != "" && from <= at < |text| && IndexOf(text, search, from) == at && next == at + |search|
    ensures Split(text, search, from) == [text[from..at]] + Split(text, search, next)
    ensures Split(text, search, next) != []
  {
  }

  /** Where the next occurrence is, looked for behind that one. */
  ghost predicate IsNext(text: string, search: string, at: nat, next: nat)
    requires search != ""
  {
    at < |text| && at + |search| <= |text| && next == IndexOf(text, search, at + |search|)
  }

  /** Where each occurrence is that is looked for behind the last, and the end. */
  ghost predicate Places(text: string, search: string, from: nat, places: seq<nat>)
    requires from <= |text| && search != ""
  {
    && places != [] && places[0] == IndexOf(text, search, from) && places[|places| - 1] == |text|
    && forall k, l | 0 <= k < l < |places| && l == k + 1 :: IsNext(text, search, places[k], places[l])
  }

  lemma PlacesOn(text: string, search: string, from: nat, at: nat, next: nat, rest: seq<nat>)
    requires search != "" && from <= at < |text| && IndexOf(text, search, from) == at && next == at + |search|
    requires Places(text, search, next, rest)
    ensures Places(text, search, from, [at] + rest)
  {
  }

  lemma {:induction false} SplitPlaces(text: string, search: string, from: nat) returns (places: seq<nat>)
    requires from <= |text| && search != ""
    ensures Places(text, search, from, places) && |places| == |Split(text, search, from)|
    decreases |text| - from
  {
    var at := IndexOf(text, search, from);
    if at < |text| {
      var next := at + |search|;
      SplitNext(text, search, from, at, next);
      places := SplitPlaces(text, search, next);
      PlacesOn(text, search, from, at, next, places);
      places := [at] + places;
    } else {
      SplitEnd(text, search, from);
      places := [at];
    }
  }

  method CountOccurrences(haystack: string, needle: string) returns (count: nat)
    requires needle != ""
    ensures count == Occurrences(haystack, needle)
  {
    count := 0;
    ghost var places := SplitPlaces(haystack, needle, 0);
    var index := IndexOf(haystack, needle, 0);
    while index < |haystack|
      invariant count < |places| && index == places[count] <= |haystack|
      decreases |haystack| - index
    {
      assert IsNext(haystack, needle, places[count], places[count + 1]);
      count := count + 1;
      index := IndexOf(haystack, needle, index + |needle|);
    }
    assert count + 1 < |places| ==> IsNext(haystack, needle, places[count], places[count + 1]);
  }

  method ReplaceText(content: string, oldString: string, newString: string, replaceAll: bool)
    returns (result: Result<Replaced, EditError>)
    requires oldString != ""
    ensures result == Replace(content, oldString, newString, replaceAll)
  {
    var search, replacement := oldString, newString;
    var count := CountOccurrences(content, search);
    if count == 0 && HasCrlf(content) {
      ToCrlfGrows(oldString);
      search := ToCrlf(oldString);
      replacement := ToCrlf(newString);
      count := CountOccurrences(content, search);
    }
    if count == 0 {
      return Failure(NotFound);
    }
    if count > 1 && !replaceAll {
      return Failure(Ambiguous(count));
    }
    return Success(Replaced(
      if replaceAll then ReplaceEach(content, search, replacement) else ReplaceFirst(content, search, replacement),
      if replaceAll then count else 1));
  }

  // ---------- Splitting ----------

  lemma {:induction false} IndexOfOccurs(text: string, search: string, from: nat)
    requires from <= |text| && search != ""
    ensures IndexOf(text, search, from) < |text| ==> OccursAt(text, search, IndexOf(text, search, from))
    decreases |text| - from
  {
    if from < |text| && !OccursAt(text, search, from) {
      IndexOfOccurs(text, search, from + 1);
    }
  }

  lemma AtOccurrence(text: string, search: string, from: nat, at: nat, next: nat, replacement: string)
    requires search != "" && from <= at < |text| && at == IndexOf(text, search, from) && next == at + |search|
    ensures text[from..] == text[from..at] + search + text[next..]
    ensures Join(Split(text, search, from), replacement)
         == text[from..at] + replacement + Join(Split(text, search, next), replacement)
  {
    AtText(text, search, from, at, next);
    AtJoin(text, search, from, at, next, replacement);
  }

  lemma AtText(text: string, search: string, from: nat, at: nat, next: nat)
    requires search != "" && from <= at < |text| && at == IndexOf(text, search, from) && next == at + |search|
    ensures text[from..] == text[from..at] + search + text[next..]
  {
    IndexOfOccurs(text, search, from);
    assert text[at..next] == search;
    Cut(text, from, at, next);
  }

  lemma AtJoin(text: string, search: string, from: nat, at: nat, next: nat, replacement: string)
    requires search != "" && from <= at < |text| && at == IndexOf(text, search, from) && next == at + |search|
    ensures Join(Split(text, search, from), replacement)
         == text[from..at] + replacement + Join(Split(text, search, next), replacement)
  {
    var rest := Split(text, search, next);
    SplitNext(text, search, from, at, next);
    JoinCons(text[from..at], rest, replacement);
  }

  lemma Cut(text: string, from: nat, at: nat, next: nat)
    requires from <= at <= next <= |text|
    ensures text[from..] == text[from..at] + text[at..next] + text[next..]
  {
  }

  /** The pieces put together again with what was looked for are the text. */
  lemma {:induction false} SplitJoins(text: string, search: string, from: nat)
    requires from <= |text| && search != ""
    ensures Join(Split(text, search, from), search) == text[from..]
    decreases |text| - from
  {
    var at := IndexOf(text, search, from);
    if at < |text| {
      var next := at + |search|;
      AtOccurrence(text, search, from, at, next, search);
      SplitJoins(text, search, next);
    }
  }

  /** Nowhere in the text. */
  ghost predicate Absent(text: string, search: string) {
    forall at: nat :: !OccursAt(text, search, at)
  }

  lemma {:induction false} NoneBefore(text: string, search: string, from: nat, k: nat)
    requires search != "" && from <= |text| && from <= k < IndexOf(text, search, from)
    ensures !OccursAt(text, search, k)
    decreases k - from
  {
    if from < k {
      NoneBefore(text, search, from + 1, k);
    }
  }

  lemma PieceIsClean(text: string, search: string, from: nat, at: nat)
    requires search != "" && from <= |text| && at == IndexOf(text, search, from)
    ensures Absent(text[from..at], search)
  {
    var piece := text[from..at];
    forall k: nat ensures !OccursAt(piece, search, k) {
      if k + |search| <= |piece| {
        OccursWithin(text, search, from, at, k);
        NoneBefore(text, search, from, from + k);
      }
    }
  }

  ghost predicate AllAbsent(pieces: seq<string>, search: string) {
    forall piece <- pieces :: Absent(piece, search)
  }

  lemma AllAbsentCons(piece: string, rest: seq<string>, search: string)
    requires Absent(piece, search) && AllAbsent(rest, search)
    ensures AllAbsent([piece] + rest, search)
  {
  }

  /** No piece holds what was looked for. */
  lemma {:induction false} PiecesAreClean(text: string, search: string, from: nat)
    requires from <= |text| && search != ""
    ensures AllAbsent(Split(text, search, from), search)
    decreases |text| - from
  {
    var at := IndexOf(text, search, from);
    PieceIsClean(text, search, from, at);
    if at < |text| {
      var next := at + |search|;
      SplitNext(text, search, from, at, next);
      PiecesAreClean(text, search, next);
      AllAbsentCons(text[from..at], Split(text, search, next), search);
    } else {
      SplitEnd(text, search, from);
      AllAbsentCons(text[from..], [], search);
    }
  }

  lemma SplitEnd(text: string, search: string, from: nat)
    requires search != "" && from <= |text| && IndexOf(text, search, from) == |text|
    ensures Split(text, search, from) == [text[from..]] + [] && text[from..] == text[from..|text|]
  {
  }

  /** The piece runs up to the first occurrence. */
  ghost predicate RunsUpTo(piece: string, search: string) {
    forall at: nat :: OccursAt(piece + search, search, at) ==> at == |piece|
  }

  /** Each piece but the last runs up to an occurrence, and the last holds none. */
  ghost predicate LeftmostSplit(pieces: seq<string>, search: string) {
    && pieces != []
    && if |pieces| == 1 then Absent(pieces[0], search)
        else RunsUpTo(pieces[0], search) && LeftmostSplit(pieces[1..], search)
  }

  lemma LeftmostCons(piece: string, rest: seq<string>, search: string)
    requires rest != []
    ensures LeftmostSplit([piece] + rest, search) <==> RunsUpTo(piece, search) && LeftmostSplit(rest, search)
  {
    assert ([piece] + rest)[1..] == rest;
  }

  lemma SliceOfSlice(text: string, start: nat, end: nat, i: nat, j: nat)
    requires start <= end <= |text| && i <= j <= end - start
    ensures text[start..end][i..j] == text[start + i..start + j]
  {
    var a, b := text[start..end][i..j], text[start + i..start + j];
    assert |a| == |b|;
    assert forall k | 0 <= k < |a| :: a[k] == b[k];
  }

  /** An occurrence in what lies between, as it stands in the text. */
  lemma OccursWithin(text: string, search: string, start: nat, end: nat, k: nat)
    requires start <= end <= |text|
    ensures OccursAt(text[start..end], search, k) ==> OccursAt(text, search, start + k)
    ensures k + |search| <= end - start && OccursAt(text, search, start + k) ==> OccursAt(text[start..end], search, k)
  {
    if k + |search| <= end - start {
      SliceOfSlice(text, start, end, k, k + |search|);
    }
  }

  lemma OccursOnlyThere(text: string, search: string, from: nat, at: nat, next: nat, k: nat)
    requires search != "" && from <= at < |text| && at == IndexOf(text, search, from) && next == at + |search|
    requires OccursAt(text[from..next], search, k)
    ensures k == at - from
  {
    OccursWithin(text, search, from, next, k);
    if k < at - from {
      NoneBefore(text, search, from, from + k);
    }
  }

  lemma PieceAndSearch(text: string, search: string, from: nat, at: nat, next: nat)
    requires search != "" && from <= at < |text| && at == IndexOf(text, search, from) && next == at + |search|
    ensures text[from..at] + search == text[from..next]
  {
    IndexOfOccurs(text, search, from);
    assert text[at..next] == search;
    assert text[from..at] + text[at..next] == text[from..next];
  }

  lemma PieceRunsUpTo(text: string, search: string, from: nat, at: nat, next: nat)
    requires search != "" && from <= at < |text| && at == IndexOf(text, search, from) && next == at + |search|
    ensures RunsUpTo(text[from..at], search)
  {
    PieceAndSearch(text, search, from, at, next);
    forall k: nat | OccursAt(text[from..next], search, k) ensures k == at - from {
      OccursOnlyThere(text, search, from, at, next, k);
    }
  }

  lemma {:induction false} SplitIsLeftmost(text: string, search: string, from: nat)
    requires from <= |text| && search != ""
    ensures LeftmostSplit(Split(text, search, from), search)
    decreases |text| - from
  {
    var at := IndexOf(text, search, from);
    if at < |text| {
      var next := at + |search|;
      SplitNext(text, search, from, at, next);
      PieceRunsUpTo(text, search, from, at, next);
      SplitIsLeftmost(text, search, next);
      LeftmostCons(text[from..at], Split(text, search, next), search);
    } else {
      PiecesAreClean(text, search, from);
      assert text[from..] in Split(text, search, from);
    }
  }

  /** The first occurrence is where a piece that runs up to one ends. */
  lemma {:induction false} FirstOccurrence(text: string, search: string, from: nat, at: nat, piece: string, start: nat)
    requires search != "" && start <= from <= at < |text| && at + |search| <= |text|
    requires text[start..at] == piece && text[at..at + |search|] == search && RunsUpTo(piece, search)
    ensures IndexOf(text, search, from) == at
    decreases at - from
  {
    if from < at {
      assert piece + search == text[start..at + |search|];
      OccursWithin(text, search, start, at + |search|, from - start);
      FirstOccurrence(text, search, from + 1, at, piece, start);
    }
  }

  lemma {:induction false} NoOccurrence(text: string, search: string, start: nat, from: nat)
    requires search != "" && start <= from <= |text| && Absent(text[start..], search)
    ensures IndexOf(text, search, from) == |text|
    decreases |text| - from
  {
    if from < |text| {
      assert text[start..] == text[start..|text|];
      OccursWithin(text, search, start, |text|, from - start);
      NoOccurrence(text, search, start, from + 1);
    }
  }

  lemma FrontPiece(text: string, search: string, from: nat, piece: string, rest: string, at: nat, next: nat)
    requires search != "" && from <= |text| && text[from..] == piece + search + rest && RunsUpTo(piece, search)
    requires at == from + |piece| && next == at + |search|
    ensures next <= |text| && text[from..at] == piece && text[next..] == rest && IndexOf(text, search, from) == at
  {
    assert text[from..][..|piece|] == piece && text[from..][|piece|..|piece| + |search|] == search;
    assert text[from..][|piece| + |search|..] == rest;
    FirstOccurrence(text, search, from, at, piece, from);
  }

  /** There is one way to split at each occurrence after the last. */
  lemma {:induction false} SplitIsUnique(text: string, search: string, from: nat, pieces: seq<string>)
    requires from <= |text| && search != "" && LeftmostSplit(pieces, search) && Join(pieces, search) == text[from..]
    ensures pieces == Split(text, search, from)
    decreases |pieces|
  {
    var piece, rest := pieces[0], pieces[1..];
    assert pieces == [piece] + rest;
    if rest == [] {
      NoOccurrence(text, search, from, from);
    } else {
      LeftmostCons(piece, rest, search);
      JoinCons(piece, rest, search);
      var at := from + |piece|;
      var next := at + |search|;
      FrontPiece(text, search, from, piece, Join(rest, search), at, next);
      SplitNext(text, search, from, at, next);
      SplitIsUnique(text, search, next, rest);
    }
  }

  /** The pieces around the occurrences, taken from the left and never overlapping. */
  lemma SplitExactly(text: string, search: string, pieces: seq<string>)
    requires search != ""
    ensures pieces == Split(text, search, 0) <==> LeftmostSplit(pieces, search) && Join(pieces, search) == text
  {
    assert text[0..] == text;
    SplitJoins(text, search, 0);
    SplitIsLeftmost(text, search, 0);
    if LeftmostSplit(pieces, search) && Join(pieces, search) == text {
      SplitIsUnique(text, search, 0, pieces);
    }
  }

  /** Each occurrence counted changes the length by the difference. */
  lemma {:induction false} ReplacedLength(text: string, search: string, replacement: string, from: nat)
    requires from <= |text| && search != ""
    ensures |Join(Split(text, search, from), replacement)|
         == |text| - from + (|Split(text, search, from)| - 1) * (|replacement| - |search|)
    decreases |text| - from
  {
    var at := IndexOf(text, search, from);
    if at < |text| {
      var next := at + |search|;
      SplitNext(text, search, from, at, next);
      ReplacedLength(text, search, replacement, next);
      JoinCons(text[from..at], Split(text, search, next), replacement);
      var pieces, difference := |Split(text, search, next)|, |replacement| - |search|;
      OneMoreDifference(pieces - 1, difference);
      assert |Join(Split(text, search, from), replacement)|
          == at - from + |replacement| + |text| - next + (pieces - 1) * difference;
    }
  }

  lemma OneMoreDifference(count: int, difference: int)
    ensures (count + 1) * difference == count * difference + difference
  {
  }

  /** With one occurrence, replacing each and replacing the first are the same. */
  lemma OneIsEach(text: string, search: string, replacement: string)
    requires search != "" && Occurrences(text, search) == 1
    ensures ReplaceEach(text, search, replacement) == ReplaceFirst(text, search, replacement)
  {
    var at := IndexOf(text, search, 0);
    assert at < |text|;
    var next := at + |search|;
    SplitNext(text, search, 0, at, next);
    assert |Split(text, search, next)| == 1;
    assert Split(text, search, next) == [text[next..]];
    JoinCons(text[0..at], Split(text, search, next), replacement);
  }

  lemma OccurrencesAre(text: string, search: string)
    requires search != ""
    ensures Occurrences(text, search) == 0 <==> Absent(text, search)
    ensures IndexOf(text, search, 0) == |text| <==> Absent(text, search)
  {
    IndexOfOccurs(text, search, 0);
    if IndexOf(text, search, 0) == |text| {
      assert text[0..] == text && text[0..|text|] == text;
      PieceIsClean(text, search, 0, |text|);
    } else {
      SplitNext(text, search, 0, IndexOf(text, search, 0), IndexOf(text, search, 0) + |search|);
    }
  }

  /**
   * What is looked for is the text as it stands if the file holds it, or has no CRLF break; else, and only then, the
   * text with CRLF breaks, and the replacement goes the same way.
   */
  lemma SearchIs(content: string, oldString: string, newString: string)
    requires oldString != ""
    ensures var crlf := Absent(content, oldString) && !Absent(content, [CR, LF]);
            && Fallback(content, oldString) == crlf
            && Search(content, oldString) == (if crlf then ToCrlf(oldString) else oldString)
            && Replacement(content, oldString, newString) == if crlf then ToCrlf(newString) else newString
  {
    OccurrencesAre(content, oldString);
    OccurrencesAre(content, [CR, LF]);
  }

  lemma PiecesAre(content: string, search: string, replacement: string)
    requires search != ""
    ensures var pieces := Split(content, search, 0);
            && AllAbsent(pieces, search) && content == Join(pieces, search)
            && |Join(pieces, replacement)| == |content| + (|pieces| - 1) * (|replacement| - |search|)
  {
    SplitJoins(content, search, 0);
    assert content[0..] == content;
    PiecesAreClean(content, search, 0);
    ReplacedLength(content, search, replacement, 0);
  }

  /** The pieces around each occurrence, joined with the replacement, as many as it says and with the length it has. */
  ghost predicate Replaces(content: string, search: string, replacement: string, edit: Replaced)
    requires search != ""
  {
    var pieces := Split(content, search, 0);
    && edit.replacements == |pieces| - 1 > 0 && AllAbsent(pieces, search)
    && content == Join(pieces, search) && edit.content == Join(pieces, replacement)
    && |edit.content| == |content| + edit.replacements * (|replacement| - |search|)
  }

  lemma EachIsReplaced(content: string, search: string, replacement: string)
    requires search != "" && Occurrences(content, search) > 0
    ensures Replaces(content, search, replacement,
                     Replaced(ReplaceEach(content, search, replacement), Occurrences(content, search)))
    ensures Occurrences(content, search) == 1 ==>
              Replaces(content, search, replacement, Replaced(ReplaceFirst(content, search, replacement), 1))
  {
    PiecesAre(content, search, replacement);
    if Occurrences(content, search) == 1 {
      OneIsEach(content, search, replacement);
    }
  }

  /** An edit that succeeds replaced as many occurrences as it says, each of them or the only one. */
  lemma EditReplacesEach(content: string, oldString: string, newString: string, replaceAll: bool)
    requires oldString != ""
    ensures var crlf := Absent(content, oldString) && !Absent(content, [CR, LF]);
            var search, replacement :=
              if crlf then ToCrlf(oldString) else oldString, if crlf then ToCrlf(newString) else newString;
            search != "" &&
            match Replace(content, oldString, newString, replaceAll)
            case Failure(NotFound) => Absent(content, search)
            case Failure(Ambiguous(count)) => !replaceAll && count == |Split(content, search, 0)| - 1 > 1
            case Success(edit) =>
              Replaces(content, search, replacement, edit) && (edit.replacements == 1 || replaceAll)
  {
    SearchIs(content, oldString, newString);
    var search, replacement := Search(content, oldString), Replacement(content, oldString, newString);
    if Occurrences(content, search) == 0 {
      OccurrencesAre(content, search);
    } else {
      EachIsReplaced(content, search, replacement);
    }
  }

  // ---------- Breaks ----------

  /** Each CRLF as LF. */
  function ToLf(text: string): string
    decreases |text|
  {
    if text == "" then ""
    else if |text| > 1 && text[0] == CR && text[1] == LF then [LF] + ToLf(text[2..])
    else [text[0]] + ToLf(text[1..])
  }

  ghost predicate LfAfterCr(text: string) {
    forall i | 0 <= i < |text| && text[i] == LF :: i > 0 && text[i - 1] == CR
  }

  lemma {:induction false} ToCrlfSays(text: string)
    ensures var crlf := ToCrlf(text);
            && ToLf(crlf) == ToLf(text) && LfAfterCr(crlf) && (crlf != "" ==> crlf[0] != LF)
    decreases |text|
  {
    if text != "" {
      var rest := if |text| > 1 && text[0] == CR && text[1] == LF then text[2..] else text[1..];
      var head := if rest == text[1..] && text[0] != LF then [text[0]] else [CR, LF];
      ToCrlfSays(rest);
      assert ToCrlf(text) == head + ToCrlf(rest);
      assert (head + ToCrlf(rest))[|head|..] == ToCrlf(rest);
      AfterHead(head, ToCrlf(rest));
    }
  }

  lemma AfterHead(head: string, rest: string)
    requires head == [CR, LF] || (|head| == 1 && head[0] != LF)
    requires LfAfterCr(rest) && (rest != "" ==> rest[0] != LF)
    ensures LfAfterCr(head + rest)
  {
  }

  /** Two texts with CRLF breaks that differ in nothing but breaks are one text. */
  lemma {:induction false} SameButBreaks(a: string, b: string)
    requires LfAfterCr(a) && LfAfterCr(b) && ToLf(a) == ToLf(b)
    ensures a == b
    decreases |a|
  {
    if a != "" && b != "" {
      assert ToLf(a)[0] == ToLf(b)[0];
      var n := if |a| > 1 && a[0] == CR && a[1] == LF then 2 else 1;
      assert n == if |b| > 1 && b[0] == CR && b[1] == LF then 2 else 1;
      assert ToLf(a)[1..] == ToLf(a[n..]) && ToLf(b)[1..] == ToLf(b[n..]);
      SameButBreaks(a[n..], b[n..]);
      assert a == a[..n] + a[n..] && b == b[..n] + b[n..];
    }
  }

  /** With CRLF breaks is the one text that differs in nothing but breaks and has each LF behind a CR. */
  lemma ToCrlfExactly(text: string, crlf: string)
    ensures crlf == ToCrlf(text) <==> ToLf(crlf) == ToLf(text) && LfAfterCr(crlf)
  {
    ToCrlfSays(text);
    if ToLf(crlf) == ToLf(text) && LfAfterCr(crlf) {
      SameButBreaks(crlf, ToCrlf(text));
    }
  }

  /** Reads on, knowing whether a CR is open: it must be closed by an LF at once, and an LF must close one. */
  function Scan(text: string, open: bool): Option<bool>
    decreases |text|
  {
    if text == "" then Some(open)
    else if open != (text[0] == LF) then None
    else Scan(text[1..], text[0] == CR)
  }

  /** Every break is CRLF, and there is no lone CR. */
  predicate AllCrlf(text: string) {
    Scan(text, false) == Some(false)
  }

  lemma {:induction false} ScanAppend(a: string, b: string, open: bool)
    ensures Scan(a + b, open) == if Scan(a, open).Some? then Scan(b, Scan(a, open).value) else None
    decreases |a|
  {
    if a == "" {
      assert a + b == b;
    } else {
      assert (a + b)[1..] == a[1..] + b;
      ScanAppend(a[1..], b, a[0] == CR);
    }
  }

  /** An LF stands here exactly when a CR stands right before. */
  predicate Closes(text: string, open: bool, i: nat)
    requires i < |text|
  {
    text[i] == LF <==> if i == 0 then open else text[i - 1] == CR
  }

  /** All CRLF is what it says: each LF right after a CR, and each CR right before an LF. */
  lemma {:induction false} ScanSaysCrlf(text: string, open: bool)
    ensures Scan(text, open) == Some(false) <==>
            && (forall i | 0 <= i < |text| :: Closes(text, open, i))
            && (if text == "" then !open else text[|text| - 1] != CR)
    decreases |text|
  {
    if text != "" {
      var rest, opens := text[1..], text[0] == CR;
      ScanSaysCrlf(rest, opens);
      if forall i | 0 <= i < |text| :: Closes(text, open, i) {
        assert Closes(text, open, 0);
        forall i | 0 <= i < |rest| ensures Closes(rest, opens, i) {
          assert Closes(text, open, i + 1);
        }
      }
      forall i | 0 < i < |text| ensures Closes(rest, opens, i - 1) <==> Closes(text, open, i) {
      }
      assert |rest| > 0 ==> rest[|rest| - 1] == text[|text| - 1];
    }
  }

  /** Text with LF breaks only, read after an open CR or none. */
  lemma {:induction false} ScanWithoutCr(text: string, open: bool)
    requires CR !in text && text != ""
    ensures Scan(text, open) == if (text[0] == LF) == open && LF !in text[1..] then Some(false) else None
    decreases |text|
  {
    if |text| > 1 {
      ScanWithoutCr(text[1..], false);
      assert text[1] == text[1..][0];
      assert LF in text[1..] <==> text[1] == LF || LF in text[1..][1..];
    } else {
      assert text[1..] == "";
    }
  }

  lemma {:induction false} ToCrlfScans(text: string)
    requires CR !in text
    ensures AllCrlf(ToCrlf(text)) && (text != "" ==> ToCrlf(text)[0] != LF)
    decreases |text|
  {
    if text != "" {
      ToCrlfScans(text[1..]);
      if text[0] == LF {
        ScanAppend([CR, LF], ToCrlf(text[1..]), false);
        assert [CR, LF][1..] == [LF] && [LF][1..] == "";
      } else {
        assert ([text[0]] + ToCrlf(text[1..]))[1..] == ToCrlf(text[1..]);
      }
    }
  }

  /**
   * A replacement keeps the breaks of what it replaces: both start with the LF that closes a CR, or neither has one.
   */
  predicate KeepsBreaks(search: string, replacement: string) {
    if replacement == "" then search == "" || search[0] != LF
    else ((search != "" && search[0] == LF) <==> replacement[0] == LF) && LF !in replacement[1..]
  }

  /** After the replacement the rest reads on as after what it replaced, exactly when it keeps its breaks. */
  lemma ScanReplaced(before: string, search: string, replacement: string)
    requires CR !in search && CR !in replacement && search != ""
    requires Scan(before + search, false).Some?
    ensures Scan(before + search, false) == Some(false)
    ensures KeepsBreaks(search, replacement) ==> Scan(before + replacement, false) == Some(false)
    ensures !KeepsBreaks(search, replacement) ==>
              Scan(before + replacement, false).None? || (replacement == "" && Scan(before, false) == Some(true))
  {
    ScanAppend(before, search, false);
    ScanAppend(before, replacement, false);
    var open := Scan(before, false).value;
    ScanWithoutCr(search, open);
    if replacement != "" {
      ScanWithoutCr(replacement, open);
    }
  }

  /** What follows an occurrence that starts with LF starts the rest of the result too. */
  lemma StartsAlike(text: string, search: string, from: nat, replacement: string)
    requires search != "" && search[0] == LF && from < |text| && text[from] != LF
    ensures var result := Join(Split(text, search, from), replacement); result != "" && result[0] == text[from]
  {
    assert from + |search| <= |text| ==> text[from..from + |search|][0] == text[from];
    assert !OccursAt(text, search, from);
    var at := IndexOf(text, search, from);
    assert at > from;
    if at < |text| {
      SplitNext(text, search, from, at, at + |search|);
      JoinCons(text[from..at], Split(text, search, at + |search|), replacement);
    }
  }

  /**
   * Text with LF breaks, found in a file with CRLF breaks: the result has only those exactly when it keeps the
   * breaks.
   */
  lemma {:induction false} EachKeepsBreaks(text: string, search: string, replacement: string, from: nat)
    requires search != "" && CR !in search && CR !in replacement
    requires from <= |text| && AllCrlf(text[from..])
    ensures var result := Join(Split(text, search, from), replacement);
            if IndexOf(text, search, from) == |text| then result == text[from..]
            else AllCrlf(result) <==> KeepsBreaks(search, replacement)
    decreases |text| - from
  {
    var at := IndexOf(text, search, from);
    if at < |text| {
      var next := at + |search|;
      var before, rest, result := text[from..at], text[next..], Join(Split(text, search, next), replacement);
      AtOccurrence(text, search, from, at, next, replacement);
      ScanAppend(before + search, rest, false);
      ScanReplaced(before, search, replacement);
      EachKeepsBreaks(text, search, replacement, next);
      ScanAppend(before + replacement, result, false);
      if !KeepsBreaks(search, replacement) && Scan(before + replacement, false).Some? {
        assert before + replacement == before;
        AfterOpenCr(text, search, replacement, next, before);
      }
    }
  }

  /** A CR left open by an empty replacement stays open. */
  lemma AfterOpenCr(text: string, search: string, replacement: string, next: nat, before: string)
    requires search != "" && CR !in search && next <= |text| && AllCrlf(text[next..])
    requires Scan(before, false) == Some(true) && Scan(before + search, false).Some?
    ensures Scan(Join(Split(text, search, next), replacement), true) != Some(false)
  {
    ScanAppend(before, search, false);
    assert search[0] == LF;
    if next < |text| {
      assert text[next..][0] == text[next];
      StartsAlike(text, search, next, replacement);
    }
  }

  lemma {:induction false} EachWithCrlf(text: string, search: string, replacement: string, from: nat)
    requires search != "" && search[0] != LF && AllCrlf(search) && AllCrlf(replacement)
    requires from <= |text| && AllCrlf(text[from..])
    ensures AllCrlf(Join(Split(text, search, from), replacement))
    decreases |text| - from
  {
    var at := IndexOf(text, search, from);
    if at < |text| {
      var next := at + |search|;
      var before, rest, result := text[from..at], text[next..], Join(Split(text, search, next), replacement);
      AtOccurrence(text, search, from, at, next, replacement);
      ScanAppend(before + search, rest, false);
      ScanAppend(before, search, false);
      assert Scan(before, false) == Some(false);
      EachWithCrlf(text, search, replacement, next);
      ScanAppend(before, replacement, false);
      ScanAppend(before + replacement, result, false);
    }
  }

  /**
   * A file with CRLF breaks, edited with text with LF breaks, keeps CRLF breaks: always when the text was matched only
   * with the file's breaks, and otherwise exactly when the replacement keeps those of the text replaced.
   */
  lemma EditKeepsCrlf(content: string, oldString: string, newString: string, replaceAll: bool)
    requires oldString != "" && CR !in oldString && CR !in newString && AllCrlf(content)
    ensures match Replace(content, oldString, newString, replaceAll)
            case Failure(_) => true
            case Success(edit) =>
              AllCrlf(edit.content) <==>
                (Absent(content, oldString) && !Absent(content, [CR, LF])) || KeepsBreaks(oldString, newString)
  {
    var search, replacement := Search(content, oldString), Replacement(content, oldString, newString);
    EditReplacesEach(content, oldString, newString, replaceAll);
    SearchIs(content, oldString, newString);
    assert content[0..] == content;
    if Fallback(content, oldString) {
      ToCrlfScans(oldString);
      ToCrlfScans(newString);
      EachWithCrlf(content, search, replacement, 0);
    } else {
      EachKeepsBreaks(content, search, replacement, 0);
      if IndexOf(content, search, 0) == |content| {
        assert Split(content, search, 0) == [content[0..]];
      }
    }
  }
}
