/**
 * Reading a file page by page (cloudchef-agent/file-edit.ts, `logicalLines` and `readFileLines`). A character is a
 * Unicode scalar value.
 */
module FileRead {
  import opened Text

  const BOM: char := '\U{FEFF}'

  // ---------- Lines ----------

  /** A line and the break that ends it: none only at the end of the file. */
  datatype Piece = Piece(text: string, ending: string)

  /** A break starts here: LF, CRLF, or a lone CR where those count. */
  predicate BreaksAt(body: string, lone: bool, at: nat)
    requires at < |body|
  {
    body[at] == LF || (body[at] == CR && (lone || (at + 1 < |body| && body[at + 1] == LF)))
  }

  function BreakLength(body: string, at: nat): (length: nat)
    requires at < |body|
    ensures 0 < length && at + length <= |body|
  {
    if body[at] == CR && at + 1 < |body| && body[at + 1] == LF then 2 else 1
  }

  /** Where the first break starts, from there on. */
  function FirstBreak(body: string, lone: bool, from: nat): (at: nat)
    requires from <= |body|
    ensures from <= at <= |body|
    decreases |body| - from
  {
    if from == |body| || BreaksAt(body, lone, from) then from else FirstBreak(body, lone, from + 1)
  }

  /** The lines from `start` on, where a line starts. */
  function Pieces(body: string, lone: bool, start: nat): seq<Piece>
    requires start <= |body|
    decreases |body| - start
  {
    if start == |body| then [] else
    var at := FirstBreak(body, lone, start);
    if at == |body| then [Piece(body[start..], "")] else
    var next := at + BreakLength(body, at);
    [Piece(body[start..at], body[at..next])] + Pieces(body, lone, next)
  }

  function Texts(pieces: seq<Piece>): seq<string> {
    if pieces == [] then [] else [pieces[0].text] + Texts(pieces[1..])
  }

  function Body(content: string): string {
    if content != "" && content[0] == BOM then content[1..] else content
  }

  predicate LoneBreaks(body: string) {
    CR in body && LF !in body
  }

  function Lines(content: string): seq<string> {
    Texts(Pieces(Body(content), LoneBreaks(Body(content)), 0))
  }

  lemma TextsCons(piece: Piece, rest: seq<Piece>)
    ensures Texts([piece] + rest) == [piece.text] + Texts(rest)
    ensures Rebuild([piece] + rest) == piece.text + piece.ending + Rebuild(rest)
  {
    assert ([piece] + rest)[1..] == rest;
  }

  lemma PiecesStep(body: string, lone: bool, start: nat, at: nat, next: nat)
    requires start <= at < |body| && FirstBreak(body, lone, start) == at && next == at + BreakLength(body, at)
    ensures Pieces(body, lone, start) == [Piece(body[start..at], body[at..next])] + Pieces(body, lone, next)
  {
  }

  lemma PiecesNext(body: string, lone: bool, start: nat, at: nat, next: nat)
    requires start <= at < |body| && FirstBreak(body, lone, start) == at && next == at + BreakLength(body, at)
    ensures Texts(Pieces(body, lone, start)) == [body[start..at]] + Texts(Pieces(body, lone, next))
    ensures Rebuild(Pieces(body, lone, start)) == body[start..next] + Rebuild(Pieces(body, lone, next))
  {
    var piece, rest := Piece(body[start..at], body[at..next]), Pieces(body, lone, next);
    PiecesStep(body, lone, start, at, next);
    TextsCons(piece, rest);
    TwoSlices(body, start, at, next);
  }

  lemma TwoSlices(body: string, start: nat, at: nat, next: nat)
    requires start <= at <= next <= |body|
    ensures body[start..at] + body[at..next] == body[start..next]
  {
  }

  lemma PiecesEnd(body: string, lone: bool, start: nat)
    requires start <= |body| && FirstBreak(body, lone, start) == |body|
    ensures Pieces(body, lone, start) == if start < |body| then [Piece(body[start..], "")] else []
    ensures Texts(Pieces(body, lone, start)) == if start < |body| then [body[start..]] else []
    ensures Rebuild(Pieces(body, lone, start)) == body[start..]
  {
    if start < |body| {
      assert Pieces(body, lone, start) == [Piece(body[start..], "")] + [];
      TextsCons(Piece(body[start..], ""), []);
    }
  }

  /** The lines up to there, where a line starts. */
  ghost predicate LinesBefore(lines: seq<string>, body: string, lone: bool, start: nat) {
    start <= |body| && lines + Texts(Pieces(body, lone, start)) == Texts(Pieces(body, lone, 0))
  }

  lemma LineTaken(lines: seq<string>, body: string, lone: bool, start: nat, at: nat, next: nat)
    requires start <= at < |body| && FirstBreak(body, lone, start) == at && next == at + BreakLength(body, at)
    requires LinesBefore(lines, body, lone, start)
    ensures LinesBefore(lines + [body[start..at]], body, lone, next)
  {
    var rest := Texts(Pieces(body, lone, next));
    PiecesNext(body, lone, start, at, next);
    assert (lines + [body[start..at]]) + rest == lines + ([body[start..at]] + rest);
  }

  method LogicalLines(content: string) returns (lines: seq<string>)
    ensures lines == Lines(content)
  {
    var body := if content != "" && content[0] == BOM then content[1..] else content;
    var lone := CR in body && LF !in body;
    lines := [];
    var start := 0;
    var at := FirstBreak(body, lone, start);
    while at < |body|
      invariant start <= |body| && at == FirstBreak(body, lone, start)
      invariant LinesBefore(lines, body, lone, start)
      decreases |body| - start
    {
      var next := at + BreakLength(body, at);
      LineTaken(lines, body, lone, start, at, next);
      lines := lines + [body[start..at]];
      start := next;
      at := FirstBreak(body, lone, start);
    }
    PiecesEnd(body, lone, start);
    if start < |body| {
      lines := lines + [body[start..]];
    }
  }

  function Rebuild(pieces: seq<Piece>): string {
    if pieces == [] then "" else pieces[0].text + pieces[0].ending + Rebuild(pieces[1..])
  }

  /** LF or CRLF, or a lone CR where those count. */
  predicate IsBreak(ending: string, lone: bool) {
    ending == [LF] || ending == [CR, LF] || (lone && ending == [CR])
  }

  /** The text holds no break and runs up to its own, which only the last line may lack. */
  ghost predicate CutOne(piece: Piece, lone: bool, last: bool) {
    && FirstBreak(piece.text + piece.ending, lone, 0) == |piece.text|
    && (IsBreak(piece.ending, lone) || (piece.ending == "" && piece.text != "" && last))
  }

  ghost predicate WellCut(pieces: seq<Piece>, lone: bool) {
    pieces == [] || (CutOne(pieces[0], lone, |pieces| == 1) && WellCut(pieces[1..], lone))
  }

  lemma WellCutCons(piece: Piece, rest: seq<Piece>, lone: bool)
    ensures WellCut([piece] + rest, lone) <==> CutOne(piece, lone, rest == []) && WellCut(rest, lone)
  {
    assert ([piece] + rest)[1..] == rest;
  }

  /** The break found in what comes first is the break found in all. */
  lemma {:induction false} FirstBreakAhead(body: string, lone: bool, start: nat, cut: string, from: nat)
    requires start <= |body| && cut <= body[start..] && from <= |cut|
    requires FirstBreak(cut, lone, from) < |cut| || start + |cut| == |body|
    requires lone ==> LF !in body
    requires forall k | from <= k < |cut| && cut[k] == CR && k + 1 == |cut| && start + |cut| < |body| :: lone
    ensures FirstBreak(body, lone, start + from) == start + FirstBreak(cut, lone, from)
    decreases |cut| - from
  {
    if from < |cut| {
      assert cut[from] == body[start..][from] == body[start + from];
      assert from + 1 < |cut| ==> cut[from + 1] == body[start..][from + 1];
      if !BreaksAt(cut, lone, from) {
        FirstBreakAhead(body, lone, start, cut, from + 1);
      }
    }
  }

  /** The lines and their breaks rebuild the file. */
  lemma {:induction false} PiecesRebuild(body: string, lone: bool, start: nat)
    requires start <= |body|
    ensures Rebuild(Pieces(body, lone, start)) == body[start..]
    decreases |body| - start
  {
    var at := FirstBreak(body, lone, start);
    if at < |body| {
      var next := at + BreakLength(body, at);
      PiecesNext(body, lone, start, at, next);
      PiecesRebuild(body, lone, next);
      TwoParts(body, start, next);
    } else {
      PiecesEnd(body, lone, start);
    }
  }

  lemma TwoParts(body: string, start: nat, next: nat)
    requires start <= next <= |body|
    ensures body[start..next] + body[next..] == body[start..]
  {
  }

  lemma {:induction false} FirstBreakIn(body: string, lone: bool, start: nat, next: nat, from: nat)
    requires start <= from <= |body| && FirstBreak(body, lone, from) < |body|
    requires next == FirstBreak(body, lone, from) + BreakLength(body, FirstBreak(body, lone, from))
    ensures FirstBreak(body[start..next], lone, from - start) == FirstBreak(body, lone, from) - start
    decreases |body| - from
  {
    var cut := body[start..next];
    assert BreaksAt(body, lone, from) <==> BreaksAt(cut, lone, from - start);
    if !BreaksAt(body, lone, from) {
      FirstBreakIn(body, lone, start, next, from + 1);
    }
  }

  lemma EndingIsBreak(body: string, lone: bool, at: nat, next: nat)
    requires at < |body| && BreaksAt(body, lone, at) && next == at + BreakLength(body, at)
    ensures IsBreak(body[at..next], lone)
  {
    if next == at + 2 {
      assert body[at..next] == [CR, LF];
    } else {
      assert body[at..next] == [body[at]];
    }
  }

  lemma NextIsCut(body: string, lone: bool, start: nat, at: nat, next: nat)
    requires start <= at < |body| && FirstBreak(body, lone, start) == at && next == at + BreakLength(body, at)
    ensures CutOne(Piece(body[start..at], body[at..next]), lone, false)
  {
    FirstBreakIn(body, lone, start, next, start);
    FirstBreakBreaks(body, lone, start);
    EndingIsBreak(body, lone, at, next);
    assert body[start..at] + body[at..next] == body[start..next];
  }

  lemma {:induction false} PiecesAreCut(body: string, lone: bool, start: nat)
    requires start <= |body|
    ensures WellCut(Pieces(body, lone, start), lone)
    decreases |body| - start
  {
    var at := FirstBreak(body, lone, start);
    if at < |body| {
      var next := at + BreakLength(body, at);
      PiecesStep(body, lone, start, at, next);
      PiecesAreCut(body, lone, next);
      NextIsCut(body, lone, start, at, next);
      WellCutCons(Piece(body[start..at], body[at..next]), Pieces(body, lone, next), lone);
    } else {
      PiecesEnd(body, lone, start);
      FirstBreakAtEnd(body, lone, start, start);
      assert body[start..] + "" == body[start..];
      if start < |body| {
        WellCutCons(Piece(body[start..], ""), [], lone);
      }
    }
  }

  lemma {:induction false} FirstBreakBreaks(body: string, lone: bool, from: nat)
    requires from <= |body|
    ensures FirstBreak(body, lone, from) < |body| ==> BreaksAt(body, lone, FirstBreak(body, lone, from))
    decreases |body| - from
  {
    if from < |body| && !BreaksAt(body, lone, from) {
      FirstBreakBreaks(body, lone, from + 1);
    }
  }

  lemma {:induction false} FirstBreakAtEnd(body: string, lone: bool, start: nat, from: nat)
    requires start <= from <= |body| && FirstBreak(body, lone, from) == |body|
    ensures FirstBreak(body[start..], lone, from - start) == |body| - start
    decreases |body| - from
  {
    if from < |body| {
      assert BreaksAt(body, lone, from) <==> BreaksAt(body[start..], lone, from - start);
      FirstBreakAtEnd(body, lone, start, from + 1);
    }
  }

  lemma Slices(body: string, start: nat, a: string, b: string, c: string, at: nat, next: nat)
    requires start <= |body| && body[start..] == a + b + c && at == start + |a| && next == at + |b|
    ensures next <= |body| && a + b <= body[start..]
    ensures body[start..at] == a && body[at..next] == b && body[next..] == c
  {
    assert body[start..][..|a|] == a;
    assert body[start..][|a|..|a| + |b|] == b;
    assert body[start..][|a| + |b|..] == c;
  }

  lemma EndingLength(body: string, lone: bool, at: nat, next: nat, ending: string)
    requires IsBreak(ending, lone) && at <= next <= |body| && body[at..next] == ending
    requires lone ==> LF !in body
    ensures BreakLength(body, at) == next - at
  {
    assert body[at] == body[at..next][0];
    if ending == [CR, LF] {
      assert body[at + 1] == body[at..next][1];
    }
  }

  /** A line that is well cut off the front is the first. */
  lemma FirstCut(body: string, lone: bool, start: nat, piece: Piece, last: bool, at: nat)
    requires start <= |body| && (lone ==> LF !in body)
    requires CutOne(piece, lone, last) && piece.text + piece.ending <= body[start..]
    requires at == start + |piece.text|
    requires IsBreak(piece.ending, lone) || at == |body|
    ensures FirstBreak(body, lone, start) == at
  {
    var cut := piece.text + piece.ending;
    if IsBreak(piece.ending, lone) {
      assert cut[|cut| - 1] == piece.ending[|piece.ending| - 1];
    }
    FirstBreakAhead(body, lone, start, cut, 0);
  }

  lemma FirstPiece(body: string, lone: bool, start: nat, piece: Piece, rest: seq<Piece>, at: nat, next: nat)
    requires start <= |body| && (lone ==> LF !in body)
    requires CutOne(piece, lone, rest == []) && IsBreak(piece.ending, lone)
    requires body[start..] == piece.text + piece.ending + Rebuild(rest)
    requires at == start + |piece.text| && next == at + |piece.ending|
    ensures next <= |body| && body[next..] == Rebuild(rest)
    ensures Pieces(body, lone, start) == [piece] + Pieces(body, lone, next)
  {
    Slices(body, start, piece.text, piece.ending, Rebuild(rest), at, next);
    FirstCut(body, lone, start, piece, rest == [], at);
    EndingLength(body, lone, at, next, piece.ending);
    StepIs(body, lone, start, piece, at, next);
  }

  lemma StepIs(body: string, lone: bool, start: nat, piece: Piece, at: nat, next: nat)
    requires start <= at < next <= |body| && FirstBreak(body, lone, start) == at
    requires body[start..at] == piece.text && body[at..next] == piece.ending && BreakLength(body, at) == next - at
    ensures Pieces(body, lone, start) == [piece] + Pieces(body, lone, next)
  {
    PiecesStep(body, lone, start, at, next);
    assert Piece(body[start..at], body[at..next]) == piece;
  }

  lemma LastPiece(body: string, lone: bool, start: nat, piece: Piece, rest: seq<Piece>)
    requires start <= |body| && (lone ==> LF !in body)
    requires CutOne(piece, lone, rest == []) && !IsBreak(piece.ending, lone)
    requires body[start..] == piece.text + piece.ending + Rebuild(rest)
    ensures rest == [] && Pieces(body, lone, start) == [piece]
  {
    assert rest == [] && piece.ending == "" && body[start..] == piece.text;
    Slices(body, start, piece.text, "", "", |body|, |body|);
    FirstCut(body, lone, start, piece, true, |body|);
    PiecesEnd(body, lone, start);
  }

  /** There is one way to cut a file into lines. */
  lemma {:induction false} CutsAreUnique(body: string, lone: bool, start: nat, pieces: seq<Piece>)
    requires start <= |body| && (lone ==> LF !in body)
    requires WellCut(pieces, lone) && Rebuild(pieces) == body[start..]
    ensures pieces == Pieces(body, lone, start)
    decreases |pieces|
  {
    if pieces == [] {
      assert start == |body|;
      PiecesEnd(body, lone, start);
    } else {
      var piece, rest := pieces[0], pieces[1..];
      assert pieces == [piece] + rest;
      if !IsBreak(piece.ending, lone) {
        LastPiece(body, lone, start, piece, rest);
      } else {
        var at := start + |piece.text|;
        var next := at + |piece.ending|;
        FirstPiece(body, lone, start, piece, rest, at, next);
        CutsAreUnique(body, lone, next, rest);
        assert pieces == [piece] + Pieces(body, lone, next);
      }
    }
  }

  /**
   * A file's lines, with the breaks that end them, are the one way to cut it: they rebuild it after its BOM, and no
   * line holds a break.
   */
  lemma LinesRebuildTheFile(content: string, pieces: seq<Piece>)
    ensures var body := Body(content);
            pieces == Pieces(body, LoneBreaks(body), 0) <==>
                WellCut(pieces, LoneBreaks(body)) && Rebuild(pieces) == body
  {
    var body := Body(content);
    assert body[0..] == body;
    PiecesRebuild(body, LoneBreaks(body), 0);
    PiecesAreCut(body, LoneBreaks(body), 0);
    if WellCut(pieces, LoneBreaks(body)) && Rebuild(pieces) == body {
      CutsAreUnique(body, LoneBreaks(body), 0, pieces);
    }
  }
}
