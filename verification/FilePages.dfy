/** A file's lines a page at a time (cloudchef-agent/file-edit.ts, `readFileLines`). */
module FilePages {
  import opened Wrappers
  import opened Text
  import opened FileRead

  /** Octets of a character in UTF-8 (section 3 of RFC 3629). */
  function Octets(c: char): nat {
    if c as int < 0x80 then 1 else if c as int < 0x800 then 2 else if c as int < 0x1_0000 then 3 else 4
  }

  function Utf8Length(text: string): nat {
    if text == "" then 0 else Utf8Length(text[..|text| - 1]) + Octets(text[|text| - 1])
  }

  /** A character's octets. */
  function Utf8(c: char): seq<nat> {
    var scalar := c as int;
    if scalar < 0x80 then [scalar]
    else if scalar < 0x800 then [0xc0 + scalar / 64, Follows(scalar)]
    else if scalar < 0x1_0000 then [0xe0 + scalar / 4096, Follows(scalar / 64), Follows(scalar)]
    else [0xf0 + scalar / 262144, Follows(scalar / 4096), Follows(scalar / 64), Follows(scalar)]
  }

  function Follows(bits: nat): nat {
    0x80 + bits % 64
  }

  function Encoded(text: string): seq<nat> {
    if text == "" then [] else Encoded(text[..|text| - 1]) + Utf8(text[|text| - 1])
  }

  /** The first octet says how many there are, and their bits put together are the character. */
  lemma Utf8Decodes(c: char)
    ensures var octets := Utf8(c);
            match |octets|
            case 1 => octets[0] < 0x80 && octets[0] == c as int
            case 2 => 0xc0 <= octets[0] < 0xe0 && (octets[0] - 0xc0) * 64 + octets[1] - 0x80 == c as int
            case 3 =>
              && 0xe0 <= octets[0] < 0xf0
              && (octets[0] - 0xe0) * 4096 + (octets[1] - 0x80) * 64 + octets[2] - 0x80 == c as int
            case _ =>
              && |octets| == 4 && 0xf0 <= octets[0] < 0xf8
              && (octets[0] - 0xf0) * 262144 + (octets[1] - 0x80) * 4096 + (octets[2] - 0x80) * 64 + octets[3] - 0x80
                 == c as int
    ensures forall i | 1 <= i < |Utf8(c)| :: 0x80 <= Utf8(c)[i] < 0xc0
  {
    var scalar := c as int;
    assert scalar / 64 / 64 == scalar / 4096 && scalar / 4096 / 64 == scalar / 262144;
  }

  /** The length counted is that of the text in UTF-8. */
  lemma {:induction false} Utf8LengthIs(text: string)
    ensures Utf8Length(text) == |Encoded(text)|
  {
    if text != "" {
      Utf8LengthIs(text[..|text| - 1]);
    }
  }

  function WithLf(lines: seq<string>): string {
    Join(lines, [LF])
  }

  datatype Page = Page(
    content: string, startLine: nat, endLine: nat, totalLines: nat, truncated: bool, nextOffset: Option<nat>)

  datatype ReadError = OffsetBeyondEnd(offset: nat, lines: nat) | LineTooLong(line: nat)

  /** The longest page from there: as many lines as there is room for, of at most so many octets. */
  function PageEnd(lines: seq<string>, from: nat, end: nat, most: nat, maxBytes: nat): (to: nat)
    requires from <= end <= |lines|
    ensures end <= to <= |lines| && (end - from <= most ==> to - from <= most)
    decreases |lines| - end
  {
    if end < |lines| && end - from < most && Utf8Length(WithLf(lines[from..end + 1])) <= maxBytes
    then PageEnd(lines, from, end + 1, most, maxBytes) else end
  }

  function PageOf(lines: seq<string>, offset: nat, end: nat): Page
    requires 1 <= offset && offset - 1 <= end <= |lines|
  {
    Page(WithLf(lines[offset - 1..end]), offset, end, |lines|, end < |lines|,
        if end < |lines| then Some(end + 1) else None)
  }

  /** What a read answers. */
  function Read(lines: seq<string>, offset: nat, most: nat, maxBytes: nat): Result<Page, ReadError>
    requires offset >= 1
  {
    if offset > Max(1, |lines|) then Failure(OffsetBeyondEnd(offset, |lines|))
    else if most > 0 && offset <= |lines| && Utf8Length(lines[offset - 1]) > maxBytes then Failure(LineTooLong(offset))
    else Success(PageOf(lines, offset, PageEnd(lines, offset - 1, offset - 1, most, maxBytes)))
  }

  lemma {:induction false} Utf8Append(a: string, b: string)
    ensures Utf8Length(a + b) == Utf8Length(a) + Utf8Length(b)
  {
    if b == "" {
      assert a + b == a;
    } else {
      assert (a + b)[..|a + b| - 1] == a + b[..|b| - 1];
      Utf8Append(a, b[..|b| - 1]);
    }
  }

  lemma JoinSnoc(lines: seq<string>, line: string)
    ensures WithLf(lines + [line]) == if lines == [] then line else WithLf(lines) + [LF] + line
    ensures Utf8Length(WithLf(lines + [line]))
         == Utf8Length(WithLf(lines)) + Utf8Length(line) + if lines == [] then 0 else 1
  {
    if lines == [] {
      assert lines + [line] == [line];
    } else {
      JoinTogether(lines, [line], [LF]);
      Utf8Append(WithLf(lines) + [LF], line);
      Utf8Append(WithLf(lines), [LF]);
      assert [LF][..0] == "";
    }
  }

  lemma PageGrows(lines: seq<string>, from: nat, index: nat)
    requires from <= index < |lines|
    ensures lines[from..index + 1] == lines[from..index] + [lines[index]]
    ensures Utf8Length(WithLf(lines[from..index + 1]))
         == Utf8Length(WithLf(lines[from..index])) + Utf8Length(lines[index]) + if index == from then 0 else 1
  {
    assert lines[from..index + 1] == lines[from..index] + [lines[index]];
    JoinSnoc(lines[from..index], lines[index]);
  }

  /** The lines that fit, or none when the first alone does not. */
  method Select(lines: seq<string>, from: nat, lineLimit: nat, maxBytes: nat) returns (selected: Option<seq<string>>)
    requires from <= |lines|
    ensures selected.None? <==> lineLimit > 0 && from < |lines| && Utf8Length(lines[from]) > maxBytes
    ensures selected.Some? ==>
              var end := PageEnd(lines, from, from, lineLimit, maxBytes);
              |selected.value| == end - from && selected.value == lines[from..end]
  {
    var taken: seq<string>, selectedBytes, index := [], 0, from;
    while index < |lines| && |taken| < lineLimit
      invariant from <= index <= |lines| && taken == lines[from..index] && |taken| <= lineLimit
      invariant selectedBytes == Utf8Length(WithLf(lines[from..index])) <= maxBytes
      invariant index > from ==> Utf8Length(lines[from]) <= maxBytes
      invariant PageEnd(lines, from, from, lineLimit, maxBytes) == PageEnd(lines, from, index, lineLimit, maxBytes)
    {
      PageGrows(lines, from, index);
      var lineBytes := Utf8Length(lines[index]) + if |taken| == 0 then 0 else 1;
      if |taken| == 0 && lineBytes > maxBytes {
        return None;
      }
      if selectedBytes + lineBytes > maxBytes {
        break;
      }
      taken := taken + [lines[index]];
      selectedBytes := selectedBytes + lineBytes;
      index := index + 1;
    }
    return Some(taken);
  }

  /**
   * The page of the lines after `from`: it holds no more lines and no more octets than it may, and ends before the last
   * line only where one more line would be too many of either.
   */
  ghost predicate LongestPage(page: Page, lines: seq<string>, from: nat, most: nat, maxBytes: nat) {
    && page.startLine == from + 1 && from <= page.endLine <= |lines| && page.totalLines == |lines|
    && page.content == WithLf(lines[from..page.endLine])
    && page.endLine - from <= most && Utf8Length(page.content) <= maxBytes
    && (page.endLine < |lines| ==>
          page.endLine - from == most || Utf8Length(WithLf(lines[from..page.endLine + 1])) > maxBytes)
    && page.truncated == (page.endLine < |lines|)
    && page.nextOffset == (if page.endLine < |lines| then Some(page.endLine + 1) else None)
  }

  /** An offset beyond the end and a first line that alone is too long are errors; else that page is read. */
  ghost predicate Answers(
    result: Result<Page, ReadError>, lines: seq<string>, first: nat, most: nat, maxBytes: nat)
    requires first >= 1
  {
    match result
    case Failure(OffsetBeyondEnd(start, count)) => start == first && count == |lines| && first > 1 && first > |lines|
    case Failure(LineTooLong(line)) =>
      line == first <= |lines| && most > 0 && Utf8Length(lines[first - 1]) > maxBytes
    case Success(page) =>
      && (first == 1 || first <= |lines|) && LongestPage(page, lines, first - 1, most, maxBytes)
      && (most > 0 && first <= |lines| ==> page.endLine >= first)
  }

  method ReadFileLines(content: string, offset: Option<nat>, limit: Option<nat>, maxLines: nat, maxBytes: nat)
    returns (result: Result<Page, ReadError>)
    requires offset.Some? ==> offset.value >= 1
    ensures result == Read(Lines(content), if offset.Some? then offset.value else 1,
                           Min(if limit.Some? then limit.value else maxLines, maxLines), maxBytes)
    ensures Answers(result, Lines(content), if offset.Some? then offset.value else 1,
                    if limit.Some? && limit.value < maxLines then limit.value else maxLines, maxBytes)
  {
    var first: nat := if offset.Some? then offset.value else 1;
    var lineLimit: nat := Min(if limit.Some? then limit.value else maxLines, maxLines);
    var lines := LogicalLines(content);
    result := ReadPage(lines, first, lineLimit, maxBytes);
    ReadAnswers(lines, first, lineLimit, maxBytes);
  }

  method ReadPage(lines: seq<string>, first: nat, lineLimit: nat, maxBytes: nat)
    returns (result: Result<Page, ReadError>)
    requires first >= 1
    ensures result == Read(lines, first, lineLimit, maxBytes)
  {
    if first > Max(1, |lines|) {
      return Failure(OffsetBeyondEnd(first, |lines|));
    }
    var selected := Select(lines, first - 1, lineLimit, maxBytes);
    if selected.None? {
      return Failure(LineTooLong(first));
    }
    var endLine := first - 1 + |selected.value|;
    assert endLine == PageEnd(lines, first - 1, first - 1, lineLimit, maxBytes);
    return Success(PageOf(lines, first, endLine).(content := WithLf(selected.value)));
  }

  // ---------- Following nextOffset ----------

  lemma {:induction false} PageEndFits(lines: seq<string>, from: nat, end: nat, most: nat, maxBytes: nat)
    requires from <= end <= |lines|
    ensures var to := PageEnd(lines, from, end, most, maxBytes);
            to > end ==> Utf8Length(WithLf(lines[from..to])) <= maxBytes
    decreases |lines| - end
  {
    if end < |lines| && end - from < most && Utf8Length(WithLf(lines[from..end + 1])) <= maxBytes {
      PageEndFits(lines, from, end + 1, most, maxBytes);
    }
  }

  lemma {:induction false} PageStopsForOneMore(lines: seq<string>, from: nat, end: nat, most: nat, maxBytes: nat)
    requires from <= end <= |lines|
    ensures var to := PageEnd(lines, from, end, most, maxBytes);
            to < |lines| ==> to - from >= most || Utf8Length(WithLf(lines[from..to + 1])) > maxBytes
    decreases |lines| - end
  {
    if end < |lines| && end - from < most && Utf8Length(WithLf(lines[from..end + 1])) <= maxBytes {
      PageStopsForOneMore(lines, from, end + 1, most, maxBytes);
    }
  }

  lemma ReadIsLongest(lines: seq<string>, from: nat, most: nat, maxBytes: nat)
    requires from < Max(1, |lines|) && Read(lines, from + 1, most, maxBytes).Success?
    ensures var page := Read(lines, from + 1, most, maxBytes).value;
            && LongestPage(page, lines, from, most, maxBytes)
            && page == PageOf(lines, from + 1, page.endLine)
            && (most > 0 && from < |lines| ==> page.endLine > from)
  {
    PageEndFits(lines, from, from, most, maxBytes);
    PageStopsForOneMore(lines, from, from, most, maxBytes);
    if most > 0 && from < |lines| {
      PageAdvances(lines, from, most, maxBytes);
    }
  }

  lemma ReadAnswers(lines: seq<string>, first: nat, most: nat, maxBytes: nat)
    requires first >= 1
    ensures Answers(Read(lines, first, most, maxBytes), lines, first, most, maxBytes)
  {
    if Read(lines, first, most, maxBytes).Success? {
      ReadIsLongest(lines, first - 1, most, maxBytes);
    }
  }

  /** A page that may hold a line and starts at one that fits holds it. */
  lemma PageAdvances(lines: seq<string>, from: nat, most: nat, maxBytes: nat)
    requires from < |lines| && most > 0 && Utf8Length(lines[from]) <= maxBytes
    ensures PageEnd(lines, from, from, most, maxBytes) > from
  {
    assert lines[from..from + 1] == [lines[from]];
  }

  /** The pages a reader gets who asks for `nextOffset` until there is none. */
  function Follow(lines: seq<string>, offset: nat, most: nat, maxBytes: nat): Result<seq<Page>, ReadError>
    requires offset >= 1 && most >= 1
    decreases |lines| - offset
  {
    match Read(lines, offset, most, maxBytes)
    case Failure(error) => Failure(error)
    case Success(page) =>
      if page.nextOffset.None? then Success([page]) else
      PageAdvances(lines, offset - 1, most, maxBytes);
      match Follow(lines, page.nextOffset.value, most, maxBytes)
      case Failure(error) => Failure(error)
      case Success(pages) => Success([page] + pages)
  }

  predicate LineFits(lines: seq<string>, line: nat, maxBytes: nat) {
    1 <= line <= |lines| && Utf8Length(lines[line - 1]) <= maxBytes
  }

  /** The pages show the lines from `from` on in order, each once and in full, each page as long as it can be. */
  ghost predicate Tiles(pages: seq<Page>, lines: seq<string>, from: nat, most: nat, maxBytes: nat) {
    && pages != [] && from <= |lines| && LongestPage(pages[0], lines, from, most, maxBytes)
    && (if |pages| == 1 then pages[0].endLine == |lines|
        else from < pages[0].endLine < |lines| && Tiles(pages[1..], lines, pages[0].endLine, most, maxBytes))
  }

  lemma TilesCons(page: Page, pages: seq<Page>, lines: seq<string>, from: nat, most: nat, maxBytes: nat)
    requires from < page.endLine < |lines| && LongestPage(page, lines, from, most, maxBytes)
    requires Tiles(pages, lines, page.endLine, most, maxBytes)
    ensures Tiles([page] + pages, lines, from, most, maxBytes)
  {
    assert ([page] + pages)[1..] == pages;
  }

  /** What reading from there comes to: the pages, or the first line that does not fit. */
  ghost predicate Followed(
    reading: Result<seq<Page>, ReadError>, lines: seq<string>, offset: nat, most: nat, maxBytes: nat)
    requires offset >= 1
  {
    match reading
    case Success(pages) =>
      Tiles(pages, lines, offset - 1, most, maxBytes)
      && (forall line | offset <= line <= |lines| :: LineFits(lines, line, maxBytes))
    case Failure(error) =>
      && error.LineTooLong? && offset <= error.line <= |lines| && !LineFits(lines, error.line, maxBytes)
      && (forall line | offset <= line < error.line :: LineFits(lines, line, maxBytes))
  }

  lemma FollowedOn(
    page: Page, rest: Result<seq<Page>, ReadError>, lines: seq<string>, from: nat, most: nat, maxBytes: nat)
    requires from < page.endLine < |lines| && LongestPage(page, lines, from, most, maxBytes)
    requires forall line | from + 1 <= line <= page.endLine :: LineFits(lines, line, maxBytes)
    requires Followed(rest, lines, page.endLine + 1, most, maxBytes)
    ensures rest.Success? ==> Followed(Success([page] + rest.value), lines, from + 1, most, maxBytes)
    ensures rest.Failure? ==> Followed(rest, lines, from + 1, most, maxBytes)
  {
    if rest.Success? {
      TilesCons(page, rest.value, lines, from, most, maxBytes);
    }
  }

  lemma {:induction false} FollowTiles(lines: seq<string>, offset: nat, most: nat, maxBytes: nat)
    requires 1 <= offset <= Max(1, |lines|) && most >= 1
    ensures Followed(Follow(lines, offset, most, maxBytes), lines, offset, most, maxBytes)
    decreases |lines| - offset
  {
    var from := offset - 1;
    match Read(lines, offset, most, maxBytes)
    case Failure(error) =>
    case Success(page) =>
      PageHolds(lines, from, most, maxBytes, page);
      if page.nextOffset.Some? {
        FollowTiles(lines, page.nextOffset.value, most, maxBytes);
        FollowedOn(page, Follow(lines, page.nextOffset.value, most, maxBytes), lines, from, most, maxBytes);
      }
  }

  /** What a page holds when it is read: lines from there on that all fit, one at least if there is one. */
  lemma PageHolds(lines: seq<string>, from: nat, most: nat, maxBytes: nat, page: Page)
    requires from < Max(1, |lines|) && most >= 1 && Read(lines, from + 1, most, maxBytes) == Success(page)
    ensures LongestPage(page, lines, from, most, maxBytes) && page == PageOf(lines, from + 1, page.endLine)
    ensures from < |lines| ==> page.endLine > from
    ensures forall line | from + 1 <= line <= page.endLine :: LineFits(lines, line, maxBytes)
  {
    ReadIsLongest(lines, from, most, maxBytes);
    forall line | from + 1 <= line <= page.endLine ensures LineFits(lines, line, maxBytes) {
      LinesOfPageFit(lines, from, page.endLine, maxBytes, line);
    }
  }

  /** A line is no longer than a page it is on. */
  lemma {:induction false} LinesOfPageFit(lines: seq<string>, from: nat, end: nat, maxBytes: nat, line: nat)
    requires from < end <= |lines| && Utf8Length(WithLf(lines[from..end])) <= maxBytes && from + 1 <= line <= end
    ensures LineFits(lines, line, maxBytes)
    decreases end
  {
    PageGrows(lines, from, end - 1);
    if line < end {
      LinesOfPageFit(lines, from, end - 1, maxBytes, line);
    }
  }

  /**
   * A reader who follows `nextOffset` from the first line gets every line once, in order, on pages as long as they can
   * be, exactly when each line alone is within the cap on octets; else the read fails at the first that is not.
   */
  lemma ReadingTilesTheFile(content: string, limit: Option<nat>, maxLines: nat, maxBytes: nat)
    requires maxLines >= 1 && (limit.Some? ==> limit.value >= 1)
    ensures var lines := Lines(content);
            var most: nat := Min(if limit.Some? then limit.value else maxLines, maxLines);
            var reading := Follow(lines, 1, most, maxBytes);
            && (reading.Success? <==> forall line | 1 <= line <= |lines| :: LineFits(lines, line, maxBytes))
            && (reading.Success? ==> Tiles(reading.value, lines, 0, most, maxBytes))
            && (reading.Failure? ==>
                  && reading.error.LineTooLong? && !LineFits(lines, reading.error.line, maxBytes)
                  && forall line | 1 <= line < reading.error.line :: LineFits(lines, line, maxBytes))
  {
    FollowTiles(Lines(content), 1, Min(if limit.Some? then limit.value else maxLines, maxLines), maxBytes);
  }

  function Contents(pages: seq<Page>): seq<string> {
    if pages == [] then [] else [pages[0].content] + Contents(pages[1..])
  }

  /** Put together with LF, the pages read are the file with LF breaks. */
  lemma {:induction false} PagesAreTheFile(pages: seq<Page>, lines: seq<string>, from: nat, most: nat, maxBytes: nat)
    requires from <= |lines| && Tiles(pages, lines, from, most, maxBytes)
    ensures WithLf(Contents(pages)) == WithLf(lines[from..])
    decreases |pages|
  {
    var end := pages[0].endLine;
    if |pages| == 1 {
      assert pages[1..] == [];
      assert lines[from..end] == lines[from..];
    } else {
      PagesAreTheFile(pages[1..], lines, end, most, maxBytes);
      assert lines[from..] == lines[from..end] + lines[end..];
      JoinTogether(lines[from..end], lines[end..], [LF]);
      JoinTogether([pages[0].content], Contents(pages[1..]), [LF]);
    }
  }
}
