/** Reading the pager's answers: the number printed in a hint and the numbers printed before the lines,
    and what a reader gets who asks again at each printed number. */
module PagingHints {
  import opened Options
  import opened Text
  import opened Paging

  /** The line that a text ends with, if it ends with a line break. */
  function LastLine(s: string): Option<string> {
    if s == "" || s[|s| - 1] != '\n' then None
    else
      var body := s[..|s| - 1];
      match Last(body, '\n')
      case None => Some(body)
      case Some(i) => Some(body[i + 1..])
  }

  /** The number in a hint line. */
  function HintIn(open: string, line: string): Option<nat> {
    if open <= line && |line| > |open| && line[|line| - 1] == ']'
    then ParseUint(line[|open|..|line| - 1], U64_MAX) else None
  }

  function HintAtEnd(open: string, text: string): Option<nat> {
    match LastLine(text)
    case None => None
    case Some(line) => HintIn(open, line)
  }

  /** How a reader finds the hint: in the last line, or before the remark that the source is cut. */
  function ReadHint(open: string, notes: Notes, answer: string): Option<nat> {
    if LastLine(answer).Some? && LastLine(answer).value + "\n" == notes.truncated && |notes.truncated| <= |answer|
    then HintAtEnd(open, answer[..|answer| - |notes.truncated|])
    else HintAtEnd(open, answer)
  }

  predicate NoBreak(s: string) {
    '\n' !in s
  }

  predicate Ended(s: string) {
    s == "" || s[|s| - 1] == '\n'
  }

  /** Neither remark can be taken for the other or for a hint. */
  ghost predicate Readable(open: string, notes: Notes) {
    && open != "" && open[0] == '['
    && exists limit, truncated :: RemarksAre(open, notes, limit, truncated)
  }

  predicate RemarksAre(open: string, notes: Notes, limit: string, truncated: string) {
    && notes.limit == "\n" + (limit + "\n") && notes.truncated == truncated + "\n"
    && NoBreak(limit) && NoBreak(truncated) && limit != truncated
    && truncated != "" && truncated[0] == '[' && !(open <= limit) && !(open <= truncated)
  }

  lemma NotesAreReadable()
    ensures Readable(HINT_OPEN, NOTES)
  {
    LimitLineIs();
    TruncatedLineIs();
    HintOpenIs();
    hide HINT_OPEN, LIMIT_LINE, TRUNCATED_LINE;
    assert RemarksAre(HINT_OPEN, NOTES, LIMIT_LINE, TRUNCATED_LINE);
  }

  lemma LimitLineIs()
    ensures NoBreak(LIMIT_LINE) && |LIMIT_LINE| > 1 && LIMIT_LINE[1] == 'P'
  {
  }

  lemma TruncatedLineIs()
    ensures NoBreak(TRUNCATED_LINE) && |TRUNCATED_LINE| > 1 && TRUNCATED_LINE[0] == '[' && TRUNCATED_LINE[1] == 'S'
  {
  }

  lemma HintOpenIs()
    ensures NoBreak(HINT_OPEN) && |HINT_OPEN| > 1 && HINT_OPEN[0] == '[' && HINT_OPEN[1] == 'M'
  {
  }

  lemma LastLineIs(head: string, line: string)
    requires Ended(head) && NoBreak(line)
    ensures LastLine(head + (line + "\n")) == Some(line)
  {
    var s := head + (line + "\n");
    var body := s[..|s| - 1];
    assert body == head + line;
    if head == "" {
      assert body == line;
    } else {
      var n := |head| - 1;
      assert body == head[..n] + ['\n'] + line;
      LastAt(head[..n], '\n', line);
    }
  }

  /** A text whose last line, if any, is neither a hint nor the remark that the source is cut. */
  ghost predicate Quiet(open: string, notes: Notes, page: string) {
    && Ended(page)
    && (page != "" ==> exists head, line ::
          page == head + (line + "\n") && Ended(head) && NoBreak(line)
          && !(open <= line) && line + "\n" != notes.truncated)
  }

  lemma QuietHasNoHint(open: string, notes: Notes, page: string)
    requires Quiet(open, notes, page)
    ensures HintAtEnd(open, page).None?
    ensures LastLine(page).Some? ==> LastLine(page).value + "\n" != notes.truncated
  {
    if page != "" {
      var head, line :| page == head + (line + "\n") && Ended(head) && NoBreak(line)
                        && !(open <= line) && line + "\n" != notes.truncated;
      LastLineIs(head, line);
    }
  }

  /** One more line keeps a text quiet, unless it is a hint or the remark. */
  lemma LineIsQuiet(open: string, notes: Notes, head: string, line: string)
    requires Ended(head) && NoBreak(line) && !(open <= line) && line + "\n" != notes.truncated
    ensures Quiet(open, notes, head + (line + "\n"))
  {
  }

  predicate NoBreaks(lines: seq<string>) {
    forall i :: 0 <= i < |lines| ==> NoBreak(lines[i])
  }

  // ---------------------------------------------------------------- pages

  /** The parts of a numbered line. */
  lemma NumberedIs(i: nat, text: string)
    ensures NumberedLine(i, text) == (Decimal(i + 1) + ": " + text) + "\n"
    ensures NoBreak(text) ==> NoBreak(Decimal(i + 1) + ": " + text)
    ensures IsDigit((Decimal(i + 1) + ": " + text)[0])
  {
    var d := Decimal(i + 1);
    assert (d + ": " + text)[0] == d[0];
    assert forall j :: 0 <= j < |d| ==> IsDigit(d[j]);
  }

  lemma WholeIsQuiet(open: string, notes: Notes, limit: string, truncated: string, before: string, i: nat, text: string)
    requires open != "" && open[0] == '[' && RemarksAre(open, notes, limit, truncated)
    requires Ended(before) && NoBreak(text)
    ensures Quiet(open, notes, before + NumberedLine(i, text))
  {
    var line := Decimal(i + 1) + ": " + text;
    NumberedIs(i, text);
    hide NumberedLine, Decimal;
    assert notes.truncated[0] == '[' && (line + "\n")[0] == line[0];
    LineIsQuiet(open, notes, before, line);
  }

  lemma CutIsQuiet(open: string, notes: Notes, limit: string, truncated: string, before: string, kept: string)
    requires RemarksAre(open, notes, limit, truncated)
    ensures Quiet(open, notes, before + (kept + notes.limit))
  {
    assert before + (kept + notes.limit) == (before + kept + "\n") + (limit + "\n");
    assert (limit + "\n")[..|limit|] == limit && (truncated + "\n")[..|truncated|] == truncated;
    LineIsQuiet(open, notes, before + kept + "\n", limit);
  }

  lemma ShowIsQuiet(open: string, notes: Notes, limit: string, truncated: string, lines: seq<string>,
                    before: string, item: Item)
    requires open != "" && open[0] == '[' && RemarksAre(open, notes, limit, truncated)
    requires Quiet(open, notes, before) && NoBreaks(lines)
    ensures Quiet(open, notes, before + Show(notes.limit, lines, item))
  {
    assert before + "" == before;
    if item.line < |lines| {
      var line := lines[item.line];
      if item.cut.None? {
        WholeIsQuiet(open, notes, limit, truncated, before, item.line, line);
      } else if item.cut.value <= |line| {
        CutIsQuiet(open, notes, limit, truncated, before, line[..item.cut.value]);
      }
    }
  }

  lemma {:induction false} RenderIsQuiet(open: string, notes: Notes, lines: seq<string>, items: seq<Item>)
    requires Readable(open, notes) && NoBreaks(lines)
    ensures Quiet(open, notes, Render(notes.limit, lines, items))
    decreases |items|
  {
    if items != [] {
      var limit, truncated :| RemarksAre(open, notes, limit, truncated);
      var init, last := items[..|items| - 1], items[|items| - 1];
      RenderIsQuiet(open, notes, lines, init);
      assert init + [last] == items;
      RenderLast(notes.limit, lines, init, last);
      ShowIsQuiet(open, notes, limit, truncated, lines, Render(notes.limit, lines, init), last);
    }
  }

  // ---------------------------------------------------------------- hints

  lemma HintLineReads(open: string, n: nat)
    requires n <= U64_MAX
    ensures HintIn(open, open + Decimal(n) + "]") == Some(n)
  {
    var line := open + Decimal(n) + "]";
    assert line[..|open|] == open && line[|open|..|line| - 1] == Decimal(n);
    ParseOfDecimal(n, U64_MAX);
  }

  /** The text before the remark that the source is cut. */
  lemma HintBeforeRemark(open: string, notes: Notes, truncated: string, text: string)
    requires Ended(text) && NoBreak(truncated) && notes.truncated == truncated + "\n"
    ensures ReadHint(open, notes, text + notes.truncated) == HintAtEnd(open, text)
  {
    LastLineIs(text, truncated);
    assert (text + notes.truncated)[..|text|] == text;
  }

  lemma PrintedHint(open: string, notes: Notes, limit: string, truncated: string, page: string, n: nat, cut: bool)
    requires RemarksAre(open, notes, limit, truncated) && NoBreak(open) && Ended(page) && n <= U64_MAX
    ensures ReadHint(open, notes, page + (open + Decimal(n) + "]\n") + if cut then notes.truncated else "") == Some(n)
  {
    var line := open + Decimal(n) + "]";
    HintLineIs(open, n);
    HintLineReads(open, n);
    hide Decimal, ParseUint;
    LineHint(open, notes, truncated, page, line, cut);
  }

  lemma HintLineIs(open: string, n: nat)
    requires NoBreak(open)
    ensures var line := open + Decimal(n) + "]";
            NoBreak(line) && open <= line && open + Decimal(n) + "]\n" == line + "\n"
  {
    assert forall i :: 0 <= i < |Decimal(n)| ==> IsDigit(Decimal(n)[i]);
  }

  /** A last line that starts like a hint is read as one. */
  lemma LineHint(open: string, notes: Notes, truncated: string, page: string, line: string, cut: bool)
    requires NoBreak(truncated) && notes.truncated == truncated + "\n" && !(open <= truncated)
    requires Ended(page) && NoBreak(line) && open <= line
    ensures ReadHint(open, notes, page + (line + "\n") + if cut then notes.truncated else "") == HintIn(open, line)
  {
    var text := page + (line + "\n");
    LastLineIs(page, line);
    if cut {
      HintBeforeRemark(open, notes, truncated, text);
    } else {
      assert text + "" == text;
      assert (line + "\n")[..|line|] == line && (truncated + "\n")[..|truncated|] == truncated;
    }
  }

  lemma NoHint(open: string, notes: Notes, limit: string, truncated: string, page: string, cut: bool)
    requires RemarksAre(open, notes, limit, truncated) && Quiet(open, notes, page)
    ensures ReadHint(open, notes, page + "" + if cut then notes.truncated else "") == None
  {
    QuietHasNoHint(open, notes, page);
    assert page + "" == page;
    if cut {
      HintBeforeRemark(open, notes, truncated, page);
    }
  }

  /** An answer carries a hint exactly if lines are left, and the number in it is the line number
      whose request is answered with the page that starts where this one ends. */
  lemma HintReadsBack(notes: Notes, lines: seq<string>, from: nat, count: nat, truncated: bool)
    requires Readable(HINT_OPEN, notes) && NoBreaks(lines) && |lines| <= U64_MAX
    ensures var next := Next(lines, from, count);
            ReadHint(HINT_OPEN, notes, Answer(notes, lines, from, count, truncated))
            == if next < |lines| then Some(next + 1) else None
  {
    hide *;
    var page, next := Render(notes.limit, lines, Page(lines, from, count, 0)), Next(lines, from, count);
    AnswerParts(notes, lines, from, count, truncated);
    HintIs(lines, next);
    HintOpenIs();
    var limit, remark := Remarks(HINT_OPEN, notes);
    RenderIsQuiet(HINT_OPEN, notes, lines, Page(lines, from, count, 0));
    QuietIsEnded(HINT_OPEN, notes, page);
    if next < |lines| {
      PrintedHint(HINT_OPEN, notes, limit, remark, page, next + 1, truncated);
    } else {
      NoHint(HINT_OPEN, notes, limit, remark, page, truncated);
    }
  }

  lemma AnswerParts(notes: Notes, lines: seq<string>, from: nat, count: nat, truncated: bool)
    ensures Answer(notes, lines, from, count, truncated)
            == Render(notes.limit, lines, Page(lines, from, count, 0)) + Hint(lines, Next(lines, from, count))
               + if truncated then notes.truncated else ""
  {
    hide Render, Page, Hint, Next;
  }


  lemma QuietIsEnded(open: string, notes: Notes, page: string)
    requires Quiet(open, notes, page)
    ensures Ended(page)
  {
  }

  lemma Remarks(open: string, notes: Notes) returns (limit: string, truncated: string)
    requires Readable(open, notes)
    ensures RemarksAre(open, notes, limit, truncated)
  {
    limit, truncated :| RemarksAre(open, notes, limit, truncated);
  }

  // ---------------------------------------------------------------- following the printed numbers

  /** What a reader gets who asks for line number `start` and then at every number printed, as long
      as it goes on. */
  function Follow(notes: Notes, lines: seq<string>, start: nat, count: nat, truncated: bool): seq<string>
    decreases |lines| - start
  {
    match Response(notes, lines, start, count, truncated)
    case Err(_) => []
    case Ok(answer) =>
      match ReadHint(HINT_OPEN, notes, answer)
      case None => [answer]
      case Some(n) =>
        if start < n <= |lines| then [answer] + Follow(notes, lines, n, count, truncated) else [answer]
  }

  /** The answer that page `items` of a walk is printed as. */
  function Printed(notes: Notes, lines: seq<string>, items: seq<Item>, truncated: bool): string {
    Closed(notes, Render(notes.limit, lines, items), lines,
           if items == [] then |lines| else items[0].line + |items|, truncated)
  }

  lemma FollowStep(notes: Notes, lines: seq<string>, from: nat, count: nat, truncated: bool)
    requires Readable(HINT_OPEN, notes) && NoBreaks(lines) && |lines| <= U64_MAX
    requires 0 < count <= 1000 && from < |lines|
    ensures var answer, next := Answer(notes, lines, from, count, truncated), Next(lines, from, count);
            && from < next
            && Follow(notes, lines, from + 1, count, truncated)
               == [answer] + (if next < |lines| then Follow(notes, lines, next + 1, count, truncated) else [])
            && answer == Printed(notes, lines, Page(lines, from, count, 0), truncated)
  {
    hide *;
    var answer, next := Answer(notes, lines, from, count, truncated), Next(lines, from, count);
    HintReadsBack(notes, lines, from, count, truncated);
    NextIsLater(notes, lines, from, count, truncated);
    AnswerIsPrinted(notes, lines, from, count, truncated);
    FollowOn(notes, lines, from + 1, count, truncated, answer, if next < |lines| then Some(next + 1) else None);
  }

  lemma NextIsLater(notes: Notes, lines: seq<string>, from: nat, count: nat, truncated: bool)
    requires 0 < count <= 1000 && from < |lines|
    ensures from < Next(lines, from, count) <= |lines|
    ensures Response(notes, lines, from + 1, count, truncated) == Ok(Answer(notes, lines, from, count, truncated))
  {
    hide Answer;
    PageEnds(lines, from, count, 0);
  }

  lemma FollowOn(notes: Notes, lines: seq<string>, start: nat, count: nat, truncated: bool,
                 answer: string, hint: Option<nat>)
    requires Response(notes, lines, start, count, truncated) == Ok(answer)
    requires ReadHint(HINT_OPEN, notes, answer) == hint && (hint.Some? ==> start < hint.value <= |lines|)
    ensures Follow(notes, lines, start, count, truncated)
            == [answer] + (if hint.Some? then Follow(notes, lines, hint.value, count, truncated) else [])
  {
    hide Response, ReadHint;
    assert [answer] + [] == [answer];
  }

  lemma AnswerIsPrinted(notes: Notes, lines: seq<string>, from: nat, count: nat, truncated: bool)
    requires count > 0 && from < |lines|
    ensures Answer(notes, lines, from, count, truncated)
            == Printed(notes, lines, Page(lines, from, count, 0), truncated)
  {
    hide Render, Closed;
    PageEnds(lines, from, count, 0);
    PageShows(notes.limit, lines, from, count, 0, 0);
  }

  /** The walk is what a reader gets by the printed numbers: the answers are its pages, one by one. */
  lemma {:induction false} FollowIsWalk(notes: Notes, lines: seq<string>, from: nat, count: nat, truncated: bool)
    requires Readable(HINT_OPEN, notes) && NoBreaks(lines) && |lines| <= U64_MAX
    requires 0 < count <= 1000 && from < |lines|
    ensures var answers, pages := Follow(notes, lines, from + 1, count, truncated), Walk(lines, from, count);
            && |answers| == |pages|
            && forall p :: 0 <= p < |pages| ==> answers[p] == Printed(notes, lines, pages[p], truncated)
    decreases |lines| - from
  {
    hide *;
    var next := Next(lines, from, count);
    FollowStep(notes, lines, from, count, truncated);
    WalkFirst(lines, from, count);
    if next < |lines| {
      FollowIsWalk(notes, lines, next, count, truncated);
    } else {
      WalkBeyond(lines, next, count);
    }
  }

  lemma WalkFirst(lines: seq<string>, from: nat, count: nat)
    requires count > 0 && from < |lines|
    ensures Walk(lines, from, count) == [Page(lines, from, count, 0)] + Walk(lines, Next(lines, from, count), count)
  {
    hide Page;
  }

  // ---------------------------------------------------------------- reading the numbers

  /** A number, a colon, a blank and the rest. */
  function ReadNumbered(line: string): Option<(nat, string)> {
    match First(line, ':')
    case None => None
    case Some(i) =>
      match ParseUint(line[..i], U64_MAX)
      case None => None
      case Some(n) => if i + 2 <= |line| then Some((n, line[i + 2..])) else None
  }

  /** Each line of a page, read for its number and text. */
  function ReadLines(page: string): seq<Option<(nat, string)>> {
    match First(page, '\n')
    case None => []
    case Some(i) => [ReadNumbered(page[..i])] + ReadLines(page[i + 1..])
  }

  /** The number printed before a line is its place in the source, counted from one. */
  lemma NumberReadsBack(i: nat, text: string)
    requires i < U64_MAX
    ensures ReadNumbered(Decimal(i + 1) + ": " + text) == Some((i + 1, text))
  {
    var d := Decimal(i + 1);
    var line := d + ": " + text;
    assert forall j :: 0 <= j < |d| ==> IsDigit(d[j]);
    assert line == d + [':'] + (" " + text);
    FirstAt(d, ':', " " + text);
    assert line[..|d|] == d && line[|d| + 2..] == text;
    ParseOfDecimal(i + 1, U64_MAX);
  }

  lemma FirstLineReads(i: nat, text: string, rest: string)
    requires i < U64_MAX && NoBreak(text)
    ensures ReadLines(NumberedLine(i, text) + rest) == [Some((i + 1, text))] + ReadLines(rest)
  {
    var line := Decimal(i + 1) + ": " + text;
    var page := NumberedLine(i, text) + rest;
    NumberedIs(i, text);
    NumberReadsBack(i, text);
    hide NumberedLine, ReadNumbered, Decimal;
    assert page == line + ['\n'] + rest;
    FirstAt(line, '\n', rest);
    assert page[..|line|] == line && page[|line| + 1..] == rest;
  }

  function Numbered(lines: seq<string>, items: seq<Item>): (r: seq<Option<(nat, string)>>)
    requires forall i :: 0 <= i < |items| ==> items[i].line < |lines|
    ensures |r| == |items|
    ensures forall i :: 0 <= i < |items| ==> r[i] == Some((items[i].line + 1, lines[items[i].line]))
  {
    seq(|items|, i requires 0 <= i < |items| => Some((items[i].line + 1, lines[items[i].line])))
  }

  /** A page without a cut line reads back as the source lines it stands for, with their numbers. */
  lemma {:induction false} PageReadsBack(note: string, lines: seq<string>, items: seq<Item>)
    requires NoBreaks(lines) && |lines| <= U64_MAX
    requires forall i :: 0 <= i < |items| ==> items[i].line < |lines| && items[i].cut.None?
    ensures ReadLines(Render(note, lines, items)) == Numbered(lines, items)
    decreases |items|
  {
    hide *;
    if items == [] {
      NothingReads(note, lines, items);
    } else {
      PageReadsFirst(note, lines, items);
      PageReadsBack(note, lines, items[1..]);
      NumberedFirst(lines, items);
    }
  }

  lemma NothingReads(note: string, lines: seq<string>, items: seq<Item>)
    requires items == []
    ensures ReadLines(Render(note, lines, items)) == Numbered(lines, items)
  {
    assert ReadLines(Render(note, lines, items)) == [];
  }

  lemma NumberedFirst(lines: seq<string>, items: seq<Item>)
    requires items != [] && forall i :: 0 <= i < |items| ==> items[i].line < |lines|
    ensures Numbered(lines, items)
            == [Some((items[0].line + 1, lines[items[0].line]))] + Numbered(lines, items[1..])
  {
  }

  lemma PageReadsFirst(note: string, lines: seq<string>, items: seq<Item>)
    requires NoBreaks(lines) && |lines| <= U64_MAX
    requires items != [] && items[0].line < |lines| && items[0].cut.None?
    ensures ReadLines(Render(note, lines, items))
            == [Some((items[0].line + 1, lines[items[0].line]))] + ReadLines(Render(note, lines, items[1..]))
  {
    hide ReadLines, Render, NumberedLine;
    var n := items[0].line;
    FirstLineReads(n, lines[n], Render(note, lines, items[1..]));
    RenderWhole(note, lines, items);
  }

  lemma RenderWhole(note: string, lines: seq<string>, items: seq<Item>)
    requires items != [] && items[0].line < |lines| && items[0].cut.None?
    ensures Render(note, lines, items)
            == NumberedLine(items[0].line, lines[items[0].line]) + Render(note, lines, items[1..])
  {
    hide NumberedLine;
  }
}
