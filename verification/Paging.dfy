/** The inspection pager: how a source is cut into pages, and what following its hints shows.
    Here a `char` is one character; its UTF-8 width is explicit, since the limit counts bytes. */
module Paging {
  import opened Options
  import Text

  const PAGE_BYTES: nat := 64 * 1024
  const MAX_BYTES: nat := 16 * 1024 * 1024

  /** The two remarks a page can carry: that the byte limit is reached, that the source is cut. */
  datatype Notes = Notes(limit: string, truncated: string)

  const LIMIT_LINE := "[Page byte limit reached;" + " narrow the search or diff.]"
  const TRUNCATED_LINE := "[Source truncated at 16 MiB;" + " inspect a narrower path.]"
  const LIMIT_NOTE := "\n" + (LIMIT_LINE + "\n")
  const TRUNCATED_NOTE := TRUNCATED_LINE + "\n"
  const NOTES := Notes(LIMIT_NOTE, TRUNCATED_NOTE)

  /** The arguments ask for line 0, no lines or more than 1000 lines. */
  datatype Refusal = BadRange

  function Width(c: char): (w: nat)
    ensures 1 <= w <= 4
  {
    if c as int < 0x80 then 1 else if c as int < 0x800 then 2 else if c as int < 0x1_0000 then 3 else 4
  }

  /** The byte offset of character `k`, as `char_indices` gives it. */
  function Offset(s: string, k: nat): nat
    requires k <= |s|
  {
    if k == 0 then 0 else Offset(s, k - 1) + Width(s[k - 1])
  }

  /** The UTF-8 length of a string. */
  function Bytes(s: string): nat {
    Offset(s, |s|)
  }

  function Room(used: nat): nat {
    if used <= PAGE_BYTES then PAGE_BYTES - used else 0
  }

  /** How many characters of a line are kept: up to the last character start within the room. */
  function CutFrom(line: string, room: nat, k: nat): (r: nat)
    ensures k <= r && (k <= |line| ==> r <= |line|)
    decreases |line| - k
  {
    if k + 1 < |line| && Offset(line, k + 1) <= room then CutFrom(line, room, k + 1) else k
  }

  /** One line on a page: whole, or cut after some characters because the page is full. */
  datatype Item = Item(line: nat, cut: Option<nat>)

  function NumberedLine(i: nat, line: string): string {
    Text.Decimal(i + 1) + ": " + line + "\n"
  }

  function Show(note: string, lines: seq<string>, item: Item): string {
    if item.line >= |lines| then ""
    else
      var line := lines[item.line];
      match item.cut
      case None => NumberedLine(item.line, line)
      case Some(k) => if k <= |line| then line[..k] + note else ""
  }

  function Render(note: string, lines: seq<string>, items: seq<Item>): string {
    if items == [] then "" else Show(note, lines, items[0]) + Render(note, lines, items[1..])
  }

  /** The page that starts at line `from` with `used` bytes already on it. */
  function Page(lines: seq<string>, from: nat, count: nat, used: nat): seq<Item>
    decreases count
  {
    if count == 0 || from >= |lines| then []
    else if used + Bytes(lines[from]) > PAGE_BYTES then
      [Item(from, Some(CutFrom(lines[from], Room(used), 0)))]
    else
      [Item(from, None)] + Page(lines, from + 1, count - 1, used + Bytes(NumberedLine(from, lines[from])))
  }

  function Next(lines: seq<string>, from: nat, count: nat): nat {
    from + |Page(lines, from, count, 0)|
  }

  const HINT_OPEN := "[More output: use start_line="

  function Hint(lines: seq<string>, next: nat): string {
    if next < |lines| then HINT_OPEN + Text.Decimal(next + 1) + "]\n" else ""
  }

  function Closed(notes: Notes, page: string, lines: seq<string>, next: nat, truncated: bool): string {
    page + Hint(lines, next) + if truncated then notes.truncated else ""
  }

  function Answer(notes: Notes, lines: seq<string>, from: nat, count: nat, truncated: bool): string {
    Closed(notes, Render(notes.limit, lines, Page(lines, from, count, 0)), lines, Next(lines, from, count), truncated)
  }

  // ---------------------------------------------------------------- bytes

  lemma {:induction false} OffsetInPrefix(a: string, b: string, k: nat)
    requires k <= |a|
    ensures Offset(a + b, k) == Offset(a, k)
  {
    if k > 0 {
      OffsetInPrefix(a, b, k - 1);
    }
  }

  lemma {:induction false} OffsetPast(a: string, b: string, k: nat)
    requires k <= |b|
    ensures Offset(a + b, |a| + k) == Bytes(a) + Offset(b, k)
  {
    if k == 0 {
      OffsetInPrefix(a, b, |a|);
    } else {
      OffsetPast(a, b, k - 1);
    }
  }

  lemma BytesJoin(a: string, b: string)
    ensures Bytes(a + b) == Bytes(a) + Bytes(b)
  {
    OffsetPast(a, b, |b|);
  }

  lemma BytesOfPrefix(s: string, k: nat)
    requires k <= |s|
    ensures Bytes(s[..k]) == Offset(s, k)
  {
    assert s[..k] + s[k..] == s;
    OffsetInPrefix(s[..k], s[k..], k);
  }

  lemma {:induction false} OffsetsGrow(s: string, i: nat, j: nat)
    requires i <= j <= |s|
    ensures Offset(s, i) + (j - i) <= Offset(s, j)
    decreases j - i
  {
    if i < j {
      OffsetsGrow(s, i, j - 1);
    }
  }

  lemma {:induction false} CutFromIs(line: string, room: nat, k: nat)
    requires k < |line| && Offset(line, k) <= room < Bytes(line)
    ensures var r := CutFrom(line, room, k);
            k <= r < |line| && Offset(line, r) <= room < Offset(line, r + 1)
    decreases |line| - k
  {
    if k + 1 < |line| && Offset(line, k + 1) <= room {
      CutFromIs(line, room, k + 1);
    }
  }

  /** The cut keeps the longest run of whole characters that fits the room. */
  lemma CutIsLongest(line: string, room: nat, j: nat)
    requires (line == "" || Bytes(line) > room) && j <= |line|
    ensures Bytes(line[..j]) <= room <==> j <= CutFrom(line, room, 0)
  {
    if line == "" {
      return;
    }
    CutFromIs(line, room, 0);
    BytesOfPrefix(line, j);
    var k := CutFrom(line, room, 0);
    if j <= k {
      OffsetsGrow(line, j, k);
    } else {
      OffsetsGrow(line, k + 1, j);
    }
  }

  // ---------------------------------------------------------------- the loop

  /** The page text that results when `left` more lines are taken from line `next`. */
  function Rest(note: string, lines: seq<string>, page: string, next: nat, left: nat): string {
    page + Render(note, lines, Page(lines, next, left, Bytes(page)))
  }

  function End(lines: seq<string>, page: string, next: nat, left: nat): nat {
    next + |Page(lines, next, left, Bytes(page))|
  }

  lemma RenderFirst(note: string, lines: seq<string>, item: Item, rest: seq<Item>)
    ensures Render(note, lines, [item] + rest) == Show(note, lines, item) + Render(note, lines, rest)
  {
    assert ([item] + rest)[1..] == rest;
  }

  lemma PageWhole(lines: seq<string>, from: nat, left: nat, used: nat)
    requires left > 0 && from < |lines| && used + Bytes(lines[from]) <= PAGE_BYTES
    ensures Page(lines, from, left, used)
            == [Item(from, None)] + Page(lines, from + 1, left - 1, used + Bytes(NumberedLine(from, lines[from])))
  {
  }

  lemma Assoc(a: string, b: string, c: string)
    ensures (a + b) + c == a + (b + c)
  {
  }

  lemma WholeLine(note: string, lines: seq<string>, page: string, next: nat, left: nat)
    requires left > 0 && next < |lines| && Bytes(page) + Bytes(lines[next]) <= PAGE_BYTES
    ensures var longer := page + NumberedLine(next, lines[next]);
            && Rest(note, lines, page, next, left) == Rest(note, lines, longer, next + 1, left - 1)
            && End(lines, page, next, left) == End(lines, longer, next + 1, left - 1)
  {
    var text, item := NumberedLine(next, lines[next]), Item(next, None);
    var rest := Page(lines, next + 1, left - 1, Bytes(page + text));
    assert Page(lines, next, left, Bytes(page)) == [item] + rest by {
      BytesJoin(page, text);
      PageWhole(lines, next, left, Bytes(page));
    }
    assert Render(note, lines, [item] + rest) == text + Render(note, lines, rest) by {
      RenderFirst(note, lines, item, rest);
    }
    Assoc(page, text, Render(note, lines, rest));
  }

  lemma CutLine(note: string, lines: seq<string>, page: string, next: nat, left: nat)
    requires left > 0 && next < |lines| && Bytes(page) + Bytes(lines[next]) > PAGE_BYTES
    ensures var k := CutFrom(lines[next], Room(Bytes(page)), 0);
            && k <= |lines[next]|
            && Rest(note, lines, page, next, left) == page + (lines[next][..k] + note)
            && End(lines, page, next, left) == next + 1
  {
    var k := CutFrom(lines[next], Room(Bytes(page)), 0);
    var item := Item(next, Some(k));
    assert [item] + [] == [item];
    RenderFirst(note, lines, item, []);
    assert Show(note, lines, item) + "" == Show(note, lines, item);
  }

  lemma NoLine(note: string, lines: seq<string>, page: string, next: nat, left: nat)
    requires left == 0 || next >= |lines|
    ensures Rest(note, lines, page, next, left) == page && End(lines, page, next, left) == next
  {
    assert page + "" == page;
  }

  /** What the loop leaves: the rendered page, and the line after its last item. */
  predicate Filled(note: string, lines: seq<string>, from: nat, count: nat, page: string, next: nat) {
    page == Render(note, lines, Page(lines, from, count, 0)) && next == Next(lines, from, count)
  }

  lemma AnswerIs(notes: Notes, lines: seq<string>, from: nat, count: nat, truncated: bool, page: string, next: nat)
    requires Filled(notes.limit, lines, from, count, page, next)
    ensures Closed(notes, page, lines, next, truncated) == Answer(notes, lines, from, count, truncated)
  {
  }

  /** The loop as a function: the page text and the next line once `left` lines are taken. */
  function Fill(note: string, lines: seq<string>, page: string, next: nat, left: nat): (string, nat)
    decreases left
  {
    if left == 0 || next >= |lines| then (page, next)
    else if Bytes(page) + Bytes(lines[next]) > PAGE_BYTES then
      (page + (lines[next][..CutFrom(lines[next], Room(Bytes(page)), 0)] + note), next + 1)
    else Fill(note, lines, page + NumberedLine(next, lines[next]), next + 1, left - 1)
  }

  /** No more whole line is drawn. */
  predicate Ends(lines: seq<string>, page: string, next: nat, left: nat) {
    left == 0 || next >= |lines| || Bytes(page) + Bytes(lines[next]) > PAGE_BYTES
  }

  lemma FillEnds(note: string, lines: seq<string>, page: string, next: nat, left: nat)
    requires Ends(lines, page, next, left)
    ensures Fill(note, lines, page, next, left).0 == Rest(note, lines, page, next, left)
    ensures Fill(note, lines, page, next, left).1 == End(lines, page, next, left)
  {
    if left == 0 || next >= |lines| {
      NoLine(note, lines, page, next, left);
    } else {
      CutLine(note, lines, page, next, left);
    }
  }

  /** One whole line leads to a longer page that goes on in the same way. */
  lemma FillWhole(note: string, lines: seq<string>, page: string, next: nat, left: nat) returns (longer: string)
    requires !Ends(lines, page, next, left)
    ensures Fill(note, lines, page, next, left) == Fill(note, lines, longer, next + 1, left - 1)
    ensures Rest(note, lines, page, next, left) == Rest(note, lines, longer, next + 1, left - 1)
    ensures End(lines, page, next, left) == End(lines, longer, next + 1, left - 1)
  {
    WholeLine(note, lines, page, next, left);
    longer := page + NumberedLine(next, lines[next]);
  }

  lemma {:induction false} FillIs(note: string, lines: seq<string>, page: string, next: nat, left: nat,
                                  text: string, last: nat, rest: string, end: nat)
    requires Fill(note, lines, page, next, left) == (text, last)
    requires rest == Rest(note, lines, page, next, left) && end == End(lines, page, next, left)
    ensures text == rest && last == end
    decreases left
  {
    hide Rest, End, Fill, NumberedLine, Bytes, Render, Page;
    if Ends(lines, page, next, left) {
      FillEnds(note, lines, page, next, left);
    } else {
      var longer := FillWhole(note, lines, page, next, left);
      FillIs(note, lines, longer, next + 1, left - 1, text, last, rest, end);
    }
  }

  lemma FillIsPage(note: string, lines: seq<string>, from: nat, count: nat, page: string, next: nat)
    requires Fill(note, lines, "", from, count) == (page, next)
    ensures Filled(note, lines, from, count, page, next)
  {
    FillIs(note, lines, "", from, count, page, next, Rest(note, lines, "", from, count), End(lines, "", from, count));
    assert "" + Render(note, lines, Page(lines, from, count, 0)) == Render(note, lines, Page(lines, from, count, 0));
  }

  method FillPage(note: string, lines: seq<string>, from: nat, count: nat) returns (page: string, next: nat)
    ensures Filled(note, lines, from, count, page, next)
  {
    page, next := "", from;
    var taken := 0;
    while taken < count
      invariant taken <= count
      invariant Fill(note, lines, page, next, count - taken) == Fill(note, lines, "", from, count)
    {
      if next >= |lines| {
        break;
      }
      var line := lines[next];
      if Bytes(page) + Bytes(line) > PAGE_BYTES {
        var end := CutFrom(line, Room(Bytes(page)), 0);
        page, next := page + (line[..end] + note), next + 1;
        break;
      }
      page, next, taken := page + NumberedLine(next, line), next + 1, taken + 1;
    }
    FillIsPage(note, lines, from, count, page, next);
  }

  /** What a request for `count` lines from line number `start` on is answered with. */
  function Response(notes: Notes, lines: seq<string>, start: nat, count: nat, truncated: bool): Result<string, Refusal>
  {
    if start == 0 || count == 0 || count > 1000 then Err(BadRange)
    else Ok(Answer(notes, lines, start - 1, count, truncated))
  }

  method Inspect(notes: Notes, lines: seq<string>, start: nat, count: nat, truncated: bool)
    returns (r: Result<string, Refusal>)
    ensures r == Response(notes, lines, start, count, truncated)
  {
    if start == 0 || count == 0 || count > 1000 {
      return Err(BadRange);
    }
    var page, next := FillPage(notes.limit, lines, start - 1, count);
    AnswerIs(notes, lines, start - 1, count, truncated, page, next);
    r := Ok(Closed(notes, page, lines, next, truncated));
  }

  // ---------------------------------------------------------------- what a page shows

  /** `k` characters are the longest run of whole characters of `line` that fits the room. */
  ghost predicate IsLongestFit(line: string, room: nat, k: nat) {
    forall j :: 0 <= j <= |line| ==> (Bytes(line[..j]) <= room <==> j <= k)
  }

  /** Item `i` of a page is the next line: whole if it fits, else its longest fit and the last item. */
  ghost predicate Shown(note: string, lines: seq<string>, from: nat, used: nat, items: seq<Item>, i: nat) {
    && i < |items| && items[i].line == from + i < |lines|
    && var line, before := lines[from + i], used + Bytes(Render(note, lines, items[..i]));
       match items[i].cut
       case None => before + Bytes(line) <= PAGE_BYTES
       case Some(k) => before + Bytes(line) > PAGE_BYTES && i == |items| - 1 && IsLongestFit(line, Room(before), k)
  }

  lemma LongestFit(line: string, used: nat)
    requires used + Bytes(line) > PAGE_BYTES
    ensures IsLongestFit(line, Room(used), CutFrom(line, Room(used), 0))
  {
    OffsetsGrow(line, 0, |line|);
    forall j | 0 <= j <= |line| ensures Bytes(line[..j]) <= Room(used) <==> j <= CutFrom(line, Room(used), 0) {
      CutIsLongest(line, Room(used), j);
    }
  }

  lemma UsedBefore(note: string, lines: seq<string>, item: Item, rest: seq<Item>, i: nat)
    requires i <= |rest|
    ensures Bytes(Render(note, lines, ([item] + rest)[..i + 1]))
            == Bytes(Show(note, lines, item)) + Bytes(Render(note, lines, rest[..i]))
  {
    assert ([item] + rest)[..i + 1] == [item] + rest[..i];
    RenderFirst(note, lines, item, rest[..i]);
    BytesJoin(Show(note, lines, item), Render(note, lines, rest[..i]));
  }

  lemma ShownLater(note: string, lines: seq<string>, from: nat, used: nat, item: Item, rest: seq<Item>, i: nat)
    requires Shown(note, lines, from + 1, used + Bytes(Show(note, lines, item)), rest, i)
    ensures Shown(note, lines, from, used, [item] + rest, i + 1)
  {
    UsedBefore(note, lines, item, rest, i);
    assert ([item] + rest)[i + 1] == rest[i];
  }

  lemma ShowWhole(note: string, lines: seq<string>, from: nat)
    requires from < |lines|
    ensures Show(note, lines, Item(from, None)) == NumberedLine(from, lines[from])
  {
  }

  lemma ShownAfterWhole(note: string, lines: seq<string>, from: nat, used: nat, text: string,
                        items: seq<Item>, rest: seq<Item>, i: nat)
    requires text == Show(note, lines, Item(from, None)) && items == [Item(from, None)] + rest
    requires Shown(note, lines, from + 1, used + Bytes(text), rest, i)
    ensures Shown(note, lines, from, used, items, i + 1)
  {
    ShownLater(note, lines, from, used, Item(from, None), rest, i);
  }

  lemma FirstShown(note: string, lines: seq<string>, from: nat, count: nat, used: nat)
    requires count > 0 && from < |lines|
    ensures Shown(note, lines, from, used, Page(lines, from, count, used), 0)
  {
    assert Page(lines, from, count, used)[..0] == [];
    if used + Bytes(lines[from]) > PAGE_BYTES {
      LongestFit(lines[from], used);
    }
  }

  /** Past the first item a page is one that starts at the next line with more bytes used. */
  lemma LaterShown(note: string, lines: seq<string>, from: nat, count: nat, used: nat, i: nat) returns (longer: nat)
    requires 0 < i < |Page(lines, from, count, used)|
    ensures count > 0 && i - 1 < |Page(lines, from + 1, count - 1, longer)|
    ensures Shown(note, lines, from + 1, longer, Page(lines, from + 1, count - 1, longer), i - 1) ==>
              Shown(note, lines, from, used, Page(lines, from, count, used), i)
  {
    var text := NumberedLine(from, lines[from]);
    longer := used + Bytes(text);
    var items, rest := Page(lines, from, count, used), Page(lines, from + 1, count - 1, longer);
    PageWhole(lines, from, count, used);
    ShowWhole(note, lines, from);
    hide *;
    if Shown(note, lines, from + 1, longer, rest, i - 1) {
      ShownAfterWhole(note, lines, from, used, text, items, rest, i - 1);
    }
  }

  lemma {:induction false} PageShows(note: string, lines: seq<string>, from: nat, count: nat, used: nat, i: nat)
    requires i < |Page(lines, from, count, used)|
    ensures Shown(note, lines, from, used, Page(lines, from, count, used), i)
    decreases count
  {
    if i == 0 {
      FirstShown(note, lines, from, count, used);
    } else {
      var longer := LaterShown(note, lines, from, count, used, i);
      PageShows(note, lines, from + 1, count - 1, longer, i - 1);
    }
  }

  /** Of a cut line exactly the beginnings are shown that end within the page's limit, or are empty. */
  lemma CutFills(note: string, lines: seq<string>, from: nat, count: nat, i: nat, j: nat)
    requires i < |Page(lines, from, count, 0)| && Page(lines, from, count, 0)[i].cut.Some?
    requires from + i < |lines| && j <= |lines[from + i]|
    ensures var items, line := Page(lines, from, count, 0), lines[from + i];
            j <= items[i].cut.value
            <==> j == 0 || Bytes(Render(note, lines, items[..i])) + Bytes(line[..j]) <= PAGE_BYTES
  {
    PageShows(note, lines, from, count, 0, i);
    BytesOfPrefix(lines[from + i], j);
    OffsetsGrow(lines[from + i], 0, j);
    hide Page, Render;
  }

  /** A page ends because its lines are taken, the source is out, or its last line is cut. */
  lemma {:induction false} PageEnds(lines: seq<string>, from: nat, count: nat, used: nat)
    requires from <= |lines|
    ensures var items := Page(lines, from, count, used);
            && |items| <= count && from + |items| <= |lines|
            && (count > 0 && from < |lines| ==> items != [])
            && (|items| == count || from + |items| == |lines| || items[|items| - 1].cut.Some?)
    decreases count
  {
    if count > 0 && from < |lines| && used + Bytes(lines[from]) <= PAGE_BYTES {
      PageEnds(lines, from + 1, count - 1, used + Bytes(NumberedLine(from, lines[from])));
    }
  }

  // ---------------------------------------------------------------- following the hints

  /** The pages got by asking for line `from` and then following each page's hint. */
  function Walk(lines: seq<string>, from: nat, count: nat): seq<seq<Item>>
    requires count > 0
    decreases |lines| - from
  {
    if from >= |lines| then []
    else
      PageEnds(lines, from, count, 0);
      [Page(lines, from, count, 0)] + Walk(lines, Next(lines, from, count), count)
  }

  function Flat(pages: seq<seq<Item>>): seq<Item> {
    if pages == [] then [] else pages[0] + Flat(pages[1..])
  }

  /** Following the hints ends, and visits every remaining line exactly once, in order. */
  lemma {:induction false} WalkCovers(lines: seq<string>, from: nat, count: nat)
    requires count > 0 && from <= |lines|
    ensures var items := Flat(Walk(lines, from, count));
            |items| == |lines| - from && forall i :: 0 <= i < |items| ==> items[i].line == from + i
    decreases |lines| - from
  {
    if from < |lines| {
      var page, next := Page(lines, from, count, 0), Next(lines, from, count);
      PageEnds(lines, from, count, 0);
      WalkCovers(lines, next, count);
      assert Walk(lines, from, count)[1..] == Walk(lines, next, count);
      forall i | 0 <= i < |page| ensures page[i].line == from + i {
        PageShows("", lines, from, count, 0, i);
      }
    }
  }

  /** Every page of the walk is one the pager draws, so `PageShows` describes each of its items. */
  lemma {:induction false} WalkPages(note: string, lines: seq<string>, from: nat, count: nat, p: nat)
    requires count > 0 && p < |Walk(lines, from, count)|
    ensures var page := Walk(lines, from, count)[p];
            page != [] && page == Page(lines, page[0].line, count, 0)
            && forall i :: 0 <= i < |page| ==> Shown(note, lines, page[0].line, 0, page, i)
    decreases |lines| - from
  {
    var page, next := Page(lines, from, count, 0), Next(lines, from, count);
    PageEnds(lines, from, count, 0);
    if p > 0 {
      assert Walk(lines, from, count)[p] == Walk(lines, next, count)[p - 1];
      WalkPages(note, lines, next, count, p - 1);
    } else {
      assert Walk(lines, from, count)[0] == page;
      forall i | 0 <= i < |page| ensures Shown(note, lines, from, 0, page, i) {
        PageShows(note, lines, from, count, 0, i);
      }
      assert Shown(note, lines, from, 0, page, 0);
    }
  }

  /** A line right after one that all but fills its page is skipped: nothing of it is on any page. */
  lemma LineVanishes(a: string, b: string, count: nat)
    requires PAGE_BYTES - 3 <= Bytes(a) <= PAGE_BYTES && count > 1
    ensures Walk([a, b], 0, count) == [[Item(0, None), Item(1, Some(0))]]
  {
    var lines, text := [a, b], NumberedLine(0, a);
    assert text == Text.Decimal(1) + (": " + (a + "\n"));
    BytesJoin(Text.Decimal(1), ": " + (a + "\n"));
    BytesJoin(": ", a + "\n");
    BytesJoin(a, "\n");
    OffsetsGrow(": ", 0, 2);
    OffsetsGrow("\n", 0, 1);
    OffsetsGrow(Text.Decimal(1), 0, |Text.Decimal(1)|);
    assert Bytes(text) > PAGE_BYTES;
    if 1 < |b| {
      OffsetsGrow(b, 0, 1);
    }
    assert CutFrom(b, 0, 0) == 0;
    PageWhole(lines, 0, count, 0);
    assert Page(lines, 1, count - 1, Bytes(text)) == [Item(1, Some(0))];
    assert Page(lines, 0, count, 0) == [Item(0, None), Item(1, Some(0))];
    assert Next(lines, 0, count) == 2 && Walk(lines, 2, count) == [];
  }

  // ---------------------------------------------------------------- which lines are shown whole

  /** The bytes of `k` numbered lines from line `from` on. */
  function Used(lines: seq<string>, from: nat, k: nat): nat
    requires from + k <= |lines|
  {
    if k == 0 then 0
    else Used(lines, from, k - 1) + Bytes(NumberedLine(from + k - 1, lines[from + k - 1]))
  }

  /** On a page that starts at `from`, line `from + i` fits behind the lines before it. */
  predicate Fits(lines: seq<string>, from: nat, i: nat) {
    from + i < |lines| && Used(lines, from, i) + Bytes(lines[from + i]) <= PAGE_BYTES
  }

  /** How many of the first `n` lines fit, one behind the other. */
  function FitCount(lines: seq<string>, from: nat, n: nat): (m: nat)
    ensures m <= n && (forall j :: 0 <= j < m ==> Fits(lines, from, j)) && (m < n ==> !Fits(lines, from, m))
  {
    if n == 0 then 0
    else
      var m := FitCount(lines, from, n - 1);
      if m == n - 1 && Fits(lines, from, m) then n else m
  }

  function AtMost(lines: seq<string>, from: nat, count: nat): nat {
    if from >= |lines| then 0 else if count <= |lines| - from then count else |lines| - from
  }

  function WholeItems(from: nat, k: nat): (items: seq<Item>)
    ensures |items| == k && forall j :: 0 <= j < k ==> items[j] == Item(from + j, None)
  {
    seq(k, j requires 0 <= j < k => Item(from + j, None))
  }

  lemma {:induction false} PageAfter(lines: seq<string>, from: nat, count: nat, k: nat)
    requires k <= count && from + k <= |lines| && forall j :: 0 <= j < k ==> Fits(lines, from, j)
    ensures Page(lines, from, count, 0)
            == WholeItems(from, k) + Page(lines, from + k, count - k, Used(lines, from, k))
  {
    if k == 0 {
      assert WholeItems(from, 0) == [];
    } else {
      PageAfter(lines, from, count, k - 1);
      assert Fits(lines, from, k - 1);
      PageAfterOne(lines, from, count, k);
      MoreWhole(from, k, Page(lines, from, count, 0),
                Page(lines, from + k - 1, count - (k - 1), Used(lines, from, k - 1)),
                Page(lines, from + k, count - k, Used(lines, from, k)));
    }
  }

  lemma PageAfterOne(lines: seq<string>, from: nat, count: nat, k: nat)
    requires 0 < k <= count && from + k <= |lines| && Fits(lines, from, k - 1)
    ensures Page(lines, from + k - 1, count - (k - 1), Used(lines, from, k - 1))
            == [Item(from + k - 1, None)] + Page(lines, from + k, count - k, Used(lines, from, k))
  {
    PageWhole(lines, from + k - 1, count - (k - 1), Used(lines, from, k - 1));
  }

  lemma MoreWhole(from: nat, k: nat, page: seq<Item>, last: seq<Item>, rest: seq<Item>)
    requires k > 0 && page == WholeItems(from, k - 1) + last && last == [Item(from + k - 1, None)] + rest
    ensures page == WholeItems(from, k) + rest
  {
  }

  /** What a page that starts at `from` ends with when line `from + m` does not fit. */
  function CutItem(lines: seq<string>, from: nat, m: nat): Item
    requires from + m < |lines|
  {
    Item(from + m, Some(CutFrom(lines[from + m], Room(Used(lines, from, m)), 0)))
  }

  /** A page in closed form: the lines that fit, and the next one cut if the page may hold it. */
  lemma PageIs(lines: seq<string>, from: nat, count: nat)
    ensures var n := AtMost(lines, from, count);
            var m := FitCount(lines, from, n);
            Page(lines, from, count, 0)
            == WholeItems(from, m) + if m < n then [CutItem(lines, from, m)] else []
  {
    var n := AtMost(lines, from, count);
    var m := FitCount(lines, from, n);
    if from < |lines| {
      PageAfter(lines, from, count, m);
      assert m < n ==> !Fits(lines, from, m);
    }
  }

  /** How many lines a page takes, from the sizes of the source's lines alone. */
  function Taken(lines: seq<string>, from: nat, count: nat): nat {
    var n := AtMost(lines, from, count);
    var m := FitCount(lines, from, n);
    if m < n then m + 1 else m
  }

  lemma TakenIs(lines: seq<string>, from: nat, count: nat)
    ensures |Page(lines, from, count, 0)| == Taken(lines, from, count)
    ensures count > 0 && from < |lines| ==> Taken(lines, from, count) > 0
  {
    PageIs(lines, from, count);
  }

  /** From `from` on in steps of `take`: the last place not after `n`. */
  function Skip(take: nat -> nat, from: nat, n: nat): nat
    decreases n - from
  {
    if take(from) == 0 || n < from + take(from) then from else Skip(take, from + take(from), n)
  }

  lemma {:induction false} SkipIs(take: nat -> nat, from: nat, n: nat, limit: nat)
    requires from <= n < limit && forall k: nat :: k < limit ==> take(k) > 0
    ensures var start := Skip(take, from, n); from <= start <= n < start + take(start)
    decreases n - from
  {
    if n >= from + take(from) {
      SkipIs(take, from + take(from), n, limit);
    }
  }

  function TakenBy(lines: seq<string>, count: nat): nat -> nat {
    (k: nat) => Taken(lines, k, count)
  }

  lemma TakenByIs(lines: seq<string>, count: nat)
    requires count > 0
    ensures forall k: nat :: k < |lines| ==> TakenBy(lines, count)(k) > 0
  {
    forall k: nat | k < |lines|
      ensures TakenBy(lines, count)(k) > 0
    {
      TakenIs(lines, k, count);
    }
  }

  /** The start of the page that shows line `n`, when the pages start at `from`. */
  function StartOf(lines: seq<string>, from: nat, count: nat, n: nat): (start: nat)
    requires count > 0 && from <= n < |lines|
    ensures from <= start <= n < start + Taken(lines, start, count)
  {
    TakenByIs(lines, count);
    SkipIs(TakenBy(lines, count), from, n, |lines|);
    Skip(TakenBy(lines, count), from, n)
  }

  /** Nothing of line `from + i` is shown: it does not fit, and not even its first character does,
      or it has no more than one. */
  predicate Hidden(lines: seq<string>, from: nat, i: nat) {
    && from + i < |lines| && !Fits(lines, from, i)
    && var line := lines[from + i];
       |line| <= 1 || Used(lines, from, i) + Width(line[0]) > PAGE_BYTES
  }

  lemma CutsToNothing(line: string, used: nat)
    ensures CutFrom(line, Room(used), 0) == 0 <==> |line| <= 1 || used + Width(line[0]) > PAGE_BYTES
  {
    if 1 < |line| {
      assert Offset(line, 1) == Offset(line, 0) + Width(line[0]);
    }
  }

  /** Item for line `n` on a page that starts at `start`. */
  predicate IsShown(lines: seq<string>, start: nat, n: nat, item: Item)
    requires start <= n
  {
    && item.line == n
    && (item.cut.None? <==> Fits(lines, start, n - start))
    && (item.cut == Some(0) <==> Hidden(lines, start, n - start))
  }

  lemma ItemOf(lines: seq<string>, from: nat, count: nat, i: nat)
    requires i < |Page(lines, from, count, 0)|
    ensures IsShown(lines, from, from + i, Page(lines, from, count, 0)[i])
  {
    PageIs(lines, from, count);
    var n := AtMost(lines, from, count);
    var m := FitCount(lines, from, n);
    if i == m {
      CutsToNothing(lines[from + m], Used(lines, from, m));
    } else {
      assert Fits(lines, from, i);
    }
  }

  /** Item `i` of `items` is item `j` of `page`. */
  predicate SameItem(items: seq<Item>, i: int, page: seq<Item>, j: int) {
    0 <= i < |items| && 0 <= j < |page| && items[i] == page[j]
  }

  /** Pages drawn one after the other, each where the one before ended. */
  function Chain(page: nat -> seq<Item>, from: nat, limit: nat): seq<seq<Item>>
    decreases limit - from
  {
    if from >= limit || page(from) == [] then []
    else [page(from)] + Chain(page, from + |page(from)|, limit)
  }

  lemma ChainFirst(page: nat -> seq<Item>, from: nat, limit: nat)
    requires from < limit && page(from) != []
    ensures Flat(Chain(page, from, limit)) == page(from) + Flat(Chain(page, from + |page(from)|, limit))
  {
    var rest := Chain(page, from + |page(from)|, limit);
    assert ([page(from)] + rest)[1..] == rest;
  }

  lemma {:induction false} ItemOnChain(page: nat -> seq<Item>, take: nat -> nat, from: nat, limit: nat, n: nat)
    requires from <= n < limit && forall k: nat :: k < limit ==> |page(k)| == take(k) && take(k) > 0
    ensures var start := Skip(take, from, n);
            start <= n && SameItem(Flat(Chain(page, from, limit)), n - from, page(start), n - start)
    decreases n - from
  {
    var next := from + take(from);
    ChainFirst(page, from, limit);
    if n >= next {
      ItemOnChain(page, take, next, limit, n);
    }
  }

  function PageBy(lines: seq<string>, count: nat): nat -> seq<Item> {
    (k: nat) => Page(lines, k, count, 0)
  }

  lemma {:induction false} WalkIsChain(lines: seq<string>, from: nat, count: nat)
    requires count > 0
    ensures Walk(lines, from, count) == Chain(PageBy(lines, count), from, |lines|)
    decreases |lines| - from
  {
    if from < |lines| {
      PageEnds(lines, from, count, 0);
      WalkIsChain(lines, Next(lines, from, count), count);
    }
  }

  lemma PageByIs(lines: seq<string>, count: nat)
    requires count > 0
    ensures forall k: nat :: k < |lines| ==>
              |PageBy(lines, count)(k)| == TakenBy(lines, count)(k) && TakenBy(lines, count)(k) > 0
  {
    forall k: nat | k < |lines|
      ensures |PageBy(lines, count)(k)| == TakenBy(lines, count)(k) && TakenBy(lines, count)(k) > 0
    {
      TakenIs(lines, k, count);
    }
  }

  /** On the walk, line `n` is what the page that holds it shows. */
  lemma ItemOnWalk(lines: seq<string>, from: nat, count: nat, n: nat, start: nat)
    requires count > 0 && from <= n < |lines| && start == Skip(TakenBy(lines, count), from, n)
    ensures start <= n
    ensures SameItem(Flat(Walk(lines, from, count)), n - from, PageBy(lines, count)(start), n - start)
  {
    hide *;
    PageByIs(lines, count);
    ItemOnChain(PageBy(lines, count), TakenBy(lines, count), from, |lines|, n);
    WalkIsChain(lines, from, count);
  }

  /** Following the hints, each line is shown whole exactly if it fits behind the lines of its page,
      and nothing of it is shown exactly if it is hidden there; where its page starts, what fits and
      what is hidden are known from the lengths of the source's lines. */
  lemma LineIsShown(lines: seq<string>, from: nat, count: nat, n: nat)
    requires count > 0 && from <= n < |lines|
    ensures var items, start := Flat(Walk(lines, from, count)), StartOf(lines, from, count, n);
            n - from < |items| && IsShown(lines, start, n, items[n - from])
  {
    var start := StartOf(lines, from, count, n);
    ItemOnWalk(lines, from, count, n, start);
    ItemOf(lines, start, count, n - start);
  }

  predicate AllWhole(pages: seq<seq<Item>>) {
    forall p, i :: 0 <= p < |pages| && 0 <= i < |pages[p]| ==> pages[p][i].cut.None?
  }

  /** In each block of `count` lines every line fits behind the numbered lines before it. */
  predicate AllFit(lines: seq<string>, from: nat, count: nat)
    requires count > 0
    decreases |lines| - from
  {
    from >= |lines|
    || ((forall i :: 0 <= i < count && from + i < |lines| ==> Fits(lines, from, i))
        && AllFit(lines, from + count, count))
  }

  lemma PageIsWholeIff(lines: seq<string>, from: nat, count: nat)
    requires count > 0 && from < |lines|
    ensures var page := Page(lines, from, count, 0);
            && ((forall i :: 0 <= i < |page| ==> page[i].cut.None?)
                <==> (forall i :: 0 <= i < count && from + i < |lines| ==> Fits(lines, from, i)))
            && ((forall i :: 0 <= i < |page| ==> page[i].cut.None?) ==> |page| == AtMost(lines, from, count))
  {
    PageIs(lines, from, count);
    var page, n := Page(lines, from, count, 0), AtMost(lines, from, count);
    var m := FitCount(lines, from, n);
    if m < n {
      assert page[m] == CutItem(lines, from, m) && !Fits(lines, from, m);
    }
  }

  lemma {:induction false} WalkBeyond(lines: seq<string>, from: nat, count: nat)
    requires count > 0 && from >= |lines|
    ensures Walk(lines, from, count) == []
  {
  }

  /** Following the hints shows every line whole exactly when every line fits its block. */
  lemma {:induction false} WalkIsWholeIff(lines: seq<string>, from: nat, count: nat)
    requires count > 0
    ensures AllWhole(Walk(lines, from, count)) <==> AllFit(lines, from, count)
    decreases |lines| - from
  {
    if from < |lines| {
      var page, next := Page(lines, from, count, 0), Next(lines, from, count);
      var rest := Walk(lines, next, count);
      PageEnds(lines, from, count, 0);
      PageIsWholeIff(lines, from, count);
      AllWholeFirst(page, rest);
      assert Walk(lines, from, count) == [page] + rest;
      if forall i :: 0 <= i < |page| ==> page[i].cut.None? {
        WalkIsWholeIff(lines, from + count, count);
        if next < from + count {
          WalkBeyond(lines, next, count);
          WalkBeyond(lines, from + count, count);
        }
      }
    }
  }

  lemma AllWholeFirst(page: seq<Item>, rest: seq<seq<Item>>)
    ensures AllWhole([page] + rest) <==> (forall i :: 0 <= i < |page| ==> page[i].cut.None?) && AllWhole(rest)
  {
    var all := [page] + rest;
    assert all[0] == page && forall p :: 0 <= p < |rest| ==> all[p + 1] == rest[p];
    if AllWhole(all) {
      forall p, i | 0 <= p < |rest| && 0 <= i < |rest[p]|
        ensures rest[p][i].cut.None?
      {
        assert all[p + 1][i].cut.None?;
      }
    }
  }

  // ---------------------------------------------------------------- how long a page is

  function Pow10(k: nat): nat {
    if k == 0 then 1 else 10 * Pow10(k - 1)
  }

  lemma {:induction false} DecimalLength(n: nat, k: nat)
    requires k > 0 && n < Pow10(k)
    ensures |Text.Decimal(n)| <= k
  {
    if n >= 10 {
      DecimalLength(n / 10, k - 1);
    }
  }

  lemma {:induction false} AsciiOffset(s: string, k: nat)
    requires k <= |s| && forall i :: 0 <= i < |s| ==> s[i] as int < 0x80
    ensures Offset(s, k) == k
  {
    if k > 0 {
      AsciiOffset(s, k - 1);
    }
  }

  const LINE_NUMBER_BYTES: nat := 8

  lemma LineNumberIsShort(n: nat)
    requires n <= MAX_BYTES + 1
    ensures Bytes(Text.Decimal(n)) <= LINE_NUMBER_BYTES
  {
    assert Pow10(8) == 100_000_000;
    DecimalLength(n, 8);
    AsciiOffset(Text.Decimal(n), |Text.Decimal(n)|);
  }

  lemma NumberedBytes(i: nat, line: string)
    requires i <= MAX_BYTES
    ensures Bytes(NumberedLine(i, line)) <= Bytes(line) + LINE_NUMBER_BYTES + 3
  {
    var d := Text.Decimal(i + 1);
    LineNumberIsShort(i + 1);
    BytesJoin(d + ": " + line, "\n");
    BytesJoin(d + ": ", line);
    BytesJoin(d, ": ");
    AsciiOffset(": ", 2);
    AsciiOffset("\n", 1);
  }

  lemma {:induction false} RenderLast(note: string, lines: seq<string>, items: seq<Item>, item: Item)
    ensures Render(note, lines, items + [item]) == Render(note, lines, items) + Show(note, lines, item)
    decreases |items|
  {
    if items == [] {
      assert [] + [item] == [item] && Show(note, lines, item) + "" == Show(note, lines, item);
      RenderFirst(note, lines, item, []);
      assert "" + Show(note, lines, item) == Show(note, lines, item);
      assert [item] + [] == [item];
    } else {
      var first, rest := items[0], items[1..];
      assert items + [item] == [first] + (rest + [item]);
      RenderFirst(note, lines, first, rest + [item]);
      RenderLast(note, lines, rest, item);
      Assoc(Show(note, lines, first), Render(note, lines, rest), Show(note, lines, item));
    }
  }

  function Before(note: string, lines: seq<string>, items: seq<Item>, i: nat): nat
    requires i <= |items|
  {
    Bytes(Render(note, lines, items[..i]))
  }

  lemma BeforeNext(note: string, lines: seq<string>, items: seq<Item>, i: nat)
    requires i < |items|
    ensures Before(note, lines, items, i + 1) == Before(note, lines, items, i) + Bytes(Show(note, lines, items[i]))
  {
    assert items[..i + 1] == items[..i] + [items[i]];
    RenderLast(note, lines, items[..i], items[i]);
    BytesJoin(Render(note, lines, items[..i]), Show(note, lines, items[i]));
  }

  const LINE_OVERHEAD: nat := LINE_NUMBER_BYTES + 3

  /** After a whole line the page is at most one line number and three characters over the limit. */
  lemma WholeIsBounded(note: string, lines: seq<string>, from: nat, items: seq<Item>, i: nat)
    requires |lines| <= MAX_BYTES && Shown(note, lines, from, 0, items, i) && items[i].cut.None?
    ensures Before(note, lines, items, i + 1) <= PAGE_BYTES + LINE_OVERHEAD
  {
    BeforeNext(note, lines, items, i);
    NumberedBytes(from + i, lines[from + i]);
  }

  /** After a cut line the page also carries the note. */
  lemma CutIsBounded(note: string, lines: seq<string>, from: nat, items: seq<Item>, i: nat)
    requires Shown(note, lines, from, 0, items, i) && items[i].cut.Some?
    requires Before(note, lines, items, i) <= PAGE_BYTES + LINE_OVERHEAD
    ensures Before(note, lines, items, i + 1) <= PAGE_BYTES + LINE_OVERHEAD + Bytes(note)
  {
    var line, k := lines[from + i], items[i].cut.value;
    BeforeNext(note, lines, items, i);
    if k <= |line| {
      assert Bytes(line[..k]) <= Room(Before(note, lines, items, i));
      BytesJoin(line[..k], note);
    }
  }

  /** A page holds at most the byte limit, one line number and the note that the limit is reached. */
  lemma PageIsBounded(note: string, lines: seq<string>, from: nat, count: nat)
    requires |lines| <= MAX_BYTES
    ensures Bytes(Render(note, lines, Page(lines, from, count, 0))) <= PAGE_BYTES + LINE_OVERHEAD + Bytes(note)
  {
    var items := Page(lines, from, count, 0);
    var n := |items|;
    assert items[..n] == items;
    if n > 0 {
      PageShows(note, lines, from, count, 0, n - 1);
      if n > 1 {
        PageShows(note, lines, from, count, 0, n - 2);
        WholeIsBounded(note, lines, from, items, n - 2);
      }
      if items[n - 1].cut.None? {
        WholeIsBounded(note, lines, from, items, n - 1);
      } else {
        CutIsBounded(note, lines, from, items, n - 1);
      }
    }
  }

  const HINT_BYTES: nat := 31

  lemma HintParts(open: string, d: string)
    ensures Bytes(open + d + "]\n") == Bytes(open) + Bytes(d) + 2
  {
    BytesJoin(open + d, "]\n");
    BytesJoin(open, d);
    AsciiOffset("]\n", 2);
  }

  lemma HintOpenBytes()
    ensures Bytes(HINT_OPEN) == 29
  {
    AsciiOffset(HINT_OPEN, 29);
  }

  lemma HintIs(lines: seq<string>, next: nat)
    ensures Hint(lines, next) == if next < |lines| then HINT_OPEN + Text.Decimal(next + 1) + "]\n" else ""
    ensures Bytes("") == 0
  {
  }

  lemma HintIsShort(lines: seq<string>, next: nat)
    requires |lines| <= MAX_BYTES
    ensures Bytes(Hint(lines, next)) <= HINT_BYTES + LINE_NUMBER_BYTES
  {
    hide Hint, HINT_OPEN, Bytes, Text.Decimal;
    HintIs(lines, next);
    if next < |lines| {
      LineNumberIsShort(next + 1);
      HintOpenBytes();
      HintParts(HINT_OPEN, Text.Decimal(next + 1));
    }
  }

  /** Every answer stays within the byte limit plus a fixed overhead, whatever is asked. A source is
      read up to 16 MiB, so it has at most that many lines. */
  lemma AnswerIsBounded(notes: Notes, lines: seq<string>, from: nat, count: nat, truncated: bool)
    requires |lines| <= MAX_BYTES
    ensures Bytes(Answer(notes, lines, from, count, truncated))
            <= PAGE_BYTES + LINE_OVERHEAD + HINT_BYTES + LINE_NUMBER_BYTES + Bytes(notes.limit) + Bytes(notes.truncated)
  {
    var page, next := Render(notes.limit, lines, Page(lines, from, count, 0)), Next(lines, from, count);
    var tail := if truncated then notes.truncated else "";
    PageIsBounded(notes.limit, lines, from, count);
    HintIsShort(lines, next);
    BytesJoin(page + Hint(lines, next), tail);
    BytesJoin(page, Hint(lines, next));
  }

  lemma {:induction false} OffsetIsAtMost(s: string, k: nat)
    requires k <= |s|
    ensures Offset(s, k) <= 4 * k
  {
    if k > 0 {
      OffsetIsAtMost(s, k - 1);
    }
  }

  const OVERHEAD: nat := 490

  /** With the program's own notes: 64 KiB and 490 bytes, for every source, position and count. */
  lemma AnswerFits(lines: seq<string>, from: nat, count: nat, truncated: bool)
    requires |lines| <= MAX_BYTES
    ensures Bytes(Answer(NOTES, lines, from, count, truncated)) <= PAGE_BYTES + OVERHEAD
  {
    OffsetIsAtMost(LIMIT_NOTE, 55);
    OffsetIsAtMost(TRUNCATED_NOTE, 55);
    AnswerIsBounded(NOTES, lines, from, count, truncated);
  }
}
