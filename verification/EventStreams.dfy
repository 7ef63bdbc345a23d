/** Event streams as a provider prints them: what of each line reaches the JSON parser, and what the
    scanner makes of a whole stream of events. */
module EventStreams {
  import opened Options
  import opened Text
  import opened UsageScan

  predicate Blank(s: string) {
    forall i :: 0 <= i < |s| ==> IsSpace(s[i])
  }

  predicate Trimmed(s: string) {
    s == "" || (!IsSpace(s[0]) && !IsSpace(s[|s| - 1]))
  }

  lemma {:induction false} TrimEndIsPrefix(s: string)
    ensures TrimEnd(s) <= s
    ensures forall i :: |TrimEnd(s)| <= i < |s| ==> IsSpace(s[i])
  {
    if s != "" && IsSpace(s[|s| - 1]) {
      TrimEndIsPrefix(s[..|s| - 1]);
    }
  }

  lemma {:induction false} TrimEndOf(s: string, blank: string)
    requires Blank(blank) && (s == "" || !IsSpace(s[|s| - 1]))
    ensures TrimEnd(s + blank) == s
  {
    if blank == "" {
      assert s + blank == s;
    } else {
      assert (s + blank)[..|s + blank| - 1] == s + blank[..|blank| - 1];
      TrimEndOf(s, blank[..|blank| - 1]);
    }
  }

  lemma {:induction false} TrimStartOf(blank: string, s: string)
    requires Blank(blank) && (s == "" || !IsSpace(s[0]))
    ensures TrimStart(blank + s) == s
  {
    if blank == "" {
      assert blank + s == s;
    } else {
      assert (blank + s)[1..] == blank[1..] + s;
      TrimStartOf(blank[1..], s);
    }
  }

  const PREFIX := "data:"

  lemma PrefixIs()
    ensures |PREFIX| == 5 && !IsSpace(PREFIX[4]) && '\n' !in PREFIX && PREFIX == "data:"
  {
  }

  /** Trimming the end of a line keeps the prefix. */
  lemma PrefixStays(line: string)
    ensures PREFIX <= TrimEnd(line) <==> PREFIX <= line
  {
    PrefixIs();
    hide PREFIX;
    TrimEndIsPrefix(line);
    if PREFIX <= line {
      assert line[4] == PREFIX[4];
      assert line[..|TrimEnd(line)|] == TrimEnd(line);
    }
  }

  /** A line that does not start with "data:" contributes nothing. */
  lemma OtherLineIsNothing(parse: Parser, line: string)
    requires !(PREFIX <= line)
    ensures LineTotals(parse, line) == ZERO
  {
    PrefixStays(line);
  }

  /** What an event line contributes is what its text alone parses to, whatever blanks surround it. */
  lemma EventLineIs(parse: Parser, lead: string, json: string, trail: string)
    requires Blank(lead) && Trimmed(json) && Blank(trail)
    ensures LineTotals(parse, PREFIX + lead + json + trail) == ValueTotals(parse(json))
  {
    PrefixIs();
    var line := PREFIX + lead + json + trail;
    if json == "" {
      assert line == PREFIX + (lead + trail);
      TrimEndOf(PREFIX, lead + trail);
      assert TrimEnd(line)[5..] == json;
    } else {
      var kept := PREFIX + lead + json;
      assert kept[|kept| - 1] == json[|json| - 1];
      TrimEndOf(kept, trail);
      assert kept[..5] == PREFIX && kept[5..] == lead + json;
      TrimStartOf(lead, json);
    }
  }

  // ---------------------------------------------------------------- whole streams

  /** A line of a stream: an event with blanks around its text, or anything else. */
  datatype StreamLine = Event(lead: string, json: string, trail: string) | Other(text: string)

  predicate WellFormed(l: StreamLine) {
    match l
    case Event(lead, json, trail) =>
      Blank(lead) && Trimmed(json) && Blank(trail) && '\n' !in lead && '\n' !in json && '\n' !in trail
    case Other(text) => '\n' !in text && !(PREFIX <= text)
  }

  function LineText(l: StreamLine): string {
    match l
    case Event(lead, json, trail) => PREFIX + lead + json + trail
    case Other(text) => text
  }

  function Print(ls: seq<StreamLine>): string {
    if ls == [] then "" else LineText(ls[0]) + "\n" + Print(ls[1..])
  }

  /** What one line of a stream is worth. */
  function Worth(parse: Parser, l: StreamLine): Totals {
    match l
    case Event(_, json, _) => ValueTotals(parse(json))
    case Other(_) => ZERO
  }

  /** The greatest input and the greatest output among some totals, zero if there are none. */
  ghost predicate IsMaximum(ts: seq<Totals>, t: Totals) {
    && (forall u :: u in ts ==> u.input <= t.input && u.output <= t.output)
    && (t.input == 0 || exists u :: u in ts && u.input == t.input)
    && (t.output == 0 || exists u :: u in ts && u.output == t.output)
  }

  function Worths(parse: Parser, ls: seq<StreamLine>): (ts: seq<Totals>)
    ensures |ts| == |ls| && forall i :: 0 <= i < |ls| ==> ts[i] == Worth(parse, ls[i])
  {
    seq(|ls|, i requires 0 <= i < |ls| => Worth(parse, ls[i]))
  }

  lemma MaximumOfCons(t: Totals, ts: seq<Totals>, m: Totals)
    requires IsMaximum(ts, m)
    ensures IsMaximum([t] + ts, Max(t, m))
  {
    var all := [t] + ts;
    assert all[0] == t && forall u :: u in all <==> u == t || u in ts;
  }

  lemma LineIsWorth(parse: Parser, l: StreamLine, end: string)
    requires WellFormed(l) && Blank(end)
    ensures LineTotals(parse, LineText(l) + end) == Worth(parse, l)
  {
    match l {
      case Event(lead, json, trail) =>
        assert PREFIX + lead + json + trail + end == PREFIX + lead + json + (trail + end);
        EventLineIs(parse, lead, json, trail + end);
      case Other(text) =>
        OtherIsStillOther(text, end);
        OtherLineIsNothing(parse, text + end);
    }
  }

  lemma OtherIsStillOther(text: string, end: string)
    requires !(PREFIX <= text) && Blank(end)
    ensures !(PREFIX <= text + end)
  {
    PrefixIs();
    hide PREFIX;
  }

  lemma NoBreakIn(l: StreamLine)
    requires WellFormed(l)
    ensures '\n' !in LineText(l)
  {
    PrefixIs();
  }

  lemma PrintFirst(l: StreamLine, rest: string)
    requires WellFormed(l)
    ensures var body := LineText(l) + "\n" + rest;
            Lines(body) == [LineText(l) + "\n"] + Lines(rest) && Pending(body) == Pending(rest)
  {
    NoBreakIn(l);
    hide LineText, WellFormed, Lines, Pending;
    var text := LineText(l);
    var body := text + ['\n'] + rest;
    FirstAt(text, '\n', rest);
    assert body[..|text| + 1] == text + "\n" && body[|text| + 1..] == rest;
    LinesFirst(body, |text| + 1);
    PendingFirst(body, |text| + 1);
  }

  /** A printed stream with `rest` after it: the maximum of its events and of the rest. */
  lemma {:induction false} PrintedTotals(parse: Parser, ls: seq<StreamLine>, rest: string, ts: seq<Totals>)
    requires (forall l :: l in ls ==> WellFormed(l)) && '\n' !in rest
    requires ts == Worths(parse, ls)
    ensures IsMaximum(ts, LinesTotals(parse, Lines(Print(ls) + rest)))
    ensures Pending(Print(ls) + rest) == rest
    decreases |ls|
  {
    if ls == [] {
      assert Print(ls) + rest == rest;
    } else {
      var l, body := ls[0], Print(ls[1..]) + rest;
      PrintSplits(ls, rest);
      PrintFirst(l, body);
      LineIsWorth(parse, l, "\n");
      LinesTotalsCons(parse, LineText(l) + "\n", Lines(body));
      hide *;
      WorthsFirst(parse, ls, ts);
      PrintedTotals(parse, ls[1..], rest, Worths(parse, ls[1..]));
      MaximumOfCons(Worth(parse, l), Worths(parse, ls[1..]), LinesTotals(parse, Lines(body)));
    }
  }

  lemma PrintSplits(ls: seq<StreamLine>, rest: string)
    requires ls != []
    ensures Print(ls) + rest == LineText(ls[0]) + "\n" + (Print(ls[1..]) + rest)
  {
  }

  lemma WorthsFirst(parse: Parser, ls: seq<StreamLine>, ts: seq<Totals>)
    requires ls != [] && ts == Worths(parse, ls)
    ensures ts == [Worth(parse, ls[0])] + Worths(parse, ls[1..])
  {
  }

  /** A stream printed from a list of lines totals the maximum over its events, whether or not its last
      line is finished. */
  lemma StreamIsItsEvents(parse: Parser, ls: seq<StreamLine>, last: StreamLine)
    requires (forall l :: l in ls ==> WellFormed(l)) && WellFormed(last)
    ensures IsMaximum(Worths(parse, ls), StreamTotals(parse, Print(ls)))
    ensures IsMaximum(Worths(parse, [last] + ls), StreamTotals(parse, Print(ls) + LineText(last)))
  {
    NoBreakIn(last);
    LineIsWorth(parse, last, "");
    NothingAfter(Print(ls));
    NothingAfter(LineText(last));
    EmptyLineIs(parse);
    hide *;
    PrintedTotals(parse, ls, "", Worths(parse, ls));
    PrintedTotals(parse, ls, LineText(last), Worths(parse, ls));
    StreamTotalsAre(parse, Print(ls), "", ZERO);
    StreamTotalsAre(parse, Print(ls) + LineText(last), LineText(last), Worth(parse, last));
    WithNothing(LinesTotals(parse, Lines(Print(ls))));
    MaximumOfCons(Worth(parse, last), Worths(parse, ls), LinesTotals(parse, Lines(Print(ls) + LineText(last))));
    WorthsOfCons(parse, last, ls);
  }

  lemma NothingAfter(s: string)
    ensures s + "" == s
  {
  }

  lemma EmptyLineIs(parse: Parser)
    ensures LineTotals(parse, "") == ZERO
  {
    OtherLineIsNothing(parse, "");
  }

  lemma StreamTotalsAre(parse: Parser, body: string, rest: string, t: Totals)
    requires Pending(body) == rest && LineTotals(parse, rest) == t
    ensures StreamTotals(parse, body) == Max(t, LinesTotals(parse, Lines(body)))
  {
    hide Lines, LinesTotals, LineTotals, Pending;
  }

  lemma WithNothing(t: Totals)
    ensures Max(ZERO, t) == t
  {
  }

  lemma WorthsOfCons(parse: Parser, l: StreamLine, ls: seq<StreamLine>)
    ensures [Worth(parse, l)] + Worths(parse, ls) == Worths(parse, [l] + ls)
  {
  }

  /** And the scanner charges for it exactly that, however the stream was cut into chunks. */
  lemma ScanIsOfTheEvents(parse: Parser, ls: seq<StreamLine>, chunks: seq<string>)
    requires (forall l :: l in ls ==> WellFormed(l)) && Concat(chunks) == Print(ls) && Fits(chunks, |chunks|)
    ensures IsMaximum(Worths(parse, ls), Finish(parse, FeedAll(parse, true, chunks)))
  {
    EmptyIsOther();
    hide *;
    StreamIsChunkIndependent(parse, chunks);
    StreamIsItsEvents(parse, ls, Other(""));
  }

  lemma EmptyIsOther()
    ensures WellFormed(Other(""))
  {
  }

  // ---------------------------------------------------------------- counters

  /** A usage object in which only the counter with number `i` counts `n` tokens. */
  function OnlyCounter(i: nat, n: nat): UsageBlock {
    UsageBlock(if i == 0 then n else 0, if i == 1 then n else 0, if i == 2 then n else 0, if i == 3 then n else 0,
               if i == 4 then n else 0, if i == 5 then n else 0, if i == 6 then n else 0, if i == 7 then n else 0,
               if i == 8 then n else 0)
  }

  function Plus(a: UsageBlock, b: UsageBlock): UsageBlock {
    UsageBlock(a.promptTokens + b.promptTokens, a.inputTokens + b.inputTokens, a.cacheCreation + b.cacheCreation,
               a.cacheRead + b.cacheRead, a.promptTokenCount + b.promptTokenCount,
               a.completionTokens + b.completionTokens, a.outputTokens + b.outputTokens,
               a.candidates + b.candidates, a.thoughts + b.thoughts)
  }

  /** Every token is counted once, on its side: more of one counter is as much more of the total. */
  lemma EveryCounterCounts(b: UsageBlock, i: nat, n: nat)
    requires i < 9
    ensures var more, t := BlockTotals(Plus(b, OnlyCounter(i, n))), BlockTotals(b);
            more == if i < 5 then Totals(t.input + n, t.output) else Totals(t.input, t.output + n)
    ensures BlockTotals(OnlyCounter(i, 0)) == ZERO
  {
  }
}
