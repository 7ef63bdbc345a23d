/** The broker's usage scanner sees a response in arbitrary chunks. What it reports is a function of
    the whole body, and of nothing else until a limit is passed. JSON parsing is a parameter. */
module UsageScan {
  import opened Options
  import opened Text

  const MAX_USAGE_SCAN_BYTES: nat := 8 * 1024 * 1024

  /** The counters of one usage object; absent counters are zero. */
  datatype UsageBlock = UsageBlock(
    promptTokens: nat, inputTokens: nat, cacheCreation: nat, cacheRead: nat, promptTokenCount: nat,
    completionTokens: nat, outputTokens: nat, candidates: nat, thoughts: nat)

  datatype Totals = Totals(input: nat, output: nat)

  /** A parsed value holds up to four usage objects; unparsable text holds none. */
  type Parser = string -> Option<seq<UsageBlock>>

  const ZERO := Totals(0, 0)

  function Max(a: Totals, b: Totals): Totals {
    Totals(if a.input > b.input then a.input else b.input, if a.output > b.output then a.output else b.output)
  }

  function BlockTotals(b: UsageBlock): Totals {
    Totals(b.promptTokens + b.inputTokens + b.cacheCreation + b.cacheRead + b.promptTokenCount,
           b.completionTokens + b.outputTokens + b.candidates + b.thoughts)
  }

  function BlocksTotals(blocks: seq<UsageBlock>): Totals {
    if blocks == [] then ZERO else Max(BlocksTotals(blocks[..|blocks| - 1]), BlockTotals(blocks[|blocks| - 1]))
  }

  function ValueTotals(v: Option<seq<UsageBlock>>): Totals {
    if v.None? then ZERO else BlocksTotals(v.value)
  }

  // ---------------------------------------------------------------- lines

  predicate IsSpace(c: char) {
    c == ' ' || '\t' <= c <= '\r'
  }

  function TrimEnd(s: string): string {
    if s != [] && IsSpace(s[|s| - 1]) then TrimEnd(s[..|s| - 1]) else s
  }

  function TrimStart(s: string): string {
    if s != [] && IsSpace(s[0]) then TrimStart(s[1..]) else s
  }

  function LineTotals(parse: Parser, line: string): Totals {
    var t := TrimEnd(line);
    if "data:" <= t then ValueTotals(parse(TrimStart(t[5..]))) else ZERO
  }

  /** The complete lines, each with its newline. */
  function Lines(body: string): seq<string> {
    match First(body, '\n')
    case None => []
    case Some(i) => [body[..i + 1]] + Lines(body[i + 1..])
  }

  /** What follows the last newline. */
  function Pending(body: string): (r: string)
    ensures '\n' !in r
  {
    match First(body, '\n')
    case None => body
    case Some(i) => Pending(body[i + 1..])
  }

  function LinesTotals(parse: Parser, lines: seq<string>): Totals {
    if lines == [] then ZERO else Max(LineTotals(parse, lines[0]), LinesTotals(parse, lines[1..]))
  }

  /** One scan of a whole event stream: the maximum over all lines, the unfinished last one too. */
  function StreamTotals(parse: Parser, body: string): Totals {
    Max(LinesTotals(parse, Lines(body)), LineTotals(parse, Pending(body)))
  }

  lemma MaxJoin(a: Totals, b: Totals, c: Totals)
    ensures Max(Max(a, b), c) == Max(a, Max(b, c))
  {
  }

  lemma LinesFirst(body: string, end: nat)
    requires First(body, '\n') == Some(end - 1)
    ensures Lines(body) == [body[..end]] + Lines(body[end..])
  {
  }

  lemma PendingFirst(body: string, end: nat)
    requires First(body, '\n') == Some(end - 1)
    ensures Pending(body) == Pending(body[end..])
  {
  }

  lemma FirstLine(parse: Parser, body: string)
    requires '\n' in body
    ensures var end := First(body, '\n').value + 1;
            && Pending(body) == Pending(body[end..])
            && LinesTotals(parse, Lines(body)) ==
               Max(LineTotals(parse, body[..end]), LinesTotals(parse, Lines(body[end..])))
  {
    var end := First(body, '\n').value + 1;
    LinesFirst(body, end);
    PendingFirst(body, end);
    LinesTotalsCons(parse, body[..end], Lines(body[end..]));
  }

  lemma LinesTotalsCons(parse: Parser, line: string, lines: seq<string>)
    ensures LinesTotals(parse, [line] + lines) == Max(LineTotals(parse, line), LinesTotals(parse, lines))
  {
    assert ([line] + lines)[1..] == lines;
  }

  // ---------------------------------------------------------------- the scanner's state

  datatype State = State(sse: bool, buffer: string, overflow: bool, bytes: nat, totals: Totals)

  function New(sse: bool): State {
    State(sse, [], false, 0, ZERO)
  }

  function Feed(parse: Parser, s: State, chunk: string): State {
    var s1 := s.(bytes := s.bytes + |chunk|);
    if s.overflow then s1
    else if |s.buffer| + |chunk| > MAX_USAGE_SCAN_BYTES then s1.(overflow := true, buffer := [])
    else if s.sse then
      var body := s.buffer + chunk;
      s1.(buffer := Pending(body), totals := Max(s.totals, LinesTotals(parse, Lines(body))))
    else s1.(buffer := s.buffer + chunk)
  }

  function Finish(parse: Parser, s: State): Totals {
    Max(s.totals, if s.sse then LineTotals(parse, s.buffer) else ValueTotals(parse(s.buffer)))
  }

  class UsageScanner {
    const sse: bool
    const parse: Parser
    var buffer: string
    var overflow: bool
    var bytes: nat
    var input: nat
    var output: nat

    constructor (sse: bool, parse: Parser)
      ensures this.sse == sse && this.parse == parse && View() == New(sse)
    {
      this.sse, this.parse := sse, parse;
      buffer, overflow, bytes, input, output := [], false, 0, 0, 0;
    }

    function View(): State
      reads this
    {
      State(sse, buffer, overflow, bytes, Totals(input, output))
    }

    method Observe(blocks: seq<UsageBlock>)
      modifies `input, `output
      ensures Totals(input, output) == Max(old(Totals(input, output)), BlocksTotals(blocks))
    {
      for i := 0 to |blocks|
        invariant Totals(input, output) == Max(old(Totals(input, output)), BlocksTotals(blocks[..i]))
      {
        assert blocks[..i + 1][..i] == blocks[..i];
        var t := BlockTotals(blocks[i]);
        input := if t.input > input then t.input else input;
        output := if t.output > output then t.output else output;
      }
      assert blocks[..|blocks|] == blocks;
    }

    method ScanSseLine(line: string)
      modifies `input, `output
      ensures Totals(input, output) == Max(old(Totals(input, output)), LineTotals(parse, line))
    {
      var t := TrimEnd(line);
      if "data:" <= t {
        var v := parse(TrimStart(t[5..]));
        if v.Some? {
          Observe(v.value);
        }
      }
    }

    method DrainLine()
      requires '\n' in buffer
      modifies `buffer, `input, `output
      ensures |buffer| < |old(buffer)| && Pending(buffer) == Pending(old(buffer))
      ensures Max(Totals(input, output), LinesTotals(parse, Lines(buffer))) ==
              Max(old(Totals(input, output)), LinesTotals(parse, Lines(old(buffer))))
    {
      FirstLine(parse, buffer);
      var end := First(buffer, '\n').value;
      MaxJoin(Totals(input, output), LineTotals(parse, buffer[..end + 1]),
              LinesTotals(parse, Lines(buffer[end + 1..])));
      var line := buffer[..end + 1];
      buffer := buffer[end + 1..];
      ScanSseLine(line);
    }

    /** Takes every complete line out of the buffer. */
    method DrainLines()
      modifies `buffer, `input, `output
      ensures buffer == Pending(old(buffer))
      ensures Totals(input, output) ==
              Max(old(Totals(input, output)), LinesTotals(parse, Lines(old(buffer))))
    {
      while '\n' in buffer
        invariant Pending(buffer) == Pending(old(buffer))
        invariant Max(Totals(input, output), LinesTotals(parse, Lines(buffer))) ==
                  Max(old(Totals(input, output)), LinesTotals(parse, Lines(old(buffer))))
        decreases |buffer|
      {
        DrainLine();
      }
    }

    method FeedChunk(chunk: string)
      modifies this
      ensures View() == Feed(parse, old(View()), chunk)
    {
      bytes := bytes + |chunk|;
      if overflow {
        return;
      }
      if |buffer| + |chunk| > MAX_USAGE_SCAN_BYTES {
        overflow, buffer := true, [];
        return;
      }
      buffer := buffer + chunk;
      if sse {
        DrainLines();
      }
    }

    method FinishScan() returns (t: Totals)
      modifies this
      ensures t == Finish(parse, old(View())) == View().totals && buffer == []
    {
      var rest := buffer;
      buffer := [];
      if sse {
        ScanSseLine(rest);
      } else {
        var v := parse(rest);
        if v.Some? {
          Observe(v.value);
        }
      }
      t := Totals(input, output);
    }
  }

  // ---------------------------------------------------------------- chunking

  function Concat(chunks: seq<string>): string {
    if chunks == [] then [] else Concat(chunks[..|chunks| - 1]) + chunks[|chunks| - 1]
  }

  function FeedAll(parse: Parser, sse: bool, chunks: seq<string>): State {
    if chunks == [] then New(sse) else Feed(parse, FeedAll(parse, sse, chunks[..|chunks| - 1]), chunks[|chunks| - 1])
  }

  lemma FirstOfJoin(a: string, b: string)
    requires '\n' in a
    ensures var i := First(a, '\n').value;
            First(a + b, '\n') == Some(i) && (a + b)[..i + 1] == a[..i + 1] && (a + b)[i + 1..] == a[i + 1..] + b
  {
    FirstInPrefix(a, '\n', b);
  }

  lemma {:induction false} PendingOfJoin(a: string, b: string)
    ensures Pending(a + b) == Pending(Pending(a) + b)
    decreases |a|
  {
    if '\n' in a {
      FirstOfJoin(a, b);
      PendingOfJoin(a[First(a, '\n').value + 1..], b);
    }
  }

  lemma ConsJoin(line: string, a: seq<string>, b: seq<string>)
    ensures [line] + (a + b) == ([line] + a) + b
  {
  }

  lemma {:induction false} LinesOfJoin(a: string, b: string)
    ensures Lines(a + b) == Lines(a) + Lines(Pending(a) + b)
    decreases |a|
  {
    if '\n' in a {
      var end := First(a, '\n').value + 1;
      var rest := a[end..];
      FirstOfJoin(a, b);
      LinesFirst(a, end);
      LinesFirst(a + b, end);
      PendingFirst(a, end);
      LinesOfJoin(rest, b);
      ConsJoin(a[..end], Lines(rest), Lines(Pending(rest) + b));
    }
  }

  lemma {:induction false} LinesTotalsJoin(parse: Parser, a: seq<string>, b: seq<string>)
    ensures LinesTotals(parse, a + b) == Max(LinesTotals(parse, a), LinesTotals(parse, b))
  {
    if a == [] {
      assert a + b == b;
    } else {
      assert (a + b)[1..] == a[1..] + b;
      LinesTotalsJoin(parse, a[1..], b);
    }
  }

  /** Every chunk up to `n` fitted behind the line that was pending when it came. */
  predicate Fits(chunks: seq<string>, n: nat)
    requires n <= |chunks|
  {
    forall i :: 0 <= i < n ==> |Pending(Concat(chunks[..i]))| + |chunks[i]| <= MAX_USAGE_SCAN_BYTES
  }

  function StreamStateOf(parse: Parser, body: string): State {
    State(true, Pending(body), false, |body|, LinesTotals(parse, Lines(body)))
  }

  lemma StreamStep(parse: Parser, body: string, chunk: string)
    requires |Pending(body)| + |chunk| <= MAX_USAGE_SCAN_BYTES
    ensures Feed(parse, StreamStateOf(parse, body), chunk) == StreamStateOf(parse, body + chunk)
  {
    PendingOfJoin(body, chunk);
    LinesOfJoin(body, chunk);
    LinesTotalsJoin(parse, Lines(body), Lines(Pending(body) + chunk));
  }

  /** In a stream, the state after any chunks is that of the body, as long as they fit. */
  lemma {:induction false} StreamState(parse: Parser, chunks: seq<string>)
    requires Fits(chunks, |chunks|)
    ensures FeedAll(parse, true, chunks) == StreamStateOf(parse, Concat(chunks))
  {
    if chunks != [] {
      var n := |chunks| - 1;
      LastChunk(parse, chunks, chunks[..n], chunks[n]);
      hide *;
      StreamState(parse, chunks[..n]);
      StreamStep(parse, Concat(chunks[..n]), chunks[n]);
    }
  }

  lemma LastChunk(parse: Parser, chunks: seq<string>, init: seq<string>, last: string)
    requires chunks != [] && init == chunks[..|chunks| - 1] && last == chunks[|chunks| - 1]
    requires Fits(chunks, |chunks|)
    ensures Concat(chunks) == Concat(init) + last
    ensures FeedAll(parse, true, chunks) == Feed(parse, FeedAll(parse, true, init), last)
    ensures Fits(init, |init|) && |Pending(Concat(init))| + |last| <= MAX_USAGE_SCAN_BYTES
  {
    assert forall i :: 0 <= i < |init| ==> init[i] == chunks[i] && init[..i] == chunks[..i];
  }

  /** A stream's totals do not depend on the chunking, and are those of one scan of the body. */
  lemma StreamIsChunkIndependent(parse: Parser, chunks: seq<string>)
    requires Fits(chunks, |chunks|)
    ensures Finish(parse, FeedAll(parse, true, chunks)) == StreamTotals(parse, Concat(chunks))
  {
    StreamState(parse, chunks);
  }

  /** The scan of a stream stops for good at the first chunk that does not fit: the complete lines
      before it count, the pending line and everything after do not. */
  lemma {:induction false} StreamOverflow(parse: Parser, before: seq<string>, chunk: string, after: seq<string>)
    requires Fits(before, |before|)
    requires |Pending(Concat(before))| + |chunk| > MAX_USAGE_SCAN_BYTES
    ensures var s := FeedAll(parse, true, before + [chunk] + after);
            && s.sse && s.overflow && s.buffer == []
            && s.totals == LinesTotals(parse, Lines(Concat(before))) == Finish(parse, s)
  {
    var all := before + [chunk] + after;
    if after == [] {
      assert all[..|all| - 1] == before;
      StreamState(parse, before);
    } else {
      assert all[..|all| - 1] == before + [chunk] + after[..|after| - 1];
      StreamOverflow(parse, before, chunk, after[..|after| - 1]);
    }
    assert LineTotals(parse, []) == ZERO;
  }

  /** Outside streams the totals never depend on the chunking; the body counts exactly when it is no
      longer than the limit. */
  lemma {:induction false} WholeBodyIsChunkIndependent(parse: Parser, chunks: seq<string>)
    ensures var s, body := FeedAll(parse, false, chunks), Concat(chunks);
            && (s.overflow <==> |body| > MAX_USAGE_SCAN_BYTES)
            && s.buffer == (if s.overflow then [] else body)
            && s.bytes == |body| && s.totals == ZERO && !s.sse
            && Finish(parse, s) == ValueTotals(parse(if |body| > MAX_USAGE_SCAN_BYTES then [] else body))
  {
    if chunks != [] {
      WholeBodyIsChunkIndependent(parse, chunks[..|chunks| - 1]);
    }
  }

  /** Every byte is counted, whatever becomes of the scan. */
  lemma {:induction false} BytesAreCounted(parse: Parser, sse: bool, chunks: seq<string>)
    ensures FeedAll(parse, sse, chunks).bytes == |Concat(chunks)|
  {
    if chunks != [] {
      BytesAreCounted(parse, sse, chunks[..|chunks| - 1]);
    }
  }

  /** The maximum over the lines bounds each of them and is reached, or is zero. */
  lemma {:induction false} LinesTotalsIsMaximum(parse: Parser, lines: seq<string>)
    ensures var t := LinesTotals(parse, lines);
            && (forall l :: l in lines ==>
                  LineTotals(parse, l).input <= t.input && LineTotals(parse, l).output <= t.output)
            && (t.input == 0 || exists l :: l in lines && LineTotals(parse, l).input == t.input)
            && (t.output == 0 || exists l :: l in lines && LineTotals(parse, l).output == t.output)
  {
    if lines != [] {
      LinesTotalsIsMaximum(parse, lines[1..]);
      assert forall l :: l in lines <==> l == lines[0] || l in lines[1..];
    }
  }
}
