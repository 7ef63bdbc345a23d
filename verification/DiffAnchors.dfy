/** Reading a unified diff for the new-file line numbers of its added lines, against printing one. */
module DiffAnchors {
  import opened Options
  import opened Text

  // ---------------------------------------------------------------- diffs and their printed form

  datatype BodyLine = Context(text: string) | Added(text: string) | Removed(text: string) | NoNewline

  datatype Hunk = Hunk(oldStart: nat, newStart: nat, heading: string, body: seq<BodyLine>)

  /** `newPath` is absent for a deleted file; the preamble is everything before its "+++" line. */
  datatype FileDiff = FileDiff(preamble: seq<string>, newPath: Option<string>, hunks: seq<Hunk>)

  function OldLength(body: seq<BodyLine>): nat {
    if body == [] then 0 else (if body[0].Context? || body[0].Removed? then 1 else 0) + OldLength(body[1..])
  }

  function NewLength(body: seq<BodyLine>): nat {
    if body == [] then 0 else (if body[0].Context? || body[0].Added? then 1 else 0) + NewLength(body[1..])
  }

  function RangeText(start: nat, length: nat): string {
    if length == 1 then Decimal(start) else Decimal(start) + "," + Decimal(length)
  }

  function HeaderText(h: Hunk): string {
    "@@" + " " + (("-" + RangeText(h.oldStart, OldLength(h.body))) + " "
                  + (("+" + RangeText(h.newStart, NewLength(h.body))) + " " + ("@@" + h.heading)))
  }

  function LineText(b: BodyLine): string {
    match b
    case Context(t) => " " + t
    case Added(t) => "+" + t
    case Removed(t) => "-" + t
    case NoNewline => "\\ No newline at end of file"
  }

  function BodyText(body: seq<BodyLine>): seq<string> {
    if body == [] then [] else [LineText(body[0])] + BodyText(body[1..])
  }

  function HunkText(h: Hunk): seq<string> {
    [HeaderText(h)] + BodyText(h.body)
  }

  function HunksText(hs: seq<Hunk>): seq<string> {
    if hs == [] then [] else HunkText(hs[0]) + HunksText(hs[1..])
  }

  function PathText(f: FileDiff): string {
    if f.newPath.Some? then "+++ b/" + f.newPath.value else "+++ /dev/null"
  }

  function FileText(f: FileDiff): seq<string> {
    f.preamble + ([PathText(f)] + HunksText(f.hunks))
  }

  function DiffText(fs: seq<FileDiff>): seq<string> {
    if fs == [] then [] else FileText(fs[0]) + DiffText(fs[1..])
  }

  // ---------------------------------------------------------------- the parser

  type Anchor = (string, nat)

  datatype Parse = Parse(file: Option<string>, line: Option<nat>, log: seq<Anchor>)

  /** The first blank-separated word that starts with '+'. */
  function PlusWord(s: string): Option<string>
    decreases |s|
  {
    match First(s, ' ')
    case None => if "+" <= s then Some(s) else None
    case Some(i) => if "+" <= s[..i] then Some(s[..i]) else PlusWord(s[i + 1..])
  }

  function TrimPlus(s: string): string {
    if "+" <= s then TrimPlus(s[1..]) else s
  }

  function UpToComma(s: string): string {
    if First(s, ',').Some? then s[..First(s, ',').value] else s
  }

  function HunkNewStart(line: string): Option<nat> {
    match PlusWord(line)
    case None => None
    case Some(word) =>
      var range := TrimPlus(word);
      ParseUint(UpToComma(range), U32_MAX)
  }

  function ParseLine(p: Parse, line: string): Parse {
    if "+++ b/" <= line then p.(file := Some(line[6..]))
    else if "+++ /dev/null" <= line then p.(file := None)
    else if "@@" <= line then p.(line := HunkNewStart(line))
    else if p.file.None? || p.line.None? then p
    else if "+" <= line && !("+++" <= line) then
      p.(log := p.log + [(p.file.value, p.line.value)], line := Some(p.line.value + 1))
    else if !("-" <= line) then p.(line := Some(p.line.value + 1))
    else p
  }

  function ParseLines(p: Parse, lines: seq<string>): Parse
    decreases |lines|
  {
    if lines == [] then p else ParseLines(ParseLine(p, lines[0]), lines[1..])
  }

  const START := Parse(None, None, [])

  /** The anchors of a log: the set of lines of each file that has any. */
  function AnchorsOf(log: seq<Anchor>): map<string, set<nat>> {
    if log == [] then map[]
    else
      var m, (file, line) := AnchorsOf(log[..|log| - 1]), log[|log| - 1];
      m[file := (if file in m then m[file] else {}) + {line}]
  }

  method ParseDiffAnchors(lines: seq<string>) returns (anchors: map<string, set<nat>>)
    ensures anchors == AnchorsOf(ParseLines(START, lines).log)
  {
    anchors := map[];
    var currentFile: Option<string>, newLine: Option<nat> := None, None;
    ghost var log: seq<Anchor> := [];
    for i := 0 to |lines|
      invariant anchors == AnchorsOf(log)
      invariant ParseLines(Parse(currentFile, newLine, log), lines[i..]) == ParseLines(START, lines)
    {
      var line := lines[i];
      assert lines[i..][1..] == lines[i + 1..];
      if "+++ b/" <= line {
        currentFile := Some(line[6..]);
      } else if "+++ /dev/null" <= line {
        currentFile := None;
      } else if "@@" <= line {
        newLine := HunkNewStart(line);
      } else if currentFile.Some? && newLine.Some? {
        var path, lineNo := currentFile.value, newLine.value;
        if "+" <= line && !("+++" <= line) {
          assert (log + [(path, lineNo)])[..|log|] == log;
          log := log + [(path, lineNo)];
          anchors := anchors[path := (if path in anchors then anchors[path] else {}) + {lineNo}];
          newLine := Some(lineNo + 1);
        } else if !("-" <= line) {
          newLine := Some(lineNo + 1);
        }
      }
    }
  }

  // ---------------------------------------------------------------- what the anchors should be

  /** The added lines of a hunk, numbered in the new file. */
  function TrueBody(path: string, n: nat, body: seq<BodyLine>): seq<Anchor>
    decreases |body|
  {
    if body == [] then []
    else
      match body[0]
      case Context(_) => TrueBody(path, n + 1, body[1..])
      case Added(_) => [(path, n)] + TrueBody(path, n + 1, body[1..])
      case Removed(_) => TrueBody(path, n, body[1..])
      case NoNewline => TrueBody(path, n, body[1..])
  }

  function TrueHunks(path: string, hs: seq<Hunk>): seq<Anchor> {
    if hs == [] then [] else TrueBody(path, hs[0].newStart, hs[0].body) + TrueHunks(path, hs[1..])
  }

  function TrueFile(f: FileDiff): seq<Anchor> {
    if f.newPath.None? then [] else TrueHunks(f.newPath.value, f.hunks)
  }

  function TrueDiff(fs: seq<FileDiff>): seq<Anchor> {
    if fs == [] then [] else TrueFile(fs[0]) + TrueDiff(fs[1..])
  }

  /** A preamble line is none of the lines the parser acts on; a deleted file adds nothing. */
  predicate WellFormedFile(f: FileDiff) {
    && (forall i :: 0 <= i < |f.preamble| ==> !("+" <= f.preamble[i]) && !("@@" <= f.preamble[i]))
    && (forall h :: h in f.hunks ==> h.newStart <= U32_MAX)
    && (f.newPath.None? ==> forall h, i :: h in f.hunks && 0 <= i < |h.body| ==> !h.body[i].Added?)
  }

  /** No new-file line is added twice. */
  predicate WellFormed(fs: seq<FileDiff>) {
    && (forall f :: f in fs ==> WellFormedFile(f))
    && (forall i, j :: 0 <= i < j < |TrueDiff(fs)| ==> TrueDiff(fs)[i] != TrueDiff(fs)[j])
  }

  /** No added text starts with "++", which the parser takes for a file line. */
  predicate PlainBody(body: seq<BodyLine>) {
    forall i :: 0 <= i < |body| && body[i].Added? ==> !("++" <= body[i].text)
  }

  /** No missing-newline marker comes before an added line; the parser counts it as a line. */
  predicate UnshiftedBody(body: seq<BodyLine>) {
    forall i, j :: 0 <= i < j < |body| && body[i].NoNewline? ==> !body[j].Added?
  }

  predicate PlainHunks(hs: seq<Hunk>) {
    forall h :: h in hs ==> PlainBody(h.body)
  }

  predicate Plain(fs: seq<FileDiff>) {
    forall f :: f in fs ==> PlainHunks(f.hunks)
  }

  predicate UnshiftedHunks(hs: seq<Hunk>) {
    forall h :: h in hs ==> UnshiftedBody(h.body)
  }

  predicate Unshifted(fs: seq<FileDiff>) {
    forall f :: f in fs && f.newPath.Some? ==> UnshiftedHunks(f.hunks)
  }

  // ---------------------------------------------------------------- headers read back

  lemma PlusWordSkips(word: string, rest: string)
    requires ' ' !in word && !("+" <= word)
    ensures PlusWord(word + " " + rest) == PlusWord(rest)
  {
    var s := word + " " + rest;
    FirstAt(word, ' ', rest);
    assert s[..|word|] == word && s[|word| + 1..] == rest;
  }

  lemma PlusWordStops(word: string, rest: string)
    requires ' ' !in word && "+" <= word
    ensures PlusWord(word + " " + rest) == Some(word)
  {
    var s := word + " " + rest;
    FirstAt(word, ' ', rest);
    assert s[..|word|] == word;
  }

  lemma RangeReadsBack(start: nat, length: nat)
    ensures var r := RangeText(start, length);
            ' ' !in r && TrimPlus("+" + r) == r && UpToComma(r) == Decimal(start)
  {
    var d, r := Decimal(start), RangeText(start, length);
    assert r[0] == d[0];
    TrimOnePlus(r);
    if length != 1 {
      assert r == d + [','] + Decimal(length);
      CommaAt(d, Decimal(length));
    }
  }

  lemma TrimOnePlus(r: string)
    requires r != [] && r[0] != '+'
    ensures TrimPlus("+" + r) == r
  {
    assert ("+" + r)[1..] == r;
  }

  /** All leading plus signs are dropped. */
  lemma {:induction false} TrimPlusIs(plus: string, r: string)
    requires (forall i :: 0 <= i < |plus| ==> plus[i] == '+') && (r == "" || r[0] != '+')
    ensures TrimPlus(plus + r) == r
  {
    if plus == "" {
      assert plus + r == r;
    } else {
      assert (plus + r)[1..] == plus[1..] + r;
      TrimPlusIs(plus[1..], r);
    }
  }

  lemma CommaAt(d: string, rest: string)
    requires ',' !in d
    ensures UpToComma(d + [','] + rest) == d
  {
    FirstAt(d, ',', rest);
    assert (d + [','] + rest)[..|d|] == d;
  }

  lemma HeaderReadsBack(h: Hunk)
    requires h.newStart <= U32_MAX
    ensures "@@" <= HeaderText(h) && HunkNewStart(HeaderText(h)) == Some(h.newStart)
  {
    var o, n := RangeText(h.oldStart, OldLength(h.body)), RangeText(h.newStart, NewLength(h.body));
    var tail := ("+" + n) + " " + ("@@" + h.heading);
    RangeReadsBack(h.oldStart, OldLength(h.body));
    RangeReadsBack(h.newStart, NewLength(h.body));
    assert "@@"[0] == '@' && ("-" + o)[0] == '-';
    PlusWordSkips("@@", ("-" + o) + " " + tail);
    PlusWordSkips("-" + o, tail);
    PlusWordStops("+" + n, "@@" + h.heading);
    ParseOfDecimal(h.newStart, U32_MAX);
  }
}
