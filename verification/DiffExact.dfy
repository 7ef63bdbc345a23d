/** When the anchors read from a printed diff are exactly its added lines: for every well-formed
    diff, if and only if no added text starts with "++" and no missing-newline marker comes before
    an added line of its hunk. */
module DiffExact {
  import opened Options
  import opened Text
  import opened DiffAnchors

  // ---------------------------------------------------------------- what the parser logs

  lemma {:induction false} ParseJoin(p: Parse, a: seq<string>, b: seq<string>)
    ensures ParseLines(p, a + b) == ParseLines(ParseLines(p, a), b)
    decreases |a|
  {
    if a == [] {
      assert a + b == b;
    } else {
      assert (a + b)[1..] == a[1..] + b;
      ParseJoin(ParseLine(p, a[0]), a[1..], b);
    }
  }

  /** The log of a hunk of plain lines: markers count as lines. */
  function CodeBody(path: string, n: nat, body: seq<BodyLine>): seq<Anchor>
    decreases |body|
  {
    if body == [] then []
    else
      match body[0]
      case Context(_) => CodeBody(path, n + 1, body[1..])
      case Added(_) => [(path, n)] + CodeBody(path, n + 1, body[1..])
      case Removed(_) => CodeBody(path, n, body[1..])
      case NoNewline => CodeBody(path, n + 1, body[1..])
  }

  function CodeHunks(path: string, hs: seq<Hunk>): seq<Anchor> {
    if hs == [] then [] else CodeBody(path, hs[0].newStart, hs[0].body) + CodeHunks(path, hs[1..])
  }

  function CodeFile(f: FileDiff): seq<Anchor> {
    if f.newPath.None? then [] else CodeHunks(f.newPath.value, f.hunks)
  }

  function CodeDiff(fs: seq<FileDiff>): seq<Anchor> {
    if fs == [] then [] else CodeFile(fs[0]) + CodeDiff(fs[1..])
  }

  /** A printed addition looks like a file line only if its text starts with "++". */
  lemma AddedLineIs(t: string)
    ensures "+++" <= "+" + t <==> "++" <= t
    ensures "+++ b/" <= "+" + t ==> "++" <= t
    ensures "+++ /dev/null" <= "+" + t ==> "++" <= t
  {
    assert ("+" + t)[1..] == t;
  }

  lemma PlainLineIs(b: BodyLine)
    requires b.Added? ==> !("++" <= b.text)
    ensures var l := LineText(b);
            && !("+++ b/" <= l) && !("+++ /dev/null" <= l) && !("@@" <= l)
            && ("+" <= l && !("+++" <= l) <==> b.Added?) && ("-" <= l <==> b.Removed?)
  {
    var l := LineText(b);
    if b.Added? {
      AddedLineIs(b.text);
    }
    assert l[0] == match b case Context(_) => ' ' case Added(_) => '+' case Removed(_) => '-' case NoNewline => '\\';
  }

  /** From `p` to `q` the file stays at `path` and exactly `added` is logged. */
  predicate Logs(p: Parse, q: Parse, path: string, added: seq<Anchor>) {
    q.file == Some(path) && q.log == p.log + added
  }

  lemma LogsJoin(p: Parse, q: Parse, r: Parse, path: string, a: seq<Anchor>, b: seq<Anchor>)
    requires Logs(p, q, path, a) && Logs(q, r, path, b)
    ensures Logs(p, r, path, a + b)
  {
    assert (p.log + a) + b == p.log + (a + b);
  }

  function CodeLine(path: string, n: nat, b: BodyLine): seq<Anchor> {
    if b.Added? then [(path, n)] else []
  }

  function CodeNext(n: nat, b: BodyLine): nat {
    if b.Removed? then n else n + 1
  }

  lemma LineIsLogged(p: Parse, path: string, n: nat, b: BodyLine)
    requires (b.Added? ==> !("++" <= b.text)) && p.file == Some(path) && p.line == Some(n)
    ensures var q := ParseLine(p, LineText(b)); Logs(p, q, path, CodeLine(path, n, b)) && q.line == Some(CodeNext(n, b))
  {
    PlainLineIs(b);
    assert p.log + [] == p.log;
  }

  lemma CodeBodyStep(path: string, n: nat, body: seq<BodyLine>)
    requires body != []
    ensures CodeBody(path, n, body) == CodeLine(path, n, body[0]) + CodeBody(path, CodeNext(n, body[0]), body[1..])
  {
  }

  lemma ParseFirst(p: Parse, line: string, rest: seq<string>)
    ensures ParseLines(p, [line] + rest) == ParseLines(ParseLine(p, line), rest)
  {
    assert ([line] + rest)[1..] == rest;
  }

  lemma {:induction false} BodyIsLogged(p: Parse, path: string, n: nat, body: seq<BodyLine>)
    requires PlainBody(body) && p.file == Some(path) && p.line == Some(n)
    ensures Logs(p, ParseLines(p, BodyText(body)), path, CodeBody(path, n, body))
    decreases |body|
  {
    if body == [] {
      assert p.log + [] == p.log;
    } else {
      var b, rest := body[0], body[1..];
      var q, m := ParseLine(p, LineText(b)), CodeNext(n, b);
      LineIsLogged(p, path, n, b);
      BodyIsLogged(q, path, m, rest);
      ParseFirst(p, LineText(b), BodyText(rest));
      LogsJoin(p, q, ParseLines(q, BodyText(rest)), path, CodeLine(path, n, b), CodeBody(path, m, rest));
      CodeBodyStep(path, n, body);
    }
  }

  lemma HunkIsLogged(p: Parse, path: string, h: Hunk)
    requires p.file == Some(path) && PlainBody(h.body) && h.newStart <= U32_MAX
    ensures Logs(p, ParseLines(p, HunkText(h)), path, CodeBody(path, h.newStart, h.body))
  {
    HeaderReadsBack(h);
    assert HeaderText(h)[0] == '@';
    ParseFirst(p, HeaderText(h), BodyText(h.body));
    BodyIsLogged(ParseLine(p, HeaderText(h)), path, h.newStart, h.body);
  }

  lemma {:induction false} HunksAreLogged(p: Parse, path: string, hs: seq<Hunk>)
    requires p.file == Some(path) && PlainHunks(hs) && forall h :: h in hs ==> h.newStart <= U32_MAX
    ensures Logs(p, ParseLines(p, HunksText(hs)), path, CodeHunks(path, hs))
    decreases |hs|
  {
    if hs == [] {
      assert p.log + [] == p.log;
    } else {
      var h, rest := hs[0], hs[1..];
      var q := ParseLines(p, HunkText(h));
      HunkIsLogged(p, path, h);
      HunksAreLogged(q, path, rest);
      ParseJoin(p, HunkText(h), HunksText(rest));
      LogsJoin(p, q, ParseLines(q, HunksText(rest)), path, CodeBody(path, h.newStart, h.body), CodeHunks(path, rest));
    }
  }

  /** Lines that do not start with '+' leave the file and the log alone. */
  lemma {:induction false} QuietLines(p: Parse, lines: seq<string>)
    requires forall i :: 0 <= i < |lines| ==> !("+" <= lines[i])
    ensures var q := ParseLines(p, lines); q.file == p.file && q.log == p.log
    decreases |lines|
  {
    if lines != [] {
      var l := lines[0];
      assert "+++ b/" <= l || "+++ /dev/null" <= l ==> "+" <= l;
      QuietLines(ParseLine(p, l), lines[1..]);
    }
  }

  lemma {:induction false} DeletedIsQuiet(hs: seq<Hunk>)
    requires forall h, i :: h in hs && 0 <= i < |h.body| ==> !h.body[i].Added?
    ensures forall i :: 0 <= i < |HunksText(hs)| ==> !("+" <= HunksText(hs)[i])
  {
    if hs != [] {
      assert hs[0] in hs;
      DeletedIsQuiet(hs[1..]);
      BodyIsQuiet(hs[0].body);
      assert HeaderText(hs[0])[0] == '@';
    }
  }

  lemma {:induction false} BodyIsQuiet(body: seq<BodyLine>)
    requires forall i :: 0 <= i < |body| ==> !body[i].Added?
    ensures forall i :: 0 <= i < |BodyText(body)| ==> !("+" <= BodyText(body)[i])
  {
    if body != [] {
      BodyIsQuiet(body[1..]);
      PlainLineIs(body[0]);
      assert LineText(body[0])[0] != '+';
    }
  }

  lemma FileIsLogged(p: Parse, f: FileDiff)
    requires WellFormedFile(f) && PlainHunks(f.hunks)
    ensures ParseLines(p, FileText(f)).log == p.log + CodeFile(f)
  {
    var head, rest := PathText(f), HunksText(f.hunks);
    QuietLines(p, f.preamble);
    var p1 := ParseLines(p, f.preamble);
    var p2 := ParseLine(p1, head);
    ParseJoin(p, f.preamble, [head] + rest);
    ParseFirst(p1, head, rest);
    if f.newPath.Some? {
      assert head[6..] == f.newPath.value;
      HunksAreLogged(p2, f.newPath.value, f.hunks);
    } else {
      DeletedIsQuiet(f.hunks);
      QuietLines(p2, rest);
      assert p.log + [] == p.log;
    }
  }

  lemma LogJoin(a: seq<Anchor>, b: seq<Anchor>, c: seq<Anchor>, whole: seq<Anchor>)
    requires whole == (a + b) + c
    ensures whole == a + (b + c)
  {
  }

  lemma {:induction false} DiffIsLogged(p: Parse, fs: seq<FileDiff>)
    requires Plain(fs) && forall f :: f in fs ==> WellFormedFile(f)
    ensures ParseLines(p, DiffText(fs)).log == p.log + CodeDiff(fs)
    decreases |fs|
  {
    if fs == [] {
      assert p.log + [] == p.log;
    } else {
      var f, rest := fs[0], fs[1..];
      FileIsLogged(p, f);
      DiffIsLogged(ParseLines(p, FileText(f)), rest);
      ParseJoin(p, FileText(f), DiffText(rest));
      LogJoin(p.log, CodeFile(f), CodeDiff(rest), ParseLines(p, DiffText(fs)).log);
    }
  }

  lemma {:induction false} NoFileNoAnchors(p: Parse, lines: seq<string>)
    requires p.file.None? && forall i :: 0 <= i < |lines| ==> !("+++ b/" <= lines[i])
    ensures ParseLines(p, lines).file.None? && ParseLines(p, lines).log == p.log
    decreases |lines|
  {
    if lines != [] {
      NoFileNoAnchors(ParseLine(p, lines[0]), lines[1..]);
    }
  }

  /** After the line of a deleted file nothing is anchored until the next file line, whatever the lines say. */
  lemma DeletedFileAddsNothing(p: Parse, rest: string, lines: seq<string>)
    requires forall i :: 0 <= i < |lines| ==> !("+++ b/" <= lines[i])
    ensures ParseLines(p, ["+++ /dev/null" + rest] + lines).log == p.log
  {
    var line := "+++ /dev/null" + rest;
    ParseFirst(p, line, lines);
    assert line[4] == '/';
    NoFileNoAnchors(ParseLine(p, line), lines);
  }

  // ---------------------------------------------------------------- at most one anchor for each plain addition

  function PlusCount(lines: seq<string>): nat {
    if lines == [] then 0
    else (if "+" <= lines[0] && !("+++" <= lines[0]) then 1 else 0) + PlusCount(lines[1..])
  }

  lemma {:induction false} PlusCountJoin(a: seq<string>, b: seq<string>)
    ensures PlusCount(a + b) == PlusCount(a) + PlusCount(b)
  {
    if a == [] {
      assert a + b == b;
    } else {
      assert (a + b)[1..] == a[1..] + b;
      PlusCountJoin(a[1..], b);
    }
  }

  lemma PlusCountFirst(line: string, rest: seq<string>)
    ensures PlusCount([line] + rest) == (if "+" <= line && !("+++" <= line) then 1 else 0) + PlusCount(rest)
  {
    assert ([line] + rest)[1..] == rest;
  }

  lemma {:induction false} LogIsBounded(p: Parse, lines: seq<string>)
    ensures |ParseLines(p, lines).log| <= |p.log| + PlusCount(lines)
    decreases |lines|
  {
    if lines != [] {
      LogIsBounded(ParseLine(p, lines[0]), lines[1..]);
    }
  }

  lemma {:induction false} QuietCount(lines: seq<string>)
    requires forall i :: 0 <= i < |lines| ==> !("+" <= lines[i])
    ensures PlusCount(lines) == 0
  {
    if lines != [] {
      QuietCount(lines[1..]);
    }
  }

  lemma {:induction false} BodyCount(path: string, n: nat, body: seq<BodyLine>)
    ensures PlusCount(BodyText(body)) <= |TrueBody(path, n, body)|
    ensures PlusCount(BodyText(body)) == |TrueBody(path, n, body)| ==> PlainBody(body)
    decreases |body|
  {
    if body != [] {
      var b, rest := body[0], body[1..];
      BodyCount(path, if b.Context? || b.Added? then n + 1 else n, rest);
      PlusCountFirst(LineText(b), BodyText(rest));
      PlusLine(b);
    }
  }

  lemma PlusLine(b: BodyLine)
    ensures "+" <= LineText(b) && !("+++" <= LineText(b)) <==> b.Added? && !("++" <= b.text)
  {
    var l := LineText(b);
    if b.Added? {
      AddedLineIs(b.text);
      assert l[..1] == "+";
    }
    assert l[0] == match b case Context(_) => ' ' case Added(_) => '+' case Removed(_) => '-' case NoNewline => '\\';
  }

  lemma {:induction false} HunksCount(path: string, hs: seq<Hunk>)
    ensures PlusCount(HunksText(hs)) <= |TrueHunks(path, hs)|
    ensures PlusCount(HunksText(hs)) == |TrueHunks(path, hs)| ==> PlainHunks(hs)
  {
    if hs != [] {
      var h := hs[0];
      HunksCount(path, hs[1..]);
      BodyCount(path, h.newStart, h.body);
      assert HeaderText(h)[0] == '@';
      PlusCountFirst(HeaderText(h), BodyText(h.body));
      PlusCountJoin(HunkText(h), HunksText(hs[1..]));
    }
  }

  lemma FileCount(f: FileDiff)
    requires WellFormedFile(f)
    ensures PlusCount(FileText(f)) <= |TrueFile(f)|
    ensures PlusCount(FileText(f)) == |TrueFile(f)| ==> PlainHunks(f.hunks)
  {
    PlusCountJoin(f.preamble, [PathText(f)] + HunksText(f.hunks));
    QuietCount(f.preamble);
    PlusCountFirst(PathText(f), HunksText(f.hunks));
    if f.newPath.Some? {
      HunksCount(f.newPath.value, f.hunks);
    } else {
      DeletedIsQuiet(f.hunks);
      QuietCount(HunksText(f.hunks));
    }
  }

  lemma {:induction false} DiffCount(fs: seq<FileDiff>)
    requires forall f :: f in fs ==> WellFormedFile(f)
    ensures PlusCount(DiffText(fs)) <= |TrueDiff(fs)|
    ensures PlusCount(DiffText(fs)) == |TrueDiff(fs)| ==> Plain(fs)
  {
    if fs != [] {
      DiffCount(fs[1..]);
      FileCount(fs[0]);
      PlusCountJoin(FileText(fs[0]), DiffText(fs[1..]));
    }
  }

  // ---------------------------------------------------------------- what equal anchors mean

  lemma {:induction false} AnchorsAreTheLog(log: seq<Anchor>, file: string, line: nat)
    ensures file in AnchorsOf(log) && line in AnchorsOf(log)[file] <==> (file, line) in log
    decreases |log|
  {
    if log != [] {
      var init, last := log[..|log| - 1], log[|log| - 1];
      assert log == init + [last];
      AnchorsAreTheLog(init, file, line);
      assert last == (file, line) <==> last.0 == file && last.1 == line;
      assert (file, line) in log <==> (file, line) in init || last == (file, line);
    }
  }

  function Sum(log: seq<Anchor>): nat {
    if log == [] then 0 else log[0].1 + Sum(log[1..])
  }

  lemma {:induction false} SumJoin(a: seq<Anchor>, b: seq<Anchor>)
    ensures Sum(a + b) == Sum(a) + Sum(b)
  {
    if a == [] {
      assert a + b == b;
    } else {
      assert (a + b)[1..] == a[1..] + b;
      SumJoin(a[1..], b);
    }
  }

  lemma SumWithout(a: seq<Anchor>, i: nat)
    requires i < |a|
    ensures Sum(a) == a[i].1 + Sum(a[..i] + a[i + 1..])
  {
    assert a == a[..i] + a[i..] && a[i..][1..] == a[i + 1..];
    SumJoin(a[..i], a[i..]);
    SumJoin(a[..i], a[i + 1..]);
  }

  predicate Distinct(b: seq<Anchor>) {
    forall i, j :: 0 <= i < j < |b| ==> b[i] != b[j]
  }

  /** A log that covers distinct anchors is as long, and if no longer has the same sum. */
  lemma {:induction false} Covering(a: seq<Anchor>, b: seq<Anchor>)
    requires Distinct(b) && forall x :: x in b ==> x in a
    ensures |b| <= |a| && (|a| == |b| ==> Sum(a) == Sum(b))
    decreases |b|
  {
    if b != [] {
      assert b[0] in a;
      var i: nat :| i < |a| && a[i] == b[0];
      var less := a[..i] + a[i + 1..];
      forall x | x in b[1..] ensures x in less {
        assert x in a && x != a[i];
      }
      Covering(less, b[1..]);
      SumWithout(a, i);
    }
  }

  // ---------------------------------------------------------------- shifted lines

  predicate NoneAdded(body: seq<BodyLine>) {
    forall i :: 0 <= i < |body| ==> !body[i].Added?
  }

  lemma {:induction false} NothingAdded(path: string, n: nat, m: nat, body: seq<BodyLine>)
    requires NoneAdded(body)
    ensures CodeBody(path, n, body) == TrueBody(path, m, body) == []
    decreases |body|
  {
    if body != [] {
      NothingAdded(path, CodeNext(n, body[0]), if body[0].Context? then m + 1 else m, body[1..]);
    }
  }

  lemma {:induction false} UnshiftedIsExact(path: string, n: nat, body: seq<BodyLine>)
    requires UnshiftedBody(body)
    ensures CodeBody(path, n, body) == TrueBody(path, n, body)
    decreases |body|
  {
    if body != [] {
      if body[0].NoNewline? {
        NothingAdded(path, n + 1, n, body[1..]);
      } else {
        UnshiftedIsExact(path, CodeNext(n, body[0]), body[1..]);
      }
    }
  }

  /** Counting `k` lines too many pushes every later anchor down by at least `k`. */
  lemma {:induction false} BodySum(path: string, n: nat, k: nat, body: seq<BodyLine>)
    ensures var code, truth := CodeBody(path, n + k, body), TrueBody(path, n, body);
            && |code| == |truth| && Sum(code) >= Sum(truth)
            && (Sum(code) == Sum(truth) ==> UnshiftedBody(body) && (k == 0 || NoneAdded(body)))
    decreases |body|
  {
    if body != [] {
      var b, rest := body[0], body[1..];
      match b {
        case Context(_) => BodySum(path, n + 1, k, rest);
        case Added(_) =>
          BodySum(path, n + 1, k, rest);
          SumJoin([(path, n + k)], CodeBody(path, n + k + 1, rest));
          SumJoin([(path, n)], TrueBody(path, n + 1, rest));
        case Removed(_) => BodySum(path, n, k, rest);
        case NoNewline => BodySum(path, n, k + 1, rest);
      }
      AfterFirst(body, Sum(CodeBody(path, n + k, body)) == Sum(TrueBody(path, n, body)), k);
    }
  }

  lemma AfterFirst(body: seq<BodyLine>, same: bool, k: nat)
    requires body != []
    requires same ==> UnshiftedBody(body[1..])
    requires same ==> (k == 0 && !body[0].NoNewline?) || NoneAdded(body[1..])
    requires same && body[0].Added? ==> k == 0
    ensures same ==> UnshiftedBody(body) && (k == 0 || NoneAdded(body))
  {
    assert body == [body[0]] + body[1..];
    assert forall i :: 0 < i < |body| ==> body[i] == body[1..][i - 1];
  }

  /** The code's anchors never sum to less than the true ones, and to as much only if they are the same. */
  predicate Tracks(code: seq<Anchor>, truth: seq<Anchor>, exact: bool) {
    && |code| == |truth| && Sum(code) >= Sum(truth)
    && (Sum(code) == Sum(truth) ==> exact)
    && (exact ==> code == truth)
  }

  lemma TracksJoin(a: seq<Anchor>, b: seq<Anchor>, p: bool, c: seq<Anchor>, d: seq<Anchor>, q: bool)
    requires Tracks(a, b, p) && Tracks(c, d, q)
    ensures Tracks(a + c, b + d, p && q)
  {
    SumJoin(a, c);
    SumJoin(b, d);
  }

  lemma BodyTracks(path: string, n: nat, body: seq<BodyLine>)
    ensures Tracks(CodeBody(path, n, body), TrueBody(path, n, body), UnshiftedBody(body))
  {
    BodySum(path, n, 0, body);
    if UnshiftedBody(body) {
      UnshiftedIsExact(path, n, body);
    }
  }

  lemma {:induction false} HunksTrack(path: string, hs: seq<Hunk>)
    ensures Tracks(CodeHunks(path, hs), TrueHunks(path, hs), UnshiftedHunks(hs))
  {
    if hs != [] {
      var h, rest := hs[0], hs[1..];
      HunksTrack(path, rest);
      BodyTracks(path, h.newStart, h.body);
      TracksJoin(CodeBody(path, h.newStart, h.body), TrueBody(path, h.newStart, h.body), UnshiftedBody(h.body),
                 CodeHunks(path, rest), TrueHunks(path, rest), UnshiftedHunks(rest));
      assert UnshiftedHunks(hs) <==> UnshiftedBody(h.body) && UnshiftedHunks(rest);
    }
  }

  predicate UnshiftedFile(f: FileDiff) {
    f.newPath.Some? ==> UnshiftedHunks(f.hunks)
  }

  lemma FileTracks(f: FileDiff)
    ensures Tracks(CodeFile(f), TrueFile(f), UnshiftedFile(f))
  {
    if f.newPath.Some? {
      HunksTrack(f.newPath.value, f.hunks);
    }
  }

  lemma {:induction false} DiffTracks(fs: seq<FileDiff>)
    ensures Tracks(CodeDiff(fs), TrueDiff(fs), Unshifted(fs))
  {
    if fs != [] {
      var f, rest := fs[0], fs[1..];
      DiffTracks(rest);
      FileTracks(f);
      TracksJoin(CodeFile(f), TrueFile(f), UnshiftedFile(f), CodeDiff(rest), TrueDiff(rest), Unshifted(rest));
      assert Unshifted(fs) <==> UnshiftedFile(f) && Unshifted(rest);
    }
  }

  // ---------------------------------------------------------------- the theorem

  /** The anchors of a printed diff are its added lines exactly when it is plain and unshifted. */
  lemma AnchorsAreExact(fs: seq<FileDiff>)
    requires WellFormed(fs)
    ensures AnchorsOf(ParseLines(START, DiffText(fs)).log) == AnchorsOf(TrueDiff(fs)) <==> Plain(fs) && Unshifted(fs)
  {
    var log, truth := ParseLines(START, DiffText(fs)).log, TrueDiff(fs);
    if Plain(fs) {
      DiffIsLogged(START, fs);
      assert START.log + CodeDiff(fs) == CodeDiff(fs);
      DiffTracks(fs);
    }
    if AnchorsOf(log) == AnchorsOf(truth) {
      forall x: Anchor | x in truth ensures x in log {
        AnchorsAreTheLog(truth, x.0, x.1);
        AnchorsAreTheLog(log, x.0, x.1);
      }
      Covering(log, truth);
      LogIsBounded(START, DiffText(fs));
      DiffCount(fs);
    }
  }

  /** A diff of one file with one hunk. */
  function OneHunk(path: string, h: Hunk): seq<FileDiff> {
    [FileDiff([], Some(path), [h])]
  }

  lemma OneHunkIs(path: string, h: Hunk)
    ensures CodeDiff(OneHunk(path, h)) == CodeBody(path, h.newStart, h.body)
    ensures TrueDiff(OneHunk(path, h)) == TrueBody(path, h.newStart, h.body)
  {
    var fs := OneHunk(path, h);
    assert fs[1..] == [] && CodeDiff([]) == [] && TrueDiff([]) == [];
    assert [h][1..] == [] && CodeHunks(path, []) == [] && TrueHunks(path, []) == [];
    assert CodeHunks(path, [h]) == CodeBody(path, h.newStart, h.body) + [];
    assert TrueHunks(path, [h]) == TrueBody(path, h.newStart, h.body) + [];
    assert CodeDiff(fs) == CodeHunks(path, [h]) + [] && TrueDiff(fs) == TrueHunks(path, [h]) + [];
  }

  /** A last line without a newline, changed to another. */
  function ChangedLastLine(): seq<BodyLine> {
    [Removed("x"), NoNewline, Added("y"), NoNewline]
  }

  lemma ChangedLastLineIs(path: string)
    ensures CodeBody(path, 1, ChangedLastLine()) == [(path, 2)]
    ensures TrueBody(path, 1, ChangedLastLine()) == [(path, 1)]
  {
    var body := ChangedLastLine();
    assert body[1..] == [NoNewline, Added("y"), NoNewline] && body[1..][1..] == [Added("y"), NoNewline];
    assert body[1..][1..][1..] == [NoNewline] && body[1..][1..][1..][1..] == [];
  }

  /** The printed diff of such a change names line 2 of every path, and the added line is line 1. */
  lemma MarkerShiftsTheAddedLine(path: string)
    ensures var fs := OneHunk(path, Hunk(1, 1, "", ChangedLastLine()));
            WellFormed(fs) && Plain(fs) && TrueDiff(fs) == [(path, 1)]
            && ParseLines(START, DiffText(fs)).log == [(path, 2)]
  {
    var h := Hunk(1, 1, "", ChangedLastLine());
    OneHunkIs(path, h);
    ChangedLastLineIs(path);
    assert PlainBody(h.body) && PlainHunks([h]);
    DiffIsLogged(START, OneHunk(path, h));
  }
}
