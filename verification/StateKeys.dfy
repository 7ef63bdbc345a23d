/** The keys of the durable tables, and the marker that ties a published post to its journal key. */
module StateKeys {
  import opened Options
  import opened Text

  const DEFAULT_REVIEW_KIND := "default"

  // ---------------------------------------------------------------- review records

  function PrStateKey(repo: string, pr: nat, kind: string): string {
    if kind == DEFAULT_REVIEW_KIND then repo + ['_'] + Decimal(pr)
    else repo + ['|'] + (Decimal(pr) + ['|'] + kind)
  }

  /** The scoped form `repo|number|kind`, read up to its second bar. */
  function ParseScoped(key: string): Option<(string, nat)> {
    match First(key, '|')
    case None => None
    case Some(i) =>
      var rest := key[i + 1..];
      match First(rest, '|')
      case None => None
      case Some(j) =>
        match ParseUint(rest[..j], U64_MAX)
        case None => None
        case Some(pr) => Some((key[..i], pr))
  }

  function ParsePrStateKey(key: string): Option<(string, nat)> {
    if ParseScoped(key).Some? then ParseScoped(key)
    else
      match Last(key, '_')
      case None => None
      case Some(i) =>
        match ParseUint(key[i + 1..], U64_MAX)
        case None => None
        case Some(pr) => Some((key[..i], pr))
  }

  /** What a caller can check about a name: a scoped key needs a name without a bar; a legacy key
      only needs a name that does not itself read as a scoped key. */
  predicate KeyReadsBack(repo: string, kind: string) {
    if kind == DEFAULT_REVIEW_KIND then ParseScoped(repo).None? else '|' !in repo
  }

  lemma ScopedPrefix(repo: string, tail: string)
    requires '|' !in tail
    ensures ParseScoped(repo + tail) == ParseScoped(repo)
  {
    hide First, ParseUint;
    FirstInPrefix(repo, '|', tail);
    if First(repo, '|').Some? {
      var i := First(repo, '|').value;
      var rest := repo[i + 1..];
      FirstInPrefix(rest, '|', tail);
      SplitInPrefix(repo, i, tail);
      if First(rest, '|').Some? {
        SplitInPrefix(rest, First(rest, '|').value, tail);
      }
    }
  }

  lemma SplitInPrefix(s: string, i: nat, tail: string)
    requires i < |s|
    ensures (s + tail)[..i] == s[..i] && (s + tail)[i + 1..] == s[i + 1..] + tail
  {
  }

  lemma LegacyKeysParseBack(repo: string, pr: nat)
    requires pr <= U64_MAX
    ensures ParsePrStateKey(PrStateKey(repo, pr, DEFAULT_REVIEW_KIND)) ==
            if ParseScoped(repo).None? then Some((repo, pr)) else ParseScoped(repo)
  {
    var key, tail := PrStateKey(repo, pr, DEFAULT_REVIEW_KIND), ['_'] + Decimal(pr);
    assert key == repo + tail;
    assert '|' !in tail;
    ScopedPrefix(repo, tail);
    LastAt(repo, '_', Decimal(pr));
    assert key[..|repo|] == repo && key[|repo| + 1..] == Decimal(pr);
    ParseOfDecimal(pr, U64_MAX);
  }

  lemma ScopedKeysParseBack(repo: string, pr: nat, kind: string)
    requires pr <= U64_MAX && kind != DEFAULT_REVIEW_KIND && '|' !in repo
    ensures ParseScoped(PrStateKey(repo, pr, kind)) == Some((repo, pr))
  {
    BarredNameIsScoped(repo, pr, kind);
  }

  /** A name with a bar is cut at the bar, or read as a legacy key that cannot end where it does. */
  lemma BarredKeysMisread(repo: string, pr: nat, kind: string)
    requires kind != DEFAULT_REVIEW_KIND && '|' in repo
    ensures ParsePrStateKey(PrStateKey(repo, pr, kind)) != Some((repo, pr))
  {
    var key, tail := PrStateKey(repo, pr, kind), ['|'] + (Decimal(pr) + ['|'] + kind);
    assert key == repo + tail;
    FirstInPrefix(repo, '|', tail);
    assert key[|repo|] == '|';
  }

  /** A key parses back to its repository and number exactly when the name check holds. */
  lemma KeysParseBack(repo: string, pr: nat, kind: string)
    requires pr <= U64_MAX
    ensures ParsePrStateKey(PrStateKey(repo, pr, kind)) == Some((repo, pr)) <==> KeyReadsBack(repo, kind)
  {
    if kind == DEFAULT_REVIEW_KIND {
      LegacyKeysParseBack(repo, pr);
      assert ParseScoped(repo).Some? ==> |ParseScoped(repo).value.0| < |repo|;
    } else if '|' in repo {
      BarredKeysMisread(repo, pr, kind);
    } else {
      ScopedKeysParseBack(repo, pr, kind);
    }
  }

  /** Distinct reviews whose names pass the check have distinct keys, over legacy and scoped kinds together. */
  lemma KeysAreDistinct(repo: string, pr: nat, kind: string, repo': string, pr': nat, kind': string)
    requires pr <= U64_MAX && pr' <= U64_MAX && KeyReadsBack(repo, kind) && KeyReadsBack(repo', kind')
    requires PrStateKey(repo, pr, kind) == PrStateKey(repo', pr', kind')
    ensures repo == repo' && pr == pr' && kind == kind'
  {
    KeysParseBack(repo, pr, kind);
    KeysParseBack(repo', pr', kind');
    SeparatorAt(repo, pr, kind);
    SeparatorAt(repo', pr', kind');
  }

  lemma SeparatorAt(repo: string, pr: nat, kind: string)
    ensures var key := PrStateKey(repo, pr, kind);
            && |key| > |repo|
            && key[|repo|] == (if kind == DEFAULT_REVIEW_KIND then '_' else '|')
            && (kind != DEFAULT_REVIEW_KIND ==>
                  |key| > |repo| + |Decimal(pr)| + 1 && key[|repo| + |Decimal(pr)| + 2..] == kind)
  {
  }

  /** Without the name check different reviews can share a record: the review of any scoped kind that
      ends in an underscore and a number has the key of a default review of a name with bars. */
  lemma KeysCollideOnBars(repo: string, pr: nat, kind: string, n: nat)
    requires kind + (['_'] + Decimal(n)) != DEFAULT_REVIEW_KIND
    ensures var barred := repo + ['|'] + (Decimal(pr) + ['|'] + kind);
            && PrStateKey(barred, n, DEFAULT_REVIEW_KIND) == PrStateKey(repo, pr, kind + (['_'] + Decimal(n)))
            && barred != repo
            && (pr <= U64_MAX && '|' !in repo ==> !KeyReadsBack(barred, DEFAULT_REVIEW_KIND))
  {
    Regroup(repo, Decimal(pr), kind, Decimal(n));
    assert |repo + ['|'] + (Decimal(pr) + ['|'] + kind)| > |repo|;
    if pr <= U64_MAX && '|' !in repo {
      BarredNameIsScoped(repo, pr, kind);
    }
  }

  lemma Regroup(repo: string, d: string, kind: string, n: string)
    ensures repo + ['|'] + (d + ['|'] + (kind + (['_'] + n))) == (repo + ['|'] + (d + ['|'] + kind)) + ['_'] + n
  {
  }

  lemma BarredNameIsScoped(repo: string, pr: nat, kind: string)
    requires pr <= U64_MAX && '|' !in repo
    ensures ParseScoped(repo + ['|'] + (Decimal(pr) + ['|'] + kind)) == Some((repo, pr))
  {
    var d := Decimal(pr);
    var key, rest := repo + ['|'] + (d + ['|'] + kind), d + ['|'] + kind;
    FirstAt(repo, '|', rest);
    assert key[..|repo|] == repo && key[|repo| + 1..] == rest;
    FirstAt(d, '|', kind);
    assert rest[..|d|] == d;
    ParseOfDecimal(pr, U64_MAX);
  }

  // ---------------------------------------------------------------- disclosure keys

  datatype DisclosureKey = DisclosureKey(repo: string, pr: nat, commit: string, kind: string, scope: string)

  predicate IsBytes(s: string) {
    forall i :: 0 <= i < |s| ==> (s[i] as int) < 256
  }

  predicate KeyIsBytes(k: DisclosureKey) {
    IsBytes(k.repo) && IsBytes(k.commit) && IsBytes(k.kind) && IsBytes(k.scope)
  }

  /** Every string the program builds a key from is a sequence of bytes. */
  type Key = k: DisclosureKey | KeyIsBytes(k) witness DisclosureKey("", 0, "", "", "")

  function Part(p: string): (r: string)
    ensures IsBytes(p) ==> IsBytes(r)
  {
    Decimal(|p|) + [':'] + p
  }

  function JoinParts(parts: seq<string>): (r: string)
    requires parts != []
    ensures (forall i :: 0 <= i < |parts| ==> IsBytes(parts[i])) ==> IsBytes(r)
  {
    if |parts| == 1 then Part(parts[0]) else Part(parts[0]) + (['|'] + JoinParts(parts[1..]))
  }

  function DisclosureStateKey(k: DisclosureKey): (r: string)
    ensures KeyIsBytes(k) ==> IsBytes(r)
  {
    JoinParts([k.repo, Decimal(k.pr), k.commit, k.kind, k.scope])
  }

  /** The length in front of a part reads back, and the part with it. */
  lemma PartReadsBack(p: string, x: string)
    ensures var s := Part(p) + x;
            && First(s, ':') == Some(|Decimal(|p|)|)
            && s[..|Decimal(|p|)|] == Decimal(|p|) && Value(Decimal(|p|)) == |p|
            && s[|Decimal(|p|)| + 1..] == p + x
  {
    var s := Part(p) + x;
    assert s == Decimal(|p|) + [':'] + (p + x);
    FirstAt(Decimal(|p|), ':', p + x);
    ValueOfDecimal(|p|);
  }

  lemma PartIsPrefixFree(p: string, x: string, q: string, y: string)
    requires Part(p) + x == Part(q) + y
    ensures p == q && x == y
  {
    PartReadsBack(p, x);
    PartReadsBack(q, y);
    assert p == (p + x)[..|p|] && q == (q + y)[..|p|];
    assert x == (p + x)[|p|..] && y == (q + y)[|p|..];
  }

  lemma {:induction false} JoinIsInjective(ps: seq<string>, qs: seq<string>)
    requires ps != [] && |ps| == |qs|
    requires JoinParts(ps) == JoinParts(qs)
    ensures ps == qs
  {
    if |ps| == 1 {
      PartIsPrefixFree(ps[0], [], qs[0], []);
      assert Part(ps[0]) + [] == Part(ps[0]) && Part(qs[0]) + [] == Part(qs[0]);
    } else {
      var x, y := ['|'] + JoinParts(ps[1..]), ['|'] + JoinParts(qs[1..]);
      PartIsPrefixFree(ps[0], x, qs[0], y);
      assert JoinParts(ps[1..]) == x[1..] == y[1..] == JoinParts(qs[1..]);
      JoinIsInjective(ps[1..], qs[1..]);
      assert ps == [ps[0]] + ps[1..] && qs == [qs[0]] + qs[1..];
    }
  }

  /** No two different (repository, number, commit, kind, scope) share a journal key. */
  lemma DisclosureKeysAreDistinct(k: DisclosureKey, k': DisclosureKey)
    requires DisclosureStateKey(k) == DisclosureStateKey(k')
    ensures k == k'
  {
    var ps := [k.repo, Decimal(k.pr), k.commit, k.kind, k.scope];
    var qs := [k'.repo, Decimal(k'.pr), k'.commit, k'.kind, k'.scope];
    JoinIsInjective(ps, qs);
    assert ps[0] == qs[0] && ps[1] == qs[1] && ps[2] == qs[2] && ps[3] == qs[3] && ps[4] == qs[4];
    ValueOfDecimal(k.pr);
    ValueOfDecimal(k'.pr);
  }

  // ---------------------------------------------------------------- disclosure markers

  const MARKER_OPEN := "<!-- fiach-disclosure:"
  const MARKER_CLOSE := " -->"

  /** The lower-case digit table. */
  function HexDigit(d: nat): char
    requires d < 16
  {
    if d < 10 then (('0' as int) + d) as char else (('a' as int) + d - 10) as char
  }

  predicate IsHexDigit(c: char) {
    '0' <= c <= '9' || 'a' <= c <= 'f'
  }

  function HexByte(c: char): string
    requires (c as int) < 256
  {
    [HexDigit(c as int / 16), HexDigit(c as int % 16)]
  }

  function Hex(s: string): (h: string)
    requires IsBytes(s)
    ensures |h| == 2 * |s|
    ensures forall i :: 0 <= i < |h| ==> IsHexDigit(h[i])
  {
    if s == [] then [] else Hex(s[..|s| - 1]) + HexByte(s[|s| - 1])
  }

  function Marker(k: Key): string {
    MARKER_OPEN + Hex(DisclosureStateKey(k)) + MARKER_CLOSE
  }

  /** The marker is built by pushing two hex digits per byte of the key. */
  method DisclosureMarker(k: Key) returns (marker: string)
    ensures marker == Marker(k)
  {
    var key := DisclosureStateKey(k);
    var encoded := "";
    for i := 0 to |key|
      invariant encoded == Hex(key[..i])
    {
      assert key[..i + 1][..i] == key[..i];
      encoded := encoded + [HexDigit(key[i] as int / 16)];
      encoded := encoded + [HexDigit(key[i] as int % 16)];
    }
    assert key[..|key|] == key;
    marker := MARKER_OPEN + encoded + MARKER_CLOSE;
  }

  lemma HexSplits(s: string)
    requires IsBytes(s) && s != []
    ensures var n := |s| - 1; Hex(s)[..2 * n] == Hex(s[..n]) && Hex(s)[2 * n..] == HexByte(s[n])
  {
  }

  lemma {:induction false} HexIsInjective(s: string, t: string)
    requires IsBytes(s) && IsBytes(t) && Hex(s) == Hex(t)
    ensures s == t
  {
    if s != [] {
      var n := |s| - 1;
      HexSplits(s);
      HexSplits(t);
      HexIsInjective(s[..n], t[..n]);
      HexByteIsInjective(s[n], t[n]);
      assert s == s[..n] + [s[n]] && t == t[..n] + [t[n]];
    }
  }

  function HexValue(c: char): nat
    requires IsHexDigit(c)
  {
    if c <= '9' then c as int - '0' as int else c as int - 'a' as int + 10
  }

  /** The two digits of each byte, the high one first, read back as that byte. */
  lemma {:induction false} HexReadsBack(s: string, i: nat)
    requires IsBytes(s) && i < |s|
    ensures 16 * HexValue(Hex(s)[2 * i]) + HexValue(Hex(s)[2 * i + 1]) == s[i] as int
  {
    var n := |s| - 1;
    if i < n {
      HexReadsBack(s[..n], i);
    } else {
      assert Hex(s)[2 * n] == HexByte(s[n])[0] && Hex(s)[2 * n + 1] == HexByte(s[n])[1];
      DigitReads(s[n] as int / 16);
      DigitReads(s[n] as int % 16);
    }
  }

  lemma DigitReads(d: nat)
    requires d < 16
    ensures IsHexDigit(HexDigit(d)) && HexValue(HexDigit(d)) == d
  {
  }

  lemma HexByteIsInjective(c: char, d: char)
    requires (c as int) < 256 && (d as int) < 256 && HexByte(c) == HexByte(d)
    ensures c == d
  {
    assert HexByte(c)[0] == HexByte(d)[0] && HexByte(c)[1] == HexByte(d)[1];
    assert c as int == 16 * (c as int / 16) + c as int % 16;
    assert d as int == 16 * (d as int / 16) + d as int % 16;
  }

  /** Hex digits and the rest of the marker avoid the bytes that delimit it. */
  lemma MarkerShape(k: Key)
    ensures forall i :: 0 < i < |Marker(k)| ==> Marker(k)[i] != '<'
    ensures Marker(k)[0] == '<' && '\n' !in Marker(k)
  {
    var h := Hex(DisclosureStateKey(k));
    forall i | 0 <= i < |Marker(k)|
      ensures Marker(k)[i] != '\n' && (i > 0 ==> Marker(k)[i] != '<')
    {
      if i < |MARKER_OPEN| {
        assert Marker(k)[i] == MARKER_OPEN[i];
      } else if i < |MARKER_OPEN| + |h| {
        assert Marker(k)[i] == h[i - |MARKER_OPEN|];
      } else {
        assert Marker(k)[i] == MARKER_CLOSE[i - |MARKER_OPEN| - |h|];
      }
    }
  }

  lemma MarkerPrefix(k: Key, k': Key)
    requires Marker(k) <= Marker(k')
    ensures k == k'
  {
    var h, h', n := Hex(DisclosureStateKey(k)), Hex(DisclosureStateKey(k')), |MARKER_OPEN|;
    var m, m' := Marker(k), Marker(k');
    assert m[n..n + |h|] == h && m'[n..n + |h'|] == h';
    assert m[n + |h|] == ' ' == m'[n + |h'|];
    assert m'[n + |h|] == ' ';
    assert forall i :: n <= i < n + |h'| ==> m'[i] == h'[i - n];
    assert |m| == |m'|;
    assert h == h';
    HexIsInjective(DisclosureStateKey(k), DisclosureStateKey(k'));
    DisclosureKeysAreDistinct(k, k');
  }

  /** An occurrence that is not in the report text is the whole trailing marker. */
  lemma MarkerAfterText(text: string, m: string, m': string, i: nat)
    requires At(text + "\n\n" + m', m, i)
    requires m != [] && m[0] == '<' && '\n' !in m
    requires forall j :: 0 < j < |m'| ==> m'[j] != '<'
    ensures At(text, m, i) || m <= m'
  {
    var body := text + "\n\n" + m';
    assert forall p :: i <= p < i + |m| ==> body[p] == m[p - i];
    assert body[|text|] == '\n' && body[|text| + 1] == '\n';
    if i + |m| <= |text| {
      assert text[i..i + |m|] == body[i..i + |m|];
    } else {
      assert i > |text| && body[i] == '<';
      assert i == |text| + 2;
      assert m' == body[|text| + 2..];
      assert m == m'[..|m|];
    }
  }

  /** The substring search cannot take one key's marker for another's: in a published body, a
      marker occurs only if the report text already held it or the body was published under it. */
  lemma MarkersAreUnambiguous(text: string, k: Key, k': Key)
    ensures Contains(text + "\n\n" + Marker(k'), Marker(k)) <==> Contains(text, Marker(k)) || k == k'
  {
    if Contains(text, Marker(k)) || k == k' {
      MarkerIsFound(text, Marker(k), Marker(k'));
    }
    if Contains(text + "\n\n" + Marker(k'), Marker(k)) {
      MarkerIsOwn(text, k, k');
    }
  }

  lemma MarkerIsFound(text: string, m: string, m': string)
    requires Contains(text, m) || m == m'
    ensures Contains(text + "\n\n" + m', m)
  {
    var body := text + "\n\n" + m';
    if i :| 0 <= i <= |text| && At(text, m, i) {
      OccursInPrefix(text, "\n\n" + m', m, i);
      assert text + ("\n\n" + m') == body;
      assert At(body, m, i);
    } else {
      assert At(body, m, |text| + 2);
    }
  }

  lemma MarkerIsOwn(text: string, k: Key, k': Key)
    requires Contains(text + "\n\n" + Marker(k'), Marker(k))
    ensures Contains(text, Marker(k)) || k == k'
  {
    var body, m, m' := text + "\n\n" + Marker(k'), Marker(k), Marker(k');
    var i :| 0 <= i <= |body| && At(body, m, i);
    MarkerShape(k);
    MarkerShape(k');
    MarkerAfterText(text, m, m', i);
    if m <= m' {
      MarkerPrefix(k, k');
    }
  }

  lemma OccursInPrefix(s: string, tail: string, p: string, i: nat)
    requires At(s, p, i)
    ensures At(s + tail, p, i)
  {
    assert (s + tail)[i..i + |p|] == s[i..i + |p|];
  }
}
