/** The mention search jumps past every failed match. It misses nothing exactly when the name cannot
    overlap itself at a legal boundary. */
module Mentions {
  import opened Options
  import opened Text

  function LowerChar(c: char): char {
    if 'A' <= c <= 'Z' then ((c as int) + 32) as char else c
  }

  function Lower(s: string): (r: string)
    ensures |r| == |s|
    ensures forall i :: 0 <= i < |s| ==> r[i] == LowerChar(s[i])
  {
    seq(|s|, i requires 0 <= i < |s| => LowerChar(s[i]))
  }

  predicate IsAlnum(c: char) {
    '0' <= c <= '9' || 'a' <= c <= 'z' || 'A' <= c <= 'Z'
  }

  function TrimAts(name: string): string {
    if name != [] && name[0] == '@' then TrimAts(name[1..]) else name
  }

  function Needle(name: string): string {
    ['@'] + Lower(TrimAts(name))
  }

  predicate LegalBefore(s: string, i: nat)
    requires i <= |s|
  {
    i == 0 || !IsAlnum(s[i - 1])
  }

  predicate LegalAfter(s: string, j: nat)
    requires j <= |s|
  {
    j == |s| || (!IsAlnum(s[j]) && s[j] != '-')
  }

  predicate MentionAt(s: string, p: string, i: nat) {
    At(s, p, i) && LegalBefore(s, i) && LegalAfter(s, i + |p|)
  }

  /** What the search is for, in the text as written: "@name" in any letter case, standing alone. */
  ghost predicate Mentioned(text: string, name: string) {
    exists i: nat ::
      && i + |Needle(name)| <= |text|
      && Lower(text[i..i + |Needle(name)|]) == Needle(name)
      && LegalBefore(text, i) && LegalAfter(text, i + |Needle(name)|)
  }

  /** `find`: the first occurrence from a position on. */
  function FindFrom(s: string, p: string, from: nat): (r: Option<nat>)
    ensures r.Some? ==> from <= r.value && At(s, p, r.value)
    ensures r.Some? ==> forall i: nat :: from <= i < r.value ==> !At(s, p, i)
    ensures r.None? ==> forall i: nat :: from <= i ==> !At(s, p, i)
    decreases |s| - from
  {
    if At(s, p, from) then Some(from)
    else if from >= |s| then None
    else FindFrom(s, p, from + 1)
  }

  /** The search from a position on. */
  function Scan(s: string, p: string, from: nat): bool
    requires p != []
    decreases |s| - from
  {
    match FindFrom(s, p, from)
    case None => false
    case Some(i) => (LegalBefore(s, i) && LegalAfter(s, i + |p|)) || Scan(s, p, i + |p|)
  }

  lemma ScanStep(s: string, p: string, from: nat)
    requires p != []
    ensures var found := FindFrom(s, p, from);
            && (found.None? ==> !Scan(s, p, from))
            && (found.Some? ==>
                  && from < found.value + |p| <= |s|
                  && Scan(s, p, from) == ((LegalBefore(s, found.value) && LegalAfter(s, found.value + |p|))
                                          || Scan(s, p, found.value + |p|)))
  {
  }

  method MentionMatches(text: string, name: string) returns (r: bool)
    ensures r == Scan(Lower(text), Needle(name), 0)
  {
    r := Search(Lower(text), Needle(name));
  }

  method Search(text: string, needle: string) returns (r: bool)
    requires needle != []
    ensures r == Scan(text, needle, 0)
  {
    var searchFrom := 0;
    while true
      invariant searchFrom <= |text| && Scan(text, needle, searchFrom) == Scan(text, needle, 0)
      decreases |text| - searchFrom
    {
      ScanStep(text, needle, searchFrom);
      var found := FindFrom(text, needle, searchFrom);
      if found.None? {
        return false;
      }
      var start, end := found.value, found.value + |needle|;
      if LegalBefore(text, start) && LegalAfter(text, end) {
        return true;
      }
      searchFrom := end;
    }
  }

  /** The name overlaps itself, and the overlap starts after a character that may precede a mention. */
  predicate Overlaps(p: string) {
    exists d :: 0 < d < |p| && Overlap(p, d)
  }

  predicate Overlap(p: string, d: nat)
    requires 0 < d < |p|
  {
    p[d..] == p[..|p| - d] && !IsAlnum(p[d - 1])
  }

  lemma {:induction false} ScanIsSound(s: string, p: string, from: nat)
    requires p != [] && Scan(s, p, from)
    ensures exists i: nat :: MentionAt(s, p, i)
    decreases |s| - from
  {
    var i := FindFrom(s, p, from).value;
    if LegalBefore(s, i) && LegalAfter(s, i + |p|) {
      assert MentionAt(s, p, i);
    } else {
      ScanIsSound(s, p, i + |p|);
    }
  }

  /** Two overlapping occurrences make the name overlap itself. */
  lemma OverlapOf(s: string, p: string, i: nat, q: nat)
    requires At(s, p, i) && At(s, p, q) && i < q < i + |p| && !IsAlnum(s[q - 1])
    ensures Overlaps(p)
  {
    var d := q - i;
    assert p[d..] == s[q..i + |p|] == p[..|p| - d];
    assert p[d - 1] == s[q - 1];
    assert Overlap(p, d);
  }

  lemma {:induction false} ScanIsComplete(s: string, p: string, from: nat, q: nat)
    requires p != [] && !Overlaps(p) && MentionAt(s, p, q) && from <= q
    ensures Scan(s, p, from)
    decreases |s| - from
  {
    var i := FindFrom(s, p, from).value;
    if !(LegalBefore(s, i) && LegalAfter(s, i + |p|)) {
      if q < i + |p| {
        OverlapOf(s, p, i, q);
      }
      ScanIsComplete(s, p, i + |p|, q);
    }
  }

  /** For an overlapping name, the text whose mention the search steps over. */
  function HidingText(p: string, d: nat): string
    requires 0 < d < |p|
  {
    ['x'] + p[..d] + p
  }

  lemma HidingTextHolds(p: string, d: nat)
    requires 0 < d < |p| && Overlap(p, d)
    ensures var s := HidingText(p, d);
            At(s, p, 1) && At(s, p, d + 1) && |s| == d + 1 + |p| && s[0] == 'x' && s[d] == p[d - 1]
  {
    var s, n := HidingText(p, d), |p|;
    assert s[d + 1..d + 1 + n] == p;
    assert s[1..1 + n] == p[..d] + p[..n - d];
    assert p[..d] + p[d..] == p;
  }

  lemma OverlapHidesMention(p: string, d: nat)
    requires 0 < d < |p| && p[0] == '@' && Overlap(p, d)
    ensures MentionAt(HidingText(p, d), p, d + 1) && !Scan(HidingText(p, d), p, 0)
  {
    var s, n := HidingText(p, d), |p|;
    HidingTextHolds(p, d);
    assert !At(s, p, 0) by {
      assert s[0..n][0] == 'x';
    }
    assert FindFrom(s, p, 0) == Some(1);
    assert FindFrom(s, p, 1 + n).None?;
  }

  lemma LowerSlice(s: string, i: nat, j: nat)
    requires i <= j <= |s|
    ensures Lower(s)[i..j] == Lower(s[i..j])
  {
  }

  /** Letter case does not change which characters may stand next to a mention. */
  lemma LegalInLower(s: string, i: nat)
    requires i <= |s|
    ensures LegalBefore(Lower(s), i) <==> LegalBefore(s, i)
    ensures LegalAfter(Lower(s), i) <==> LegalAfter(s, i)
  {
  }

  lemma MentionedAt(text: string, p: string, i: nat)
    requires i + |p| <= |text|
    ensures MentionAt(Lower(text), p, i)
            <==> Lower(text[i..i + |p|]) == p && LegalBefore(text, i) && LegalAfter(text, i + |p|)
  {
    LowerSlice(text, i, i + |p|);
    LegalInLower(text, i);
    LegalInLower(text, i + |p|);
  }

  lemma MentionedIs(text: string, name: string)
    ensures Mentioned(text, name) <==> exists i: nat :: MentionAt(Lower(text), Needle(name), i)
  {
    var p := Needle(name);
    forall i: nat | i + |p| <= |text|
      ensures MentionAt(Lower(text), p, i)
              <==> Lower(text[i..i + |p|]) == p && LegalBefore(text, i) && LegalAfter(text, i + |p|)
    {
      MentionedAt(text, p, i);
    }
  }

  ghost predicate Complete(name: string) {
    forall text :: Scan(Lower(text), Needle(name), 0) <==> Mentioned(text, name)
  }

  lemma ScanIsExact(text: string, name: string)
    requires !Overlaps(Needle(name))
    ensures Scan(Lower(text), Needle(name), 0) <==> Mentioned(text, name)
  {
    var s, p := Lower(text), Needle(name);
    MentionedIs(text, name);
    if Scan(s, p, 0) {
      ScanIsSound(s, p, 0);
    }
    if i: nat :| MentionAt(s, p, i) {
      ScanIsComplete(s, p, 0, i);
    }
  }

  lemma NeedleIsLower(name: string, d: nat)
    requires 0 < d < |Needle(name)|
    ensures Lower(HidingText(Needle(name), d)) == HidingText(Needle(name), d)
  {
    var p := Needle(name);
    assert forall i :: 0 <= i < |p| ==> LowerChar(p[i]) == p[i];
  }

  lemma HiddenMention(name: string, d: nat)
    requires 0 < d < |Needle(name)| && Overlap(Needle(name), d)
    ensures var text := HidingText(Needle(name), d);
            Mentioned(text, name) && !Scan(Lower(text), Needle(name), 0)
  {
    OverlapHidesMention(Needle(name), d);
    NeedleIsLower(name, d);
    MentionedIs(HidingText(Needle(name), d), name);
  }

  lemma OverlapIsIncomplete(name: string, d: nat)
    requires 0 < d < |Needle(name)| && Overlap(Needle(name), d)
    ensures !Complete(name)
  {
    HiddenMention(name, d);
  }

  /** The search agrees with its description on every text exactly for the names that do not
      overlap themselves. */
  lemma SearchIsExact(name: string)
    ensures Complete(name) <==> !Overlaps(Needle(name))
  {
    if d :| 0 < d < |Needle(name)| && Overlap(Needle(name), d) {
      OverlapIsIncomplete(name, d);
    } else {
      forall text
        ensures Scan(Lower(text), Needle(name), 0) <==> Mentioned(text, name)
      {
        ScanIsExact(text, name);
      }
    }
  }

  /** Every account name is such a name: it holds no '@' past the leading ones. */
  lemma AccountNamesAreSearchable(name: string)
    requires '@' !in TrimAts(name)
    ensures Complete(name)
  {
    var p := Needle(name);
    forall d | 0 < d < |p|
      ensures !Overlap(p, d)
    {
      assert p[d] == LowerChar(TrimAts(name)[d - 1]);
      assert p[d..][0] != p[..|p| - d][0];
    }
    SearchIsExact(name);
  }

  /** A name that does overlap itself, with a text it is missed in. */
  lemma OverlappingNameExists()
    ensures !Complete("-@-")
  {
    var p := Needle("-@-");
    assert TrimAts("-@-") == "-@-" && p == "@-@-";
    assert p[2..] == p[..2];
    assert Overlap(p, 2);
    SearchIsExact("-@-");
  }

  // ---------------------------------------------------------------- what is found, in full

  predicate SameLetter(c: char, d: char) {
    || c == d
    || ('A' <= c <= 'Z' && d as int == c as int + 32)
    || ('A' <= d <= 'Z' && c as int == d as int + 32)
  }

  predicate SameName(a: string, b: string) {
    |a| == |b| && forall i :: 0 <= i < |a| ==> SameLetter(a[i], b[i])
  }

  function Ats(k: nat): (s: string)
    ensures |s| == k && forall i :: 0 <= i < k ==> s[i] == '@'
  {
    seq(k, _ => '@')
  }

  /** The text is "@" and the name in any letter case, with no letter or digit before it and no letter,
      digit or hyphen after it. */
  predicate Stands(text: string, bare: string, before: string, written: string, after: string) {
    && text == before + ['@'] + written + after
    && SameName(written, bare)
    && (before != "" ==> !IsAlnum(before[|before| - 1]))
    && (after != "" ==> !IsAlnum(after[0]) && after[0] != '-')
  }

  lemma {:induction false} TrimAtsIs(k: nat, bare: string)
    requires bare == "" || bare[0] != '@'
    ensures TrimAts(Ats(k) + bare) == bare
  {
    if k == 0 {
      assert Ats(0) + bare == bare;
    } else {
      assert (Ats(k) + bare)[1..] == Ats(k - 1) + bare;
      TrimAtsIs(k - 1, bare);
    }
  }

  lemma SameNameIs(a: string, b: string)
    ensures SameName(a, b) <==> Lower(a) == Lower(b)
  {
    if Lower(a) == Lower(b) {
      assert forall i :: 0 <= i < |a| ==> LowerChar(a[i]) == Lower(a)[i] == Lower(b)[i] == LowerChar(b[i]);
    }
  }

  /** A place of the text at which the lower-case needle stands, and its parts. */
  lemma PartsAt(text: string, bare: string, i: nat)
    requires i + 1 + |bare| <= |text|
    ensures var p, before, written, after :=
              ['@'] + Lower(bare), text[..i], text[i + 1..i + 1 + |bare|], text[i + 1 + |bare|..];
            Lower(text[i..i + |p|]) == p && LegalBefore(text, i) && LegalAfter(text, i + |p|)
            <==> Stands(text, bare, before, written, after)
  {
    var p, before, written, after :=
      ['@'] + Lower(bare), text[..i], text[i + 1..i + 1 + |bare|], text[i + 1 + |bare|..];
    assert text[i..i + |p|] == [text[i]] + written;
    NeedleHere(text[i], written, bare);
    SplitAt(text, i, written, after);
    hide Lower, SameName;
  }

  lemma NeedleHere(c: char, written: string, bare: string)
    ensures Lower([c] + written) == ['@'] + Lower(bare) <==> c == '@' && SameName(written, bare)
  {
    var here := Lower([c] + written);
    assert here == [LowerChar(c)] + Lower(written);
    SameNameIs(written, bare);
    hide Lower, SameName;
    assert here[1..] == Lower(written) && (['@'] + Lower(bare))[1..] == Lower(bare);
  }

  lemma SplitAt(text: string, i: nat, written: string, after: string)
    requires i + 1 + |written| <= |text|
    requires written == text[i + 1..i + 1 + |written|] && after == text[i + 1 + |written|..]
    ensures text == text[..i] + ['@'] + written + after <==> text[i] == '@'
    ensures i > 0 ==> text[..i][i - 1] == text[i - 1]
    ensures after != "" ==> after[0] == text[i + 1 + |written|]
  {
    var all := text[..i] + ['@'] + written + after;
    assert all[i] == '@';
    if text[i] == '@' {
      assert text == all;
    }
  }

  /** For a name with any number of "@" before it and none inside, the search finds exactly the texts
      in which it is mentioned. */
  lemma MentionMeans(text: string, k: nat, bare: string)
    requires '@' !in bare
    ensures Scan(Lower(text), Needle(Ats(k) + bare), 0)
            <==> exists before, written, after :: Stands(text, bare, before, written, after)
  {
    var name := Ats(k) + bare;
    var p := Needle(name);
    TrimAtsIs(k, bare);
    AccountNamesAreSearchable(name);
    assert Scan(Lower(text), p, 0) <==> Mentioned(text, name);
    assert p == ['@'] + Lower(bare);
    hide *;
    if Mentioned(text, name) {
      MentionStands(text, name, bare);
    }
    if before, written, after :| Stands(text, bare, before, written, after) {
      StandingIsMentioned(text, name, bare, before, written, after);
    }
  }

  lemma MentionStands(text: string, name: string, bare: string)
    requires Needle(name) == ['@'] + Lower(bare) && Mentioned(text, name)
    ensures exists before, written, after :: Stands(text, bare, before, written, after)
  {
    var p := Needle(name);
    var i: nat :| i + |p| <= |text| && Lower(text[i..i + |p|]) == p
                  && LegalBefore(text, i) && LegalAfter(text, i + |p|);
    hide *;
    PlaceStands(text, bare, p, i);
  }

  lemma PlaceStands(text: string, bare: string, p: string, i: nat)
    requires p == ['@'] + Lower(bare) && i + |p| <= |text|
    requires Lower(text[i..i + |p|]) == p && LegalBefore(text, i) && LegalAfter(text, i + |p|)
    ensures exists before, written, after :: Stands(text, bare, before, written, after)
  {
    hide *;
    PartsAt(text, bare, i);
    assert Stands(text, bare, text[..i], text[i + 1..i + 1 + |bare|], text[i + 1 + |bare|..]);
  }

  lemma StandingIsMentioned(text: string, name: string, bare: string, before: string, written: string, after: string)
    requires Needle(name) == ['@'] + Lower(bare) && Stands(text, bare, before, written, after)
    ensures Mentioned(text, name)
  {
    var p, i := Needle(name), |before|;
    assert text[..i] == before && text[i + 1..i + 1 + |bare|] == written && text[i + 1 + |bare|..] == after;
    PartsAt(text, bare, i);
    assert i + |p| <= |text| && Lower(text[i..i + |p|]) == p;
  }
}
