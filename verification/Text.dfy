/** Text as the program handles it: a string is the sequence of its UTF-8 bytes, one `char` per
    byte. Every delimiter the program looks for is ASCII, so it never falls inside a longer
    encoded character. */
module Text {
  import opened Options

  const U32_MAX: nat := 0xFFFF_FFFF
  const U64_MAX: nat := 0xFFFF_FFFF_FFFF_FFFF

  predicate IsDigit(c: char) {
    '0' <= c <= '9'
  }

  predicate AllDigits(s: string) {
    forall i :: 0 <= i < |s| ==> IsDigit(s[i])
  }

  function Decimal(n: nat): (s: string)
    ensures s != [] && AllDigits(s)
  {
    var last := [(('0' as int) + n % 10) as char];
    if n < 10 then last else Decimal(n / 10) + last
  }

  function Value(s: string): nat
    requires AllDigits(s)
  {
    if s == [] then 0 else 10 * Value(s[..|s| - 1]) + (s[|s| - 1] as int - '0' as int)
  }

  /** `str::parse` for an unsigned type: one optional '+', then digits, then the range check. */
  function ParseUint(s: string, max: nat): Option<nat> {
    var digits := if s != [] && s[0] == '+' then s[1..] else s;
    if digits == [] || !AllDigits(digits) || Value(digits) > max then None else Some(Value(digits))
  }

  lemma {:induction false} ValueOfDecimal(n: nat)
    ensures Value(Decimal(n)) == n
  {
    if n >= 10 {
      ValueOfDecimal(n / 10);
      assert Decimal(n)[..|Decimal(n)| - 1] == Decimal(n / 10);
    }
  }

  lemma ParseOfDecimal(n: nat, max: nat)
    requires n <= max
    ensures ParseUint(Decimal(n), max) == Some(n)
  {
    ValueOfDecimal(n);
    assert Decimal(n)[0] != '+';
  }

  /** A number is read with or without a plus sign, exactly when it fits the type. */
  lemma SignedIsRead(n: nat, max: nat)
    ensures ParseUint(Decimal(n), max) == if n <= max then Some(n) else None
    ensures ParseUint(['+'] + Decimal(n), max) == ParseUint(Decimal(n), max)
  {
    ValueOfDecimal(n);
    assert Decimal(n)[0] != '+';
    assert (['+'] + Decimal(n))[1..] == Decimal(n);
  }

  /** `split_once(c)`: the position of the first `c`. */
  function First(s: string, c: char): (r: Option<nat>)
    ensures r.None? <==> c !in s
    ensures r.Some? ==> r.value < |s| && s[r.value] == c && c !in s[..r.value]
  {
    if s == [] then None
    else if s[0] == c then Some(0)
    else
      match First(s[1..], c)
      case None => None
      case Some(i) => assert s[..i + 1] == [s[0]] + s[1..][..i]; Some(i + 1)
  }

  /** `rsplit_once(c)`: the position of the last `c`. */
  function Last(s: string, c: char): (r: Option<nat>)
    ensures r.None? <==> c !in s
    ensures r.Some? ==> r.value < |s| && s[r.value] == c && c !in s[r.value + 1..]
  {
    if s == [] then None
    else if s[|s| - 1] == c then Some(|s| - 1)
    else
      assert s == s[..|s| - 1] + [s[|s| - 1]];
      match Last(s[..|s| - 1], c)
      case None => None
      case Some(i) => assert s[i + 1..] == s[..|s| - 1][i + 1..] + [s[|s| - 1]]; Some(i)
  }

  lemma {:induction false} FirstAt(a: string, c: char, b: string)
    requires c !in a
    ensures First(a + [c] + b, c) == Some(|a|)
  {
    if a != [] {
      assert (a + [c] + b)[1..] == a[1..] + [c] + b;
      FirstAt(a[1..], c, b);
    }
  }

  lemma {:induction false} FirstInPrefix(s: string, c: char, tail: string)
    ensures First(s + tail, c) ==
            if c in s then First(s, c)
            else if c in tail then Some(|s| + First(tail, c).value) else None
  {
    if s == [] {
      assert s + tail == tail;
    } else {
      assert (s + tail)[1..] == s[1..] + tail;
      FirstInPrefix(s[1..], c, tail);
    }
  }

  lemma {:induction false} LastAt(a: string, c: char, b: string)
    requires c !in b
    ensures Last(a + [c] + b, c) == Some(|a|)
  {
    if b != [] {
      var s := a + [c] + b;
      assert s[..|s| - 1] == a + [c] + b[..|b| - 1];
      LastAt(a, c, b[..|b| - 1]);
    }
  }

  /** `p` occurs in `s` at position `i`. */
  predicate At(s: string, p: string, i: nat) {
    i + |p| <= |s| && s[i..i + |p|] == p
  }

  predicate Contains(s: string, p: string) {
    exists i :: 0 <= i <= |s| && At(s, p, i)
  }
}
