/** Jev's calibration of serialized bytes per token, over the reals. */
module Calibration {
  import opened Options

  const STATE_QUESTION_TOKEN_LIMIT: real := 32_000.0
  const TOTAL_TOKEN_LIMIT: real := 64_000.0
  const TOKEN_LIMIT_MARGIN: real := 0.9
  const DEFAULT_RATE: real := 2.5
  const MIN_RATE: real := 1.5
  const MAX_RATE: real := 3.5
  const RISE_WEIGHT: real := 0.1

  /** A request's sizes: the state with the longest question, and the whole payload. */
  datatype Request = Request(stateAndQuestion: nat, total: nat)

  datatype Limit = StatePlusLongestQuestion | Total

  function Clamp(x: real): real {
    if x < MIN_RATE then MIN_RATE else if x > MAX_RATE then MAX_RATE else x
  }

  function Max(x: real, y: real): real {
    if x < y then y else x
  }

  /** The larger of the two per-limit ratios of a request. */
  function Bound(q: Request): real {
    Max(q.stateAndQuestion as real / STATE_QUESTION_TOKEN_LIMIT, q.total as real / TOTAL_TOKEN_LIMIT)
  }

  function ExceededLimit(q: Request, rate: real, margin: real): Option<Limit>
    requires rate != 0.0
  {
    if q.stateAndQuestion as real / rate > STATE_QUESTION_TOKEN_LIMIT * margin then Some(StatePlusLongestQuestion)
    else if q.total as real / rate > TOTAL_TOKEN_LIMIT * margin then Some(Total)
    else None
  }

  predicate InRange(rate: real) {
    MIN_RATE <= rate <= MAX_RATE
  }

  /** The rate after one observation; `None` stands for a value that is not finite. */
  function Observed(rate: real, x: Option<real>): real {
    if x.None? then rate
    else if Clamp(x.value) <= rate then Clamp(x.value)
    else rate + RISE_WEIGHT * (Clamp(x.value) - rate)
  }

  function Rejected(rate: real, q: Request): real {
    if Bound(q) < rate then Observed(rate, Some(Bound(q) * TOKEN_LIMIT_MARGIN)) else rate
  }

  class Calibration {
    var bytesPerToken: Option<real>

    function Rate(): real
      reads this
    {
      if bytesPerToken.Some? then bytesPerToken.value else DEFAULT_RATE
    }

    ghost predicate Valid()
      reads this
    {
      InRange(Rate())
    }

    constructor ()
      ensures Valid() && Rate() == DEFAULT_RATE
    {
      bytesPerToken := None;
    }

    method Observe(x: Option<real>)
      requires Valid()
      modifies this
      ensures Valid() && Rate() == Observed(old(Rate()), x)
    {
      if x.None? {
        return;
      }
      var observed, current := Clamp(x.value), Rate();
      bytesPerToken := Some(if observed <= current then observed else current + RISE_WEIGHT * (observed - current));
    }

    method ObserveUsage(bytes: nat, inputTokens: nat)
      requires Valid()
      modifies this
      ensures Valid()
      ensures Rate() == if inputTokens == 0 then old(Rate())
                        else Observed(old(Rate()), Some(bytes as real / inputTokens as real))
    {
      if inputTokens > 0 {
        Observe(Some(bytes as real / inputTokens as real));
      }
    }

    method ObserveRejection(q: Request)
      requires Valid()
      modifies this
      ensures Valid() && Rate() == Rejected(old(Rate()), q)
      ensures ExceededLimit(q, Rate(), TOKEN_LIMIT_MARGIN).Some? <==> Bound(q) > TOKEN_LIMIT_MARGIN * MIN_RATE
    {
      ghost var before := Rate();
      var bound := Bound(q);
      if bound < Rate() {
        Observe(Some(bound * TOKEN_LIMIT_MARGIN));
      }
      RejectionIsRemembered(before, q);
    }
  }

  // ---------------------------------------------------------------- the two limits as one ratio

  lemma Scaled(x: real, rate: real, limit: real)
    requires rate > 0.0 && limit > 0.0
    ensures x / rate > limit * TOKEN_LIMIT_MARGIN <==> x / limit > TOKEN_LIMIT_MARGIN * rate
  {
    var a, b := x / rate, x / limit;
    assert x == a * rate && x == b * limit;
    if a > limit * TOKEN_LIMIT_MARGIN {
      assert a * rate > (limit * TOKEN_LIMIT_MARGIN) * rate;
      assert b * limit > (TOKEN_LIMIT_MARGIN * rate) * limit;
    } else {
      assert a * rate <= (limit * TOKEN_LIMIT_MARGIN) * rate;
      assert b * limit <= (TOKEN_LIMIT_MARGIN * rate) * limit;
    }
  }

  /** A request passes the conservative check exactly when its larger ratio is within the margin. */
  lemma PassesIff(q: Request, rate: real)
    requires rate > 0.0
    ensures ExceededLimit(q, rate, TOKEN_LIMIT_MARGIN).None? <==> Bound(q) <= TOKEN_LIMIT_MARGIN * rate
  {
    Scaled(q.stateAndQuestion as real, rate, STATE_QUESTION_TOKEN_LIMIT);
    Scaled(q.total as real, rate, TOTAL_TOKEN_LIMIT);
  }

  /** After a size rejection the same request no longer passes, exactly when its ratio exceeds 1.35. */
  lemma RejectionIsRemembered(rate: real, q: Request)
    requires InRange(rate)
    ensures InRange(Rejected(rate, q))
    ensures ExceededLimit(q, Rejected(rate, q), TOKEN_LIMIT_MARGIN).Some?
            <==> Bound(q) > TOKEN_LIMIT_MARGIN * MIN_RATE
  {
    PassesIff(q, Rejected(rate, q));
  }

  /** A rejection means that some limit is exceeded: the true ratio is below the larger one. */
  lemma RejectionBoundsTheRatio(q: Request, truth: real)
    requires truth > 0.0
    ensures q.stateAndQuestion as real / truth > STATE_QUESTION_TOKEN_LIMIT
            || q.total as real / truth > TOTAL_TOKEN_LIMIT
            <==> truth < Bound(q)
  {
    Proportion(q.stateAndQuestion as real, truth, STATE_QUESTION_TOKEN_LIMIT);
    Proportion(q.total as real, truth, TOTAL_TOKEN_LIMIT);
  }

  lemma Proportion(x: real, rate: real, limit: real)
    requires rate > 0.0 && limit > 0.0
    ensures x / rate > limit <==> x / limit > rate
  {
    var a, b := x / rate, x / limit;
    assert x == a * rate && x == b * limit;
    if a > limit {
      assert a * rate > limit * rate;
    } else {
      assert a * rate <= limit * rate;
    }
  }

  /** What one observation does: a value that is not finite, nothing; one below the rate is taken
      over, down to 1.5; one above it, up to 3.5, moves the rate a tenth of the way. */
  lemma ObservedIs(rate: real, x: real)
    requires InRange(rate)
    ensures Observed(rate, None) == rate
    ensures 1.5 <= x <= rate ==> Observed(rate, Some(x)) == x
    ensures rate <= x <= 3.5 ==> 10.0 * (Observed(rate, Some(x)) - rate) == x - rate
    ensures x < 1.5 ==> Observed(rate, Some(x)) == 1.5
    ensures x > 3.5 ==> Observed(rate, Some(x)) == Observed(rate, Some(3.5))
  {
  }

  /** What one rejection does: a bound that the rate is under anyway, nothing; any other brings the
      rate to nine tenths of the bound, or to 1.5. */
  lemma RejectedIs(rate: real, q: Request)
    requires InRange(rate)
    ensures rate <= Bound(q) ==> Rejected(rate, q) == rate
    ensures Bound(q) < rate ==> 10.0 * Rejected(rate, q) == Max(15.0, 9.0 * Bound(q))
  {
  }

  /** The limit that is named: the state with the longest question, or the total if only that one is
      exceeded. */
  lemma ExceededNames(q: Request, rate: real, margin: real)
    requires rate > 0.0
    ensures ExceededLimit(q, rate, margin) == Some(StatePlusLongestQuestion)
            <==> q.stateAndQuestion as real > 32_000.0 * margin * rate
    ensures ExceededLimit(q, rate, margin) == Some(Total)
            <==> q.stateAndQuestion as real <= 32_000.0 * margin * rate && q.total as real > 64_000.0 * margin * rate
  {
    Share(q.stateAndQuestion as real, rate, STATE_QUESTION_TOKEN_LIMIT * margin);
    Share(q.total as real, rate, TOTAL_TOKEN_LIMIT * margin);
  }

  lemma Share(x: real, rate: real, limit: real)
    requires rate > 0.0
    ensures x / rate > limit <==> x > limit * rate
  {
    var a := x / rate;
    assert x == a * rate;
    if a > limit {
      assert a * rate > limit * rate;
    } else {
      assert a * rate <= limit * rate;
    }
  }

  // ---------------------------------------------------------------- runs

  datatype Event = Usage(x: Option<real>) | Rejection(q: Request)

  function After(rate: real, es: seq<Event>): real {
    if es == [] then rate
    else
      var before := After(rate, es[..|es| - 1]);
      match es[|es| - 1]
      case Usage(x) => Observed(before, x)
      case Rejection(q) => Rejected(before, q)
  }

  function Power(x: real, n: nat): real {
    if n == 0 then 1.0 else x * Power(x, n - 1)
  }

  function Ceiling(rate: real, n: nat): real {
    MAX_RATE - (MAX_RATE - rate) * Power(1.0 - RISE_WEIGHT, n)
  }

  lemma CeilingNext(rate: real, n: nat)
    ensures MAX_RATE - (1.0 - RISE_WEIGHT) * (MAX_RATE - Ceiling(rate, n)) == Ceiling(rate, n + 1)
  {
    var p := Power(1.0 - RISE_WEIGHT, n);
    assert (1.0 - RISE_WEIGHT) * ((MAX_RATE - rate) * p) == (MAX_RATE - rate) * ((1.0 - RISE_WEIGHT) * p);
  }

  /** The rate stays in range over every run, and `n` events raise it to the ceiling at most. */
  lemma {:induction false} RunsRiseSlowly(rate: real, es: seq<Event>)
    requires InRange(rate)
    ensures InRange(After(rate, es)) && After(rate, es) <= Ceiling(rate, |es|)
    decreases |es|
  {
    if es != [] {
      var before := After(rate, es[..|es| - 1]);
      RunsRiseSlowly(rate, es[..|es| - 1]);
      CeilingNext(rate, |es| - 1);
      assert After(rate, es) <= before + RISE_WEIGHT * (MAX_RATE - before);
    }
  }

  /** The ceiling is reached: nothing but observations of 3.5 or more rises that fast. */
  lemma {:induction false} CeilingIsReached(rate: real, es: seq<Event>)
    requires InRange(rate) && rate < MAX_RATE
    ensures After(rate, es) == Ceiling(rate, |es|)
            <==> forall i :: 0 <= i < |es| ==> es[i].Usage? && es[i].x.Some? && es[i].x.value >= MAX_RATE
    ensures After(rate, es) < MAX_RATE
    decreases |es|
  {
    if es != [] {
      var init, last := es[..|es| - 1], es[|es| - 1];
      RunsRiseSlowly(rate, init);
      CeilingIsReached(rate, init);
      CeilingNext(rate, |init|);
      assert es == init + [last];
    }
  }

  function Highest(n: nat): (es: seq<Event>)
    ensures |es| == n && forall i :: 0 <= i < n ==> es[i] == Usage(Some(MAX_RATE))
  {
    seq(n, _ => Usage(Some(MAX_RATE)))
  }

  lemma {:induction false} HighestStays(es: seq<Event>)
    requires forall i :: 0 <= i < |es| ==> es[i] == Usage(Some(MAX_RATE))
    ensures After(MAX_RATE, es) == MAX_RATE
    decreases |es|
  {
    if es != [] {
      HighestStays(es[..|es| - 1]);
    }
  }

  /** Whatever `n` events follow, a request that was rejected is refused. */
  ghost predicate StaysRefused(rate: real, q: Request, n: nat)
    requires InRange(rate)
  {
    forall es :: |es| == n ==>
                   var later := After(Rejected(rate, q), es);
                   InRange(later) && ExceededLimit(q, later, TOKEN_LIMIT_MARGIN).Some?
  }

  lemma RejectedStaysRefused(rate: real, q: Request, es: seq<Event>)
    requires InRange(rate)
    requires TOKEN_LIMIT_MARGIN * Ceiling(Rejected(rate, q), |es|) < Bound(q)
    ensures var later := After(Rejected(rate, q), es);
            InRange(later) && ExceededLimit(q, later, TOKEN_LIMIT_MARGIN).Some?
  {
    RejectionIsRemembered(rate, q);
    RunsRiseSlowly(Rejected(rate, q), es);
    PassesIff(q, After(Rejected(rate, q), es));
  }

  /** How long a rejection lasts: for `n` events of any kind, exactly while the ceiling of `n` events
      stays under the request's ratio. */
  lemma RejectionLasts(rate: real, q: Request, n: nat)
    requires InRange(rate)
    ensures StaysRefused(rate, q, n) <==> TOKEN_LIMIT_MARGIN * Ceiling(Rejected(rate, q), n) < Bound(q)
  {
    var start, es := Rejected(rate, q), Highest(n);
    RejectionIsRemembered(rate, q);
    RunsRiseSlowly(start, es);
    if start == MAX_RATE {
      HighestStays(es);
    } else {
      CeilingIsReached(start, es);
    }
    assert After(start, es) == Ceiling(start, n);
    PassesIff(q, After(start, es));
    if TOKEN_LIMIT_MARGIN * Ceiling(start, n) < Bound(q) {
      forall es | |es| == n
        ensures InRange(After(start, es)) && ExceededLimit(q, After(start, es), TOKEN_LIMIT_MARGIN).Some?
      {
        RejectedStaysRefused(rate, q, es);
      }
    }
  }

  ghost predicate RefusedAtEveryRate(q: Request) {
    forall rate :: InRange(rate) ==> ExceededLimit(q, rate, TOKEN_LIMIT_MARGIN).Some?
  }

  /** No calibration ever lets a request through exactly when its ratio exceeds 3.15. */
  lemma NeverPasses(q: Request)
    ensures RefusedAtEveryRate(q) <==> Bound(q) > TOKEN_LIMIT_MARGIN * MAX_RATE
  {
    PassesIff(q, MAX_RATE);
    assert InRange(MAX_RATE);
    forall rate | InRange(rate)
      ensures Bound(q) <= TOKEN_LIMIT_MARGIN * rate || ExceededLimit(q, rate, TOKEN_LIMIT_MARGIN).Some?
    {
      PassesIff(q, rate);
    }
  }
}
