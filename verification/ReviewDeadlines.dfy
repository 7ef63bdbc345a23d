/** How late a review may report. Runs in which every attempt reports within a deadline of its claim
    keep the retry budget, and spend each mention once, exactly when the deadline is no longer than
    the stale window; the runs that fail are ones the scheduler makes. */
module ReviewDeadlines {
  import opened Options
  import opened Text
  import opened ReviewState
  import opened ReviewRuns

  // ---------------------------------------------------------------- the stale window

  const SETUP_SECS: nat := 300
  const STALE_GRACE_SECS: nat := 600
  const MIN_STALE: nat := SETUP_SECS + STALE_GRACE_SECS

  function Capped(n: nat): nat {
    if n > U64_MAX then U64_MAX else n
  }

  /** The bound on one review's time: a limit for each enabled phase, and the setup. */
  function HardTimeout(timeoutMins: nat, verify: bool, dedupe: bool): nat {
    var phases := 1 + (if verify then 1 else 0) + (if verify && dedupe then 1 else 0);
    Capped(Capped(Capped(timeoutMins * 60) * phases) + SETUP_SECS)
  }

  function StaleAfter(timeoutMins: nat, verify: bool, dedupe: bool): nat {
    Capped(HardTimeout(timeoutMins, verify, dedupe) + STALE_GRACE_SECS)
  }

  /** The window is at least fifteen minutes, and outlasts the review by its grace unless it saturates. */
  lemma StaleOutlastsReview(timeoutMins: nat, verify: bool, dedupe: bool)
    ensures var hard, stale := HardTimeout(timeoutMins, verify, dedupe), StaleAfter(timeoutMins, verify, dedupe);
            && MIN_STALE <= stale <= U64_MAX
            && (stale < U64_MAX ==> stale == hard + STALE_GRACE_SECS)
  {
  }

  /** Each enabled phase, of at most three, gets its own limit: as long as nothing saturates, the
      window is fifteen minutes and that many times the limit. */
  lemma StaleIs(timeoutMins: nat, verify: bool, dedupe: bool)
    requires StaleAfter(timeoutMins, verify, dedupe) < U64_MAX
    ensures StaleAfter(timeoutMins, verify, dedupe)
            == 900 + if !verify then 60 * timeoutMins else if !dedupe then 120 * timeoutMins else 180 * timeoutMins
  {
  }

  // ---------------------------------------------------------------- runs with a deadline

  /** An attempt reports within `d` of its claim. */
  predicate Within(d: nat, s: Run, e: Event) {
    (e.Finish? || e.Fail?) && Open(s, e.attempt) ==> e.now - s.attempts[e.attempt].claimedAt <= d
  }

  /** Runs the scheduler makes in which every report meets the deadline. */
  predicate LegalWithin(c: Config, d: nat, s: Run, es: seq<Event>)
    decreases |es|
  {
    es == []
    || (Enabled(s, es[0]) && Scheduled(s, es[0]) && Within(d, s, es[0])
        && LegalWithin(c, d, Step(c, s, es[0]), es[1..]))
  }

  lemma {:induction false} WithinIsLegal(c: Config, d: nat, s: Run, es: seq<Event>)
    requires LegalWithin(c, d, s, es)
    ensures Legal(c, s, es)
    decreases |es|
  {
    if es != [] {
      WithinIsLegal(c, d, Step(c, s, es[0]), es[1..]);
    }
  }

  lemma {:induction false} WithinIsTimely(c: Config, d: nat, s: Run, es: seq<Event>)
    requires LegalWithin(c, d, s, es) && d <= c.stale
    ensures LegalAndTimely(c, s, es)
    decreases |es|
  {
    if es != [] {
      WithinIsTimely(c, d, Step(c, s, es[0]), es[1..]);
    }
  }

  /** A run built one event at a time: `es` leads from `s` to `t`. */
  ghost predicate Leads(c: Config, d: nat, s: Run, es: seq<Event>, t: Run) {
    LegalWithin(c, d, s, es) && Legal(c, s, es) && Exec(c, s, es) == t
  }

  lemma {:induction false} LeadsOn(c: Config, d: nat, s: Run, es: seq<Event>, t: Run, e: Event)
    requires Leads(c, d, s, es, t) && Enabled(t, e) && Scheduled(t, e) && Within(d, t, e)
    ensures Leads(c, d, s, es + [e], Step(c, t, e))
    decreases |es|
  {
    if es == [] {
      assert [] + [e] == [e] && [e][1..] == [];
    } else {
      assert (es + [e])[1..] == es[1..] + [e];
      LeadsOn(c, d, Step(c, s, es[0]), es[1..], t, e);
    }
  }

  // ---------------------------------------------------------------- the retry budget

  /** A retry by a poll, once it is due and no claim is live. */
  lemma DueRetry(c: Config, s: Run, status: Status, count: nat, t: int, now: int)
    requires count < c.limit <= U32_MAX && s.clock <= now && (status.InProgress? || status.Failed?)
    requires s.rec == Some(Fresh("head", status, count, t)) && now - t >= RetryDelay(count) + RETRY_WINDOW_SECS
    requires status.InProgress? ==> c.stale < now - t <= U64_MAX
    ensures var next := Step(c, s, Try(Poll, None, "head", now));
            && next.rec == Some(Fresh("head", InProgress, count + 1, now))
            && next.retries == s.retries + [now] && next.clock == now
            && next.attempts == s.attempts + [Attempt("head", Head("head"), now, count + 1, true, status.InProgress?)]
  {
    AgeBelow(now - t);
  }

  /** The last attempt has failed, nothing is open, and `extra` more retries started than are counted. */
  predicate Failing(s: Run, count: nat, extra: nat) {
    && s.rec == Some(Fresh("head", Failed, count, s.clock)) && |s.retries| == count + extra
    && forall i :: 0 <= i < |s.attempts| ==> !s.attempts[i].open
  }

  /** The next poll retries and reports its failure at once. */
  lemma FailsAgain(c: Config, d: nat, s: Run, count: nat, extra: nat)
    requires count < c.limit <= U32_MAX && Failing(s, count, extra)
    ensures var now, n := s.clock + MAX_RETRY_DELAY_SECS + RETRY_WINDOW_SECS, |s.attempts|;
            var e, f := Try(Poll, None, "head", now), Fail(n, now, now);
            && Enabled(s, e) && Scheduled(s, e) && Within(d, s, e)
            && var t := Step(c, s, e);
               && Enabled(t, f) && Scheduled(t, f) && Within(d, t, f) && Failing(Step(c, t, f), count + 1, extra)
  {
    var now, n := s.clock + MAX_RETRY_DELAY_SECS + RETRY_WINDOW_SECS, |s.attempts|;
    DueRetry(c, s, Failed, count, s.clock, now);
    assert Open(Step(c, s, Try(Poll, None, "head", now)), n);
  }

  lemma {:induction false} FailsOn(c: Config, d: nat, s0: Run, init: seq<Event>, s: Run, extra: nat, k: nat)
    returns (es: seq<Event>, t: Run)
    requires k <= c.limit <= U32_MAX && Leads(c, d, s0, init, s) && Failing(s, 0, extra)
    ensures Leads(c, d, s0, es, t) && Failing(t, k, extra)
  {
    if k == 0 {
      es, t := init, s;
    } else {
      es, t := FailsOn(c, d, s0, init, s, extra, k - 1);
      var now := t.clock + MAX_RETRY_DELAY_SECS + RETRY_WINDOW_SECS;
      var e, f := Try(Poll, None, "head", now), Fail(|t.attempts|, now, now);
      FailsAgain(c, d, t, k - 1, extra);
      LeadsOn(c, d, s0, es, t, e);
      LeadsOn(c, d, s0, es + [e], Step(c, t, e), f);
      es, t := es + [e] + [f], Step(c, Step(c, t, e), f);
    }
  }

  /** A manual review and a poll that retries its commit, each claimed once and still out. */
  predicate Overtaken(s: Run, t: int) {
    && s.rec == Some(Fresh("head", InProgress, 1, t)) && s.clock == t && s.retries == [t]
    && s.attempts == [Attempt("head", Pending, 0, 0, true, false), Attempt("head", Head("head"), t, 1, true, true)]
  }

  lemma ManualIsOvertaken(c: Config, d: nat) returns (es: seq<Event>, s: Run)
    requires MIN_STALE <= c.stale < U64_MAX && 0 < c.limit <= U32_MAX
    ensures Leads(c, d, Begin(None, 0), es, s) && Overtaken(s, c.stale + 1)
  {
    var s0, e1, e2 := Begin(None, 0), Try(Manual, None, "head", 0), Try(Poll, None, "head", c.stale + 1);
    var s1 := Step(c, s0, e1);
    assert s1.rec == Some(Fresh("head", InProgress, 0, 0));
    assert s1.attempts == [Attempt("head", Pending, 0, 0, true, false)];
    RetryDelayIs(0);
    DueRetry(c, s1, InProgress, 0, 0, c.stale + 1);
    LeadsOn(c, d, s0, [], s0, e1);
    LeadsOn(c, d, s0, [] + [e1], s1, e2);
    es, s := [] + [e1] + [e2], Step(c, s1, e2);
  }

  /** The poll reports first; the manual review reports last, as late as the deadline lets it. */
  lemma CountIsErased(c: Config, d: nat, s: Run)
    requires d > c.stale && Overtaken(s, c.stale + 1)
    ensures var f1, f0 := Fail(1, s.clock, s.clock), Fail(0, s.clock, s.clock);
            && Enabled(s, f1) && Scheduled(s, f1) && Within(d, s, f1)
            && var t := Step(c, s, f1);
               && Enabled(t, f0) && Scheduled(t, f0) && Within(d, t, f0) && Failing(Step(c, t, f0), 0, 1)
  {
    assert Open(s, 1) && Open(s, 0);
    var t := Step(c, s, Fail(1, s.clock, s.clock));
    assert t.attempts[0] == s.attempts[0] && Open(t, 0);
  }

  /** With a deadline one second past the stale window, a run that starts one retry too many. */
  lemma LateReportsOverspend(c: Config, d: nat) returns (es: seq<Event>, t: Run)
    requires MIN_STALE <= c.stale < U64_MAX && 0 < c.limit <= U32_MAX && d > c.stale
    ensures Leads(c, d, Begin(None, 0), es, t) && |t.retries| == c.limit + 1
  {
    var s0 := Begin(None, 0);
    var init, s := ManualIsOvertaken(c, d);
    var f1, f0 := Fail(1, s.clock, s.clock), Fail(0, s.clock, s.clock);
    CountIsErased(c, d, s);
    LeadsOn(c, d, s0, init, s, f1);
    LeadsOn(c, d, s0, init + [f1], Step(c, s, f1), f0);
    es, t := FailsOn(c, d, s0, init + [f1] + [f0], Step(c, Step(c, s, f1), f0), 1, c.limit);
  }

  lemma {:induction false} NoBudgetNoRetries(c: Config, s: Run, es: seq<Event>)
    requires c.limit == 0 && s.retries == [] && Legal(c, s, es)
    ensures Exec(c, s, es).retries == []
    decreases |es|
  {
    if es != [] {
      NoBudgetNoRetries(c, Step(c, s, es[0]), es[1..]);
    }
  }

  ghost predicate KeepsBudget(c: Config, d: nat) {
    forall es, t :: Leads(c, d, Begin(None, 0), es, t) ==> |t.retries| <= c.limit
  }

  /** The budget is kept over every run with deadline `d` exactly when there is nothing to spend or
      the deadline is no longer than the stale window. */
  lemma BudgetNeedsTimelyReports(c: Config, d: nat)
    requires MIN_STALE <= c.stale < U64_MAX && c.limit <= U32_MAX
    ensures KeepsBudget(c, d) <==> c.limit == 0 || d <= c.stale
  {
    if c.limit == 0 {
      forall es, t | Leads(c, d, Begin(None, 0), es, t) ensures |t.retries| <= c.limit {
        NoBudgetNoRetries(c, Begin(None, 0), es);
      }
    } else if d <= c.stale {
      forall es, t | Leads(c, d, Begin(None, 0), es, t) ensures |t.retries| <= c.limit {
        WithinIsTimely(c, d, Begin(None, 0), es);
        RetriesAreBoundedAndSpaced(c, None, 0, es);
      }
    } else {
      var es, t := LateReportsOverspend(c, d);
      assert |t.retries| > c.limit;
    }
  }

  // ---------------------------------------------------------------- mentions

  predicate MentionsArePast(es: seq<Event>) {
    forall i :: 0 <= i < |es| ==> MentionIsPast(es[i])
  }

  lemma PastSnoc(es: seq<Event>, e: Event)
    requires MentionsArePast(es) && MentionIsPast(e)
    ensures MentionsArePast(es + [e])
  {
  }

  /** A manual review outlives its claim, and a poll whose mention is newer has started another. */
  predicate Outlived(s: Run, m: int, t: int) {
    && s.rec == Some(Fresh("head", InProgress, 1, t)) && s.clock == t && s.mentions == [m]
    && s.attempts == [Attempt("head", Pending, m - 1, 0, true, false), Attempt("head", Head("head"), t, 0, true, true)]
  }

  lemma MentionOutlivesManual(c: Config, d: nat, m: int) returns (es: seq<Event>, s: Run)
    requires c.stale < U64_MAX
    ensures Leads(c, d, Begin(None, m - 1), es, s) && MentionsArePast(es) && Outlived(s, m, m + c.stale)
  {
    var s0, t := Begin(None, m - 1), m + c.stale;
    var e1, e2 := Try(Manual, None, "head", m - 1), Try(Poll, Some(m), "head", t);
    var s1 := Step(c, s0, e1);
    assert s1.rec == Some(Fresh("head", InProgress, 0, m - 1)) && s1.mentions == [];
    assert s1.attempts == [Attempt("head", Pending, m - 1, 0, true, false)];
    AgeBelow(t - (m - 1));
    LeadsOn(c, d, s0, [], s0, e1);
    LeadsOn(c, d, s0, [] + [e1], s1, e2);
    es, s := [] + [e1] + [e2], Step(c, s1, e2);
  }

  /** Both reviews fail, the manual one in finalization, which keeps the date of its own record; and
      the mention is seen again. */
  lemma MentionIsSeenAgain(c: Config, d: nat, s: Run, m: int, t: int)
    requires t == m + c.stale && d > c.stale && Outlived(s, m, t)
    ensures var f1, f0, e := Fail(1, t, t), Fail(0, m - 1, t), Try(Poll, Some(m), "head", t);
            && Enabled(s, f1) && Scheduled(s, f1) && Within(d, s, f1)
            && var s3 := Step(c, s, f1);
               && Enabled(s3, f0) && Scheduled(s3, f0) && Within(d, s3, f0)
               && var s4 := Step(c, s3, f0);
                  Enabled(s4, e) && Scheduled(s4, e) && Within(d, s4, e) && Step(c, s4, e).mentions == [m, m]
  {
    assert Open(s, 1) && Open(s, 0);
    var s3 := Step(c, s, Fail(1, t, t));
    assert s3.attempts[0] == s.attempts[0] && Open(s3, 0);
    var s4 := Step(c, s3, Fail(0, m - 1, t));
    assert s4.rec == Some(Fresh("head", Failed, 0, m - 1)) && s4.mentions == [m];
    assert [m] + [m] == [m, m];
  }

  /** With a deadline one second past the stale window, a report that dates the record back to before
      the mention that has started a review since lets it start another. */
  lemma BackdatedReportsRepeat(c: Config, d: nat, m: int) returns (es: seq<Event>, t: Run)
    requires c.stale < d && c.stale < U64_MAX
    ensures Leads(c, d, Begin(None, m - 1), es, t) && MentionsArePast(es) && t.mentions == [m, m]
  {
    var s0, now := Begin(None, m - 1), m + c.stale;
    var init, s := MentionOutlivesManual(c, d, m);
    var f1, f0, e := Fail(1, now, now), Fail(0, m - 1, now), Try(Poll, Some(m), "head", now);
    MentionIsSeenAgain(c, d, s, m, now);
    hide *;
    var s3 := Step(c, s, f1);
    var s4 := Step(c, s3, f0);
    LeadsOn(c, d, s0, init, s, f1);
    PastSnoc(init, f1);
    LeadsOn(c, d, s0, init + [f1], s3, f0);
    PastSnoc(init + [f1], f0);
    LeadsOn(c, d, s0, init + [f1] + [f0], s4, e);
    PastSnoc(init + [f1] + [f0], e);
    es, t := init + [f1] + [f0] + [e], Step(c, s4, e);
  }

  predicate Increasing(ms: seq<int>) {
    forall i, j :: 0 <= i < j < |ms| ==> ms[i] < ms[j]
  }

  /** From an empty database at any time, no past mention starts two reviews. */
  ghost predicate SpendsMentions(c: Config, d: nat) {
    forall clock, es, t ::
      Leads(c, d, Begin(None, clock), es, t) && MentionsArePast(es) ==> Increasing(t.mentions)
  }

  /** Past mentions are one-shot over every run with deadline `d` exactly when the deadline is no
      longer than the stale window. */
  lemma MentionsNeedTimelyReports(c: Config, d: nat)
    requires c.stale < U64_MAX && c.limit <= U32_MAX
    ensures SpendsMentions(c, d) <==> d <= c.stale
  {
    if d <= c.stale {
      forall clock, es, t | Leads(c, d, Begin(None, clock), es, t) && MentionsArePast(es)
        ensures Increasing(t.mentions)
      {
        WithinIsTimely(c, d, Begin(None, clock), es);
        BeginIsTimely(c, None, clock);
        TimelyRunsGoForward(c, Begin(None, clock), es);
        MentionsAreOneShot(c, Begin(None, clock), es);
      }
    } else {
      var es, t := BackdatedReportsRepeat(c, d, 1);
      assert t.mentions[0] == t.mentions[1];
      assert !Increasing(t.mentions);
    }
  }
}
