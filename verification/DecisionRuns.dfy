/** Runs in which a job decides and claims in two transactions, with anything in between. The retry
    budget and the spacing hold as long as each claim finds the record its decision saw; without
    that, timely reports are not enough. */
module DecisionRuns {
  import opened Options
  import opened Text
  import opened ReviewState
  import opened ReviewRuns
  import opened ReviewDeadlines

  /** A decision that has not been acted on, and the record it was made on. */
  datatype Intent = Intent(
    origin: Origin, mention: Option<int>, commit: string, decision: Decision, seen: Option<Record>, at: int)

  datatype State = State(run: Run, pending: map<nat, Intent>)

  datatype Move =
    | Decides(job: nat, origin: Origin, mention: Option<int>, commit: string, now: int)
    | Claims(job: nat, now: int)
    | Plain(e: Event)           // an event of the run; a restart forgets what is pending

  function When(m: Move): int {
    match m
    case Decides(_, _, _, _, now) => now
    case Claims(_, now) => now
    case Plain(e) => e.now
  }

  predicate Enabled(s: State, m: Move) {
    match m
    case Decides(job, origin, mention, _, now) =>
      s.run.clock <= now && job !in s.pending && (mention.Some? ==> origin.Poll?)
    case Claims(job, now) => s.run.clock <= now && job in s.pending
    case Plain(e) => ReviewRuns.Enabled(s.run, e)
  }

  /** Nothing has changed the record between the decision and the claim, which comes within the age
      that 64 bits hold. */
  predicate Undisturbed(s: State, m: Move) {
    m.Claims? && m.job in s.pending ==>
      s.run.rec == s.pending[m.job].seen && (s.run.rec.Some? ==> m.now - s.run.rec.value.timestamp <= U64_MAX)
  }

  predicate Timely(c: Config, s: State, m: Move) {
    m.Plain? ==> ReviewRuns.Timely(c, s.run, m.e)
  }

  /** The decision's transaction migrates the record and does nothing else. */
  function Decided(c: Config, s: Run, now: int): Run {
    var m := Migrate(s.rec, c.key, now);
    if m == s.rec then s.(clock := now)
    else s.(clock := now, rec := m, epoch := now, retries := [], migrations := s.migrations + 1)
  }

  /** The claim's transaction, for a decision made earlier. */
  function Claimed(c: Config, s: Run, p: Intent, now: int): Run {
    var claim := Claim(s.rec, p.commit, c.stale, now);
    if p.decision.Skip? || claim.None? then s.(clock := now)
    else
      var a := Attempt(p.commit, TargetOf(p.origin, p.commit), now, CountForAttempt(p.decision, s.rec), true,
                       s.rec.Some? && s.rec.value.status.InProgress?);
      var s2 := s.(clock := now, rec := claim, attempts := s.attempts + [a]);
      if p.decision.RetryFailed? then s2.(retries := s.retries + [now])
      else s2.(retries := [], epoch := now,
               mentions := if p.mention.Some? then s.mentions + [p.mention.value] else s.mentions)
  }

  function Apply(c: Config, s: State, m: Move): State
    requires Enabled(s, m)
  {
    match m
    case Decides(job, origin, mention, commit, now) =>
      var run := Decided(c, s.run, now);
      var d := EffectiveDecision(origin, mention, Decide(run.rec, c.key, commit, c.stale, Some(c.limit), now), run.rec);
      State(run, s.pending[job := Intent(origin, mention, commit, d, run.rec, now)])
    case Claims(job, now) => State(Claimed(c, s.run, s.pending[job], now), s.pending - {job})
    case Plain(e) => State(Step(c, s.run, e), if e.Restart? then map[] else s.pending)
  }

  predicate Legal(c: Config, s: State, ms: seq<Move>)
    decreases |ms|
  {
    ms == [] || (Enabled(s, ms[0]) && Timely(c, s, ms[0]) && Legal(c, Apply(c, s, ms[0]), ms[1..]))
  }

  predicate LegalUndisturbed(c: Config, s: State, ms: seq<Move>)
    decreases |ms|
  {
    ms == []
    || (Enabled(s, ms[0]) && Timely(c, s, ms[0]) && Undisturbed(s, ms[0])
        && LegalUndisturbed(c, Apply(c, s, ms[0]), ms[1..]))
  }

  function Exec(c: Config, s: State, ms: seq<Move>): State
    requires Legal(c, s, ms)
    decreases |ms|
  {
    if ms == [] then s else Exec(c, Apply(c, s, ms[0]), ms[1..])
  }

  // ---------------------------------------------------------------- undisturbed decisions

  /** What a job would decide at a time on the record it saw. */
  function DecisionAt(c: Config, p: Intent, at: int): Decision {
    EffectiveDecision(p.origin, p.mention, Decide(p.seen, c.key, p.commit, c.stale, Some(c.limit), at), p.seen)
  }

  /** A pending decision is one made on a migrated record. */
  predicate PendingOk(c: Config, s: State, p: Intent) {
    && p.at <= s.run.clock
    && (p.mention.Some? ==> p.origin.Poll?)
    && Migrate(p.seen, c.key, p.at) == p.seen
    && (p.seen.Some? ==> p.seen.value.timestamp <= p.at)
    && p.decision == DecisionAt(c, p, p.at)
  }

  ghost predicate Inv(c: Config, s: State) {
    TimelyInv(c, s.run) && forall job :: job in s.pending ==> PendingOk(c, s, s.pending[job])
  }

  /** A decision to start stands as time passes on an unchanged record. */
  lemma DecisionStands(c: Config, s: State, p: Intent, now: int)
    requires PendingOk(c, s, p) && s.run.rec == p.seen && s.run.clock <= now && !p.decision.Skip?
    requires p.seen.Some? ==> now - p.seen.value.timestamp <= U64_MAX
    ensures DecisionAt(c, p, now) == p.decision
  {
    if p.seen.Some? {
      AgeBelow(p.at - p.seen.value.timestamp);
      AgeBelow(now - p.seen.value.timestamp);
    }
  }

  /** So an undisturbed claim is the start that one uninterrupted job would make then. */
  lemma UndisturbedIsStart(c: Config, s: State, p: Intent, now: int)
    requires PendingOk(c, s, p) && s.run.rec == p.seen && s.run.clock <= now && !p.decision.Skip?
    requires p.seen.Some? ==> now - p.seen.value.timestamp <= U64_MAX
    ensures var e := Try(p.origin, p.mention, p.commit, now);
            ReviewRuns.Enabled(s.run, e) && Claimed(c, s.run, p, now) == Step(c, s.run, e)
  {
    DecisionStands(c, s, p, now);
    assert Migrate(p.seen, c.key, now) == p.seen;
  }

  lemma ClaimKeeps(c: Config, s: State, job: nat, now: int)
    requires ValidConfig(c) && Inv(c, s) && Enabled(s, Claims(job, now)) && Undisturbed(s, Claims(job, now))
    ensures TimelyInv(c, Claimed(c, s.run, s.pending[job], now))
  {
    var p := s.pending[job];
    assert PendingOk(c, s, p);
    if p.decision.Skip? {
      RefusedStep(c, s.run, now);
    } else {
      UndisturbedIsStart(c, s, p, now);
      TryStep(c, s.run, Try(p.origin, p.mention, p.commit, now));
    }
  }

  lemma DecideKeeps(c: Config, s: State, m: Move)
    requires Inv(c, s) && Enabled(s, m) && m.Decides?
    ensures Inv(c, Apply(c, s, m))
  {
    if Migrate(s.run.rec, c.key, m.now) == s.run.rec {
      RefusedStep(c, s.run, m.now);
    } else {
      MigrationStep(c, s.run, m.now);
    }
    var t := Apply(c, s, m);
    assert PendingOk(c, t, t.pending[m.job]);
    forall job | job in t.pending
      ensures PendingOk(c, t, t.pending[job])
    {
      assert job != m.job ==> PendingOk(c, s, s.pending[job]);
    }
  }

  lemma MoveKeeps(c: Config, s: State, m: Move)
    requires ValidConfig(c) && Inv(c, s) && Enabled(s, m) && Timely(c, s, m) && Undisturbed(s, m)
    ensures Inv(c, Apply(c, s, m))
  {
    var t := Apply(c, s, m);
    if m.Decides? {
      DecideKeeps(c, s, m);
    } else {
      if m.Claims? {
        ClaimKeeps(c, s, m.job, m.now);
      } else {
        TimelyStep(c, s.run, m.e);
      }
      ClockMoves(c, s, m);
      forall job | job in t.pending
        ensures PendingOk(c, t, t.pending[job])
      {
        assert PendingOk(c, s, s.pending[job]);
      }
    }
  }

  lemma ClockMoves(c: Config, s: State, m: Move)
    requires Enabled(s, m)
    ensures s.run.clock <= Apply(c, s, m).run.clock
  {
  }

  lemma {:induction false} InvOverRuns(c: Config, s: State, ms: seq<Move>)
    requires ValidConfig(c) && Inv(c, s) && LegalUndisturbed(c, s, ms)
    ensures Legal(c, s, ms) && Inv(c, Exec(c, s, ms))
    decreases |ms|
  {
    if ms != [] {
      MoveKeeps(c, s, ms[0]);
      InvOverRuns(c, Apply(c, s, ms[0]), ms[1..]);
    }
  }

  function Start(rec: Option<Record>, clock: int): State
    requires rec.Some? ==> rec.value.timestamp <= clock
  {
    State(Begin(rec, clock), map[])
  }

  /** With decisions and claims in separate steps, any number of jobs and timely reports: if each claim
      finds the record its decision saw, the retries since the last reset stay within the limit and
      keep their distances, from any stored record. */
  lemma UndisturbedDecisionsKeepBudget(c: Config, rec: Option<Record>, clock: int, ms: seq<Move>)
    requires ValidConfig(c) && (rec.Some? ==> rec.value.timestamp <= clock)
    requires LegalUndisturbed(c, Start(rec, clock), ms)
    ensures Legal(c, Start(rec, clock), ms)
    ensures var s := Exec(c, Start(rec, clock), ms).run;
            && |s.retries| <= c.limit
            && (forall i :: 0 < i < |s.retries| ==> s.retries[i] - s.retries[i - 1] >= RetryDelay(i))
            && (forall i :: 0 <= i < |s.retries| ==> s.retries[i] - s.epoch >= SumDelay(i + 1))
  {
    BeginIsTimely(c, rec, clock);
    InvOverRuns(c, Start(rec, clock), ms);
    var s := Exec(c, Start(rec, clock), ms).run;
    forall i | 0 <= i < |s.retries|
      ensures s.retries[i] - s.epoch >= SumDelay(i + 1)
      ensures i > 0 ==> s.retries[i] - s.retries[i - 1] >= RetryDelay(i)
    {
      SpacedGaps(s.epoch, s.retries, i);
    }
  }

  // ---------------------------------------------------------------- disturbed decisions

  ghost predicate Leads(c: Config, s: State, ms: seq<Move>, t: State) {
    Legal(c, s, ms) && Exec(c, s, ms) == t
  }

  lemma {:induction false} LeadsOn(c: Config, s: State, ms: seq<Move>, t: State, m: Move)
    requires Leads(c, s, ms, t) && Enabled(t, m) && Timely(c, t, m)
    ensures Leads(c, s, ms + [m], Apply(c, t, m))
    decreases |ms|
  {
    if ms == [] {
      assert [] + [m] == [m] && [m][1..] == [];
    } else {
      assert (ms + [m])[1..] == ms[1..] + [m];
      LeadsOn(c, Apply(c, s, ms[0]), ms[1..], t, m);
    }
  }

  /** A timely run of uninterrupted events is one of these runs. */
  lemma {:induction false} PlainRun(c: Config, s: Run, es: seq<Event>) returns (ms: seq<Move>)
    requires LegalAndTimely(c, s, es) && ReviewRuns.Legal(c, s, es)
    ensures Leads(c, State(s, map[]), ms, State(ReviewRuns.Exec(c, s, es), map[]))
    decreases |es|
  {
    if es == [] {
      ms := [];
    } else {
      var rest := PlainRun(c, Step(c, s, es[0]), es[1..]);
      ms := [Plain(es[0])] + rest;
      assert ms[1..] == rest;
    }
  }

  /** All but one of the retries are used up by polls that fail at once. */
  lemma OneRetryLeft(c: Config) returns (ms: seq<Move>, t: Run)
    requires 0 < c.limit <= U32_MAX
    ensures Leads(c, Start(None, 0), ms, State(t, map[])) && Failing(t, c.limit - 1, 0)
  {
    var s0, e, f := Begin(None, 0), Try(Poll, None, "head", 0), Fail(0, 0, 0);
    var s1 := Step(c, s0, e);
    assert s1.rec == Some(Fresh("head", InProgress, 0, 0)) && Open(s1, 0);
    var s2 := Step(c, s1, f);
    assert Failing(s2, 0, 0);
    ReviewDeadlines.LeadsOn(c, 0, s0, [], s0, e);
    ReviewDeadlines.LeadsOn(c, 0, s0, [] + [e], s1, f);
    var es;
    es, t := FailsOn(c, 0, s0, [] + [e] + [f], s2, 0, c.limit - 1);
    WithinIsTimely(c, 0, s0, es);
    ms := PlainRun(c, s0, es);
  }

  /** A poll decides to retry, the record is marked skipped, and the claim, which sees no failure any
      more, counts none. */
  lemma SkipErasesCount(c: Config, s: Run, now: int)
    requires 0 < c.limit <= U32_MAX && Failing(s, c.limit - 1, 0)
    requires now == s.clock + MAX_RETRY_DELAY_SECS + RETRY_WINDOW_SECS
    ensures var s0, m1 := State(s, map[]), Decides(0, Poll, None, "head", now);
            var m2, m3 := Plain(MarkSkip("head", now)), Claims(0, now);
            && Enabled(s0, m1) && Timely(c, s0, m1)
            && var s1 := Apply(c, s0, m1);
               && Enabled(s1, m2) && Timely(c, s1, m2)
               && var s2 := Apply(c, s1, m2);
                  && Enabled(s2, m3) && Timely(c, s2, m3)
                  && var t := Apply(c, s2, m3);
                     && t.pending == map[] && t.run.rec == Some(Fresh("head", InProgress, 0, now))
                     && |t.run.retries| == c.limit && t.run.clock == now
  {
    var s1 := Apply(c, State(s, map[]), Decides(0, Poll, None, "head", now));
    assert s1.pending[0].decision == RetryFailed && s1.run.rec == s.rec;
    var s2 := Apply(c, s1, Plain(MarkSkip("head", now)));
    assert s2.run.rec == Some(Fresh("head", Skipped, 0, now)) && s2.pending == s1.pending;
    assert s2.pending - {0} == map[];
  }

  /** With timely reports, a run in which one such write lets one retry too many start. */
  lemma DisturbedDecisionsOverspend(c: Config) returns (ms: seq<Move>, t: State)
    requires 0 < c.limit <= U32_MAX
    ensures Leads(c, Start(None, 0), ms, t) && |t.run.retries| == c.limit + 1
  {
    var init, s := OneRetryLeft(c);
    var now := s.clock + MAX_RETRY_DELAY_SECS + RETRY_WINDOW_SECS;
    var m1, m2, m3 := Decides(0, Poll, None, "head", now), Plain(MarkSkip("head", now)), Claims(0, now);
    var later := now + MAX_RETRY_DELAY_SECS + RETRY_WINDOW_SECS;
    var m4, m5 := Plain(Restart(now)), Plain(Try(Poll, None, "head", later));
    var s0 := State(s, map[]);
    SkipErasesCount(c, s, now);
    var s1 := Apply(c, s0, m1);
    var s2 := Apply(c, s1, m2);
    var s3 := Apply(c, s2, m3);
    var s4 := Apply(c, s3, m4);
    assert s4.run.rec == Some(Fresh("head", Failed, 0, now)) && s4.run.retries == s3.run.retries;
    DueRetry(c, s4.run, Failed, 0, now, later);
    hide *;
    LeadsOn(c, Start(None, 0), init, s0, m1);
    LeadsOn(c, Start(None, 0), init + [m1], s1, m2);
    LeadsOn(c, Start(None, 0), init + [m1] + [m2], s2, m3);
    LeadsOn(c, Start(None, 0), init + [m1] + [m2] + [m3], s3, m4);
    LeadsOn(c, Start(None, 0), init + [m1] + [m2] + [m3] + [m4], s4, m5);
    ms, t := init + [m1] + [m2] + [m3] + [m4] + [m5], Apply(c, s4, m5);
  }

  predicate NoRetries(s: State) {
    s.run.retries == [] && forall job :: job in s.pending ==> !s.pending[job].decision.RetryFailed?
  }

  lemma {:induction false} NoBudgetNoRetries(c: Config, s: State, ms: seq<Move>)
    requires c.limit == 0 && NoRetries(s) && Legal(c, s, ms)
    ensures NoRetries(Exec(c, s, ms))
    decreases |ms|
  {
    if ms != [] {
      var t := Apply(c, s, ms[0]);
      assert t.run.retries == [];
      assert forall job :: job in t.pending ==> !t.pending[job].decision.RetryFailed?;
      NoBudgetNoRetries(c, t, ms[1..]);
    }
  }

  ghost predicate KeepsBudget(c: Config) {
    forall ms, t :: Leads(c, Start(None, 0), ms, t) ==> |t.run.retries| <= c.limit
  }

  /** Without that condition on claims no positive limit is kept. */
  lemma BudgetNeedsUndisturbedDecisions(c: Config)
    requires c.limit <= U32_MAX
    ensures KeepsBudget(c) <==> c.limit == 0
  {
    if c.limit == 0 {
      forall ms, t | Leads(c, Start(None, 0), ms, t) ensures |t.run.retries| <= c.limit {
        NoBudgetNoRetries(c, Start(None, 0), ms);
      }
    } else {
      var ms, t := DisturbedDecisionsOverspend(c);
      assert |t.run.retries| > c.limit;
    }
  }

  /** The spacing fails even without a disturbing write of that kind: a manual review that starts and
      fails between the decision and the claim of a poll lets the poll retry at once, which no poll
      would decide on before the delay. */
  lemma InterleavedManualSkipsTheWait(c: Config, commit: string, count: nat, t: int)
    requires count < c.limit
    ensures var r := Some(Fresh(commit, Failed, count, t));
            var now := NextRetry(r.value, c.key);
            var manual := Claim(r, commit, c.stale, now);
            var failed := Some(Completed(manual, Fresh(commit, Failed, 0, now)));
            && Decide(r, c.key, commit, c.stale, Some(c.limit), now) == RetryFailed
            && manual.Some?
            && Claim(failed, commit, c.stale, now) == Some(Fresh(commit, InProgress, 1, now))
            && (forall at :: now <= at < now + RetryDelay(0) ==>
                  Decide(failed, c.key, commit, c.stale, Some(c.limit), at).Skip?)
  {
  }
}
