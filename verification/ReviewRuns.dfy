/** Whole runs of one review key: attempts, completions, failures, crashes, restarts and skips in
    any order. A run carries history (retries since the last reset, mentions used, claims made) so
    that the promises about every run are promises about every reachable state. */
module ReviewRuns {
  import opened Options
  import opened Text
  import opened ReviewState

  datatype Config = Config(key: string, stale: nat, limit: nat)

  /** What the scheduler keeps one live job of: a manual request does not know its commit yet. */
  datatype Target = Pending | Head(commit: string)

  datatype Attempt = Attempt(
    commit: string,
    target: Target,
    claimedAt: int,
    countForAttempt: nat,
    open: bool,       // its result has not been written yet
    overtook: bool)   // it claimed a record that was still in progress

  datatype Run = Run(
    rec: Option<Record>,
    clock: int,
    attempts: seq<Attempt>,
    epoch: int,            // when the retry budget was last reset
    retries: seq<int>,     // when each automatic retry since then started
    migrations: nat,
    mentions: seq<int>)    // mentions that started a review, in order

  datatype Event =
    | Try(origin: Origin, mention: Option<int>, commit: string, now: int)
    | Finish(attempt: nat, result: Record, now: int)
    | Fail(attempt: nat, at: int, now: int)      // execution or finalization failed
    | Restart(now: int)                          // crash, then recovery at start-up
    | MarkSkip(commit: string, now: int)

  predicate Published(s: Status) {
    !s.Queued? && !s.InProgress? && !s.Failed? && !s.Skipped?
  }

  predicate Open(s: Run, i: nat) {
    i < |s.attempts| && s.attempts[i].open
  }

  function TargetOf(origin: Origin, commit: string): Target {
    if origin.Manual? then Pending else Head(commit)
  }

  /** The clock does not go back, only polls look at mentions, an attempt writes once, and what it
      writes is dated between its claim and the write. */
  predicate Enabled(s: Run, e: Event) {
    && s.clock <= e.now
    && (e.Try? && e.mention.Some? ==> e.origin.Poll?)
    && (e.Finish? ==>
          && Open(s, e.attempt)
          && Published(e.result.status)
          && e.result.commit == s.attempts[e.attempt].commit
          && e.result.retryVersion == 1
          && s.attempts[e.attempt].claimedAt <= e.result.timestamp <= e.now)
    && (e.Fail? ==> Open(s, e.attempt) && s.attempts[e.attempt].claimedAt <= e.at <= e.now)
  }

  /** An attempt reports within the stale window of its claim. */
  predicate Timely(c: Config, s: Run, e: Event) {
    && (e.Finish? && Open(s, e.attempt) ==> e.now - s.attempts[e.attempt].claimedAt <= c.stale)
    && (e.Fail? && Open(s, e.attempt) ==> e.now - s.attempts[e.attempt].claimedAt <= c.stale)
  }

  /** The scheduler starts no job whose target has a live one; `SchedulerRuns.OneLiveJobPerTarget`. */
  predicate Scheduled(s: Run, e: Event) {
    e.Try? ==>
      forall i :: 0 <= i < |s.attempts| && s.attempts[i].open ==> s.attempts[i].target != TargetOf(e.origin, e.commit)
  }

  /** No report is dated before the stored record. */
  predicate NotBackdated(s: Run, e: Event) {
    && (e.Finish? && s.rec.Some? ==> s.rec.value.timestamp <= e.result.timestamp)
    && (e.Fail? && s.rec.Some? ==> s.rec.value.timestamp <= e.at)
  }

  predicate MentionIsPast(e: Event) {
    e.Try? && e.mention.Some? ==> e.mention.value <= e.now
  }

  function Close(s: Run, i: nat): seq<Attempt>
    requires Open(s, i)
  {
    s.attempts[i := s.attempts[i].(open := false)]
  }

  function StepTry(c: Config, s: Run, e: Event): Run
    requires e.Try?
  {
    var m := Migrate(s.rec, c.key, e.now);
    var s1 := if m == s.rec then s.(clock := e.now)
              else s.(clock := e.now, rec := m, epoch := e.now, retries := [], migrations := s.migrations + 1);
    match TryStart(s.rec, c.key, e.origin, e.mention, e.commit, c.stale, c.limit, e.now)
    case (_, None) => s1
    case (rec, Some(start)) =>
      var a := Attempt(e.commit, TargetOf(e.origin, e.commit), e.now, start.countForAttempt, true,
                       m.Some? && m.value.status.InProgress?);
      var s2 := s1.(rec := rec, attempts := s.attempts + [a]);
      if start.decision.RetryFailed? then s2.(retries := s1.retries + [e.now])
      else s2.(retries := [], epoch := e.now,
               mentions := if e.mention.Some? then s.mentions + [e.mention.value] else s.mentions)
  }

  function Step(c: Config, s: Run, e: Event): Run
    requires Enabled(s, e)
  {
    match e
    case Try(_, _, _, _) => StepTry(c, s, e)
    case Finish(i, result, now) =>
      s.(clock := now, rec := Some(Completed(s.rec, result)), attempts := Close(s, i))
    case Fail(i, at, now) =>
      var a := s.attempts[i];
      s.(clock := now, attempts := Close(s, i),
         rec := Some(Completed(s.rec, Fresh(a.commit, Failed, a.countForAttempt, at))))
    case Restart(now) =>
      s.(clock := now, rec := if s.rec.Some? then Some(Recovered(s.rec.value, now)) else None,
         attempts := seq(|s.attempts|, i requires 0 <= i < |s.attempts| => s.attempts[i].(open := false)))
    case MarkSkip(commit, now) =>
      s.(clock := now, rec := SkipMarked(s.rec, c.key, commit, c.stale, now))
  }

  predicate Legal(c: Config, s: Run, es: seq<Event>)
    decreases |es|
  {
    es == [] || (Enabled(s, es[0]) && Legal(c, Step(c, s, es[0]), es[1..]))
  }

  predicate LegalAndTimely(c: Config, s: Run, es: seq<Event>)
    decreases |es|
  {
    es == [] || (Enabled(s, es[0]) && Timely(c, s, es[0]) && LegalAndTimely(c, Step(c, s, es[0]), es[1..]))
  }

  /** The runs the daemon makes: legal, with one live job per target. */
  predicate LegalAndScheduled(c: Config, s: Run, es: seq<Event>)
    decreases |es|
  {
    es == [] || (Enabled(s, es[0]) && Scheduled(s, es[0]) && LegalAndScheduled(c, Step(c, s, es[0]), es[1..]))
  }

  predicate LegalAndForward(c: Config, s: Run, es: seq<Event>)
    decreases |es|
  {
    es == [] || (Enabled(s, es[0]) && NotBackdated(s, es[0]) && LegalAndForward(c, Step(c, s, es[0]), es[1..]))
  }

  function Exec(c: Config, s: Run, es: seq<Event>): Run
    requires Legal(c, s, es)
    decreases |es|
  {
    if es == [] then s else Exec(c, Step(c, s, es[0]), es[1..])
  }

  lemma {:induction false} FamiliesAreLegal(c: Config, s: Run, es: seq<Event>)
    requires LegalAndTimely(c, s, es) || LegalAndScheduled(c, s, es) || LegalAndForward(c, s, es)
    ensures Legal(c, s, es)
    decreases |es|
  {
    if es != [] {
      FamiliesAreLegal(c, Step(c, s, es[0]), es[1..]);
    }
  }

  /** One more event at the end of a run. */
  lemma {:induction false} ExecSnoc(c: Config, s: Run, es: seq<Event>, e: Event)
    requires Legal(c, s, es) && Enabled(Exec(c, s, es), e)
    ensures Legal(c, s, es + [e]) && Exec(c, s, es + [e]) == Step(c, Exec(c, s, es), e)
    ensures LegalAndScheduled(c, s, es) && Scheduled(Exec(c, s, es), e) ==> LegalAndScheduled(c, s, es + [e])
    ensures LegalAndForward(c, s, es) && NotBackdated(Exec(c, s, es), e) ==> LegalAndForward(c, s, es + [e])
    decreases |es|
  {
    if es == [] {
      assert [] + [e] == [e] && [e][1..] == [];
    } else {
      assert (es + [e])[1..] == es[1..] + [e];
      ExecSnoc(c, Step(c, s, es[0]), es[1..], e);
    }
  }

  /** The run starts from whatever record the database holds, dated no later than the clock. */
  function Begin(rec: Option<Record>, clock: int): Run
    requires rec.Some? ==> rec.value.timestamp <= clock
  {
    var epoch := match rec
      case None => clock
      case Some(r) =>
        if r.retryNotBefore.Some? && r.retryNotBefore.value - 300 < r.timestamp then r.retryNotBefore.value - 300
        else r.timestamp;
    Run(rec, clock, [], epoch, [], 0, [])
  }

  // ---------------------------------------------------------------- claims, with no timing assumption

  predicate ClaimInv(c: Config, s: Run) {
    && (s.rec.Some? ==> s.rec.value.timestamp <= s.clock)
    && (forall i :: 0 <= i < |s.attempts| ==> s.attempts[i].claimedAt <= s.clock)
    && (s.rec.Some? && s.rec.value.status.InProgress? && s.attempts != [] ==>
          s.rec.value.timestamp == s.attempts[|s.attempts| - 1].claimedAt)
    && (forall i :: 0 < i < |s.attempts| && s.attempts[i].overtook ==>
          s.attempts[i].claimedAt - s.attempts[i - 1].claimedAt > c.stale)
    && s.migrations <= 1
    && (s.migrations == 1 || s.attempts != [] ==> s.rec.Some? && s.rec.value.retryVersion != 0)
  }

  lemma AgeBelow(age: int)
    requires 0 <= age
    ensures AsU64(age) <= age
    ensures age <= U64_MAX ==> AsU64(age) == age
  {
  }

  /** A claim over a record still in progress comes more than the stale window after it. */
  lemma ClaimGap(c: Config, r: Record, commit: string, now: int)
    requires r.status.InProgress? && r.timestamp <= now && Claim(Some(r), commit, c.stale, now).Some?
    ensures now - r.timestamp > c.stale
  {
    AgeBelow(now - r.timestamp);
  }

  /** A start that finds the record already migrated. */
  lemma ClaimInvStart(c: Config, s: Run, e: Event)
    requires ClaimInv(c, s) && Enabled(s, e) && e.Try? && Migrate(s.rec, c.key, e.now) == s.rec
    ensures ClaimInv(c, Step(c, s, e))
  {
    var t, n := Step(c, s, e), |s.attempts|;
    if t.attempts != s.attempts {
      var a := t.attempts[n];
      assert t.attempts == s.attempts + [a] && a.claimedAt == e.now;
      assert t.rec == Claim(s.rec, e.commit, c.stale, e.now);
      assert a.overtook ==> s.rec.Some? && s.rec.value.status.InProgress?;
      if a.overtook {
        ClaimGap(c, s.rec.value, e.commit, e.now);
      }
    }
  }

  lemma ClaimInvTry(c: Config, s: Run, e: Event)
    requires ClaimInv(c, s) && Enabled(s, e) && e.Try?
    ensures ClaimInv(c, Step(c, s, e))
  {
    var m := Migrate(s.rec, c.key, e.now);
    if m == s.rec {
      ClaimInvStart(c, s, e);
    } else {
      var s1 := s.(clock := e.now, rec := m, epoch := e.now, retries := [], migrations := s.migrations + 1);
      ClaimInvStart(c, s1, e);
      assert Step(c, s, e) == Step(c, s1, e);
    }
  }

  lemma ClaimInvStep(c: Config, s: Run, e: Event)
    requires ClaimInv(c, s) && Enabled(s, e)
    ensures ClaimInv(c, Step(c, s, e))
  {
    match e
    case Try(_, _, _, _) => ClaimInvTry(c, s, e);
    case Finish(_, _, _) =>
    case Fail(_, _, _) =>
    case Restart(_) =>
    case MarkSkip(_, _) =>
  }

  /** Over every run: two successive claims with no completion, recovery or skip between them are
      more than the stale window apart, and the one-time migration happens at most once. */
  lemma {:induction false} ClaimExclusion(c: Config, s: Run, es: seq<Event>)
    requires ClaimInv(c, s) && Legal(c, s, es)
    ensures ClaimInv(c, Exec(c, s, es))
    decreases |es|
  {
    if es != [] {
      ClaimInvStep(c, s, es[0]);
      ClaimExclusion(c, Step(c, s, es[0]), es[1..]);
    }
  }

  // ---------------------------------------------------------------- budget and spacing

  /** The least time the first `k` retries take. */
  function SumDelay(k: nat): nat {
    if k == 0 then 0 else SumDelay(k - 1) + RetryDelay(k - 1)
  }

  lemma {:induction false} SumDelayIs(k: nat)
    ensures SumDelay(k) == if k <= 7 then 300 * (Pow2(k) - 1) else 38100 + 21600 * (k - 7)
  {
    assert Pow2(7) == 128;
    if k > 0 {
      SumDelayIs(k - 1);
      RetryDelayIs(k - 1);
    }
  }

  predicate Expired(c: Config, s: Run, i: nat)
    requires i < |s.attempts|
  {
    s.clock - s.attempts[i].claimedAt > c.stale
  }

  /** The record is attempt `i`'s own claim. */
  predicate Holds(s: Run, i: nat)
    requires i < |s.attempts|
  {
    && i == |s.attempts| - 1
    && s.rec.Some? && s.rec.value.status.InProgress?
    && s.rec.value.timestamp == s.attempts[i].claimedAt
    && s.rec.value.retryNotBefore.None?
    && |s.retries| <= s.attempts[i].countForAttempt
  }

  /** The start of the last retry, or the reset. */
  function LastStart(epoch: int, retries: seq<int>): int {
    if retries == [] then epoch else retries[|retries| - 1]
  }

  /** The record counts its delay from no earlier than the last retry; only a first retry has a date of its own. */
  predicate Floor(r: Record, epoch: int, retries: seq<int>) {
    match r.retryNotBefore
    case None => LastStart(epoch, retries) <= r.timestamp
    case Some(at) => retries == [] && epoch + RetryDelay(0) <= at
  }

  /** Each retry starts at least its own delay after the one before, or after the reset. */
  predicate Spaced(epoch: int, retries: seq<int>) {
    forall i :: 0 <= i < |retries| ==> retries[i] - LastStart(epoch, retries[..i]) >= RetryDelay(i)
  }

  /** So the delays add up. */
  lemma {:induction false} SpacedSum(epoch: int, retries: seq<int>)
    requires Spaced(epoch, retries)
    ensures LastStart(epoch, retries) - epoch >= SumDelay(|retries|)
    decreases |retries|
  {
    if retries != [] {
      var n := |retries| - 1;
      assert forall i :: 0 <= i < n ==> retries[..n][..i] == retries[..i];
      SpacedSum(epoch, retries[..n]);
    }
  }

  lemma SpacedNext(epoch: int, retries: seq<int>, now: int)
    requires Spaced(epoch, retries) && now - LastStart(epoch, retries) >= RetryDelay(|retries|)
    ensures Spaced(epoch, retries + [now])
  {
    var all := retries + [now];
    assert forall i :: 0 <= i < |retries| ==> all[..i] == retries[..i];
    assert all[..|retries|] == retries;
  }

  ghost predicate TimelyInv(c: Config, s: Run) {
    && ClaimInv(c, s)
    && (forall i: nat :: Open(s, i) ==> Expired(c, s, i) || Holds(s, i))
    && (s.rec.Some? && Retryable(s.rec.value) ==>
          |s.retries| <= s.rec.value.retryCount && Floor(s.rec.value, s.epoch, s.retries))
    && |s.retries| <= c.limit
    && Spaced(s.epoch, s.retries)
  }

  predicate ValidConfig(c: Config) {
    c.stale <= U64_MAX && c.limit <= U32_MAX
  }

  lemma BeginIsTimely(c: Config, rec: Option<Record>, clock: int)
    requires rec.Some? ==> rec.value.timestamp <= clock
    ensures TimelyInv(c, Begin(rec, clock))
  {
    RetryDelayIs(0);
  }

  /** The migration gives a fresh budget no sooner than five minutes from now. */
  lemma MigrationStep(c: Config, s: Run, now: int)
    requires TimelyInv(c, s) && s.clock <= now && Migrate(s.rec, c.key, now) != s.rec
    ensures TimelyInv(c, s.(clock := now, rec := Migrate(s.rec, c.key, now), epoch := now, retries := [],
                            migrations := s.migrations + 1))
  {
    RetryDelayIs(0);
  }

  /** A start that does not take the claim changes nothing but the clock. */
  lemma RefusedStep(c: Config, s: Run, now: int)
    requires TimelyInv(c, s) && s.clock <= now
    ensures TimelyInv(c, s.(clock := now))
  {
    var t := s.(clock := now);
    forall i: nat | Open(t, i)
      ensures Expired(c, t, i) || Holds(t, i)
    {
      assert Open(s, i);
    }
  }

  /** A retry that is due comes at least its own delay after the one before. */
  lemma DueIsSpaced(c: Config, s: Run, commit: string, now: int)
    requires TimelyInv(c, s) && s.rec.Some? && Retryable(s.rec.value)
    requires Decide(s.rec, c.key, commit, c.stale, Some(c.limit), now).RetryFailed?
    ensures Spaced(s.epoch, s.retries + [now]) && |s.retries| < c.limit
  {
    RetryDelayMonotone(|s.retries|, s.rec.value.retryCount);
    SpacedNext(s.epoch, s.retries, now);
  }

  /** A claim leaves every earlier attempt expired. */
  lemma ClaimExpires(c: Config, s: Run, e: Event)
    requires ValidConfig(c) && TimelyInv(c, s) && Enabled(s, e) && e.Try? && Migrate(s.rec, c.key, e.now) == s.rec
    requires |Step(c, s, e).attempts| > |s.attempts|
    ensures var t := Step(c, s, e); forall i: nat :: Open(t, i) && i < |s.attempts| ==> Expired(c, t, i)
  {
    var t := Step(c, s, e);
    assert t.attempts[..|s.attempts|] == s.attempts;
    if s.rec.Some? {
      AgeBelow(e.now - s.rec.value.timestamp);
    }
    forall i: nat | Open(t, i) && i < |s.attempts|
      ensures Expired(c, t, i)
    {
      assert Open(s, i);
    }
  }

  lemma ClaimedStep(c: Config, s: Run, e: Event)
    requires ValidConfig(c) && TimelyInv(c, s) && Enabled(s, e) && e.Try? && Migrate(s.rec, c.key, e.now) == s.rec
    requires |Step(c, s, e).attempts| > |s.attempts|
    ensures TimelyInv(c, Step(c, s, e))
  {
    var t := Step(c, s, e);
    ClaimInvStep(c, s, e);
    ClaimExpires(c, s, e);
    ClaimIsHeld(c, s, e);
    assert forall i: nat :: Open(t, i) ==> i < |s.attempts| || i == |s.attempts|;
  }

  /** The new attempt holds the record, which carries the retries counted so far. */
  lemma ClaimIsHeld(c: Config, s: Run, e: Event)
    requires ValidConfig(c) && TimelyInv(c, s) && Enabled(s, e) && e.Try? && Migrate(s.rec, c.key, e.now) == s.rec
    requires |Step(c, s, e).attempts| > |s.attempts|
    ensures var t := Step(c, s, e);
            && |t.attempts| == |s.attempts| + 1 && Holds(t, |s.attempts|)
            && |t.retries| <= t.rec.value.retryCount && Floor(t.rec.value, t.epoch, t.retries)
            && |t.retries| <= c.limit && Spaced(t.epoch, t.retries)
  {
    var t := Step(c, s, e);
    assert t.rec == Claim(s.rec, e.commit, c.stale, e.now);
    if t.retries == s.retries + [e.now] {
      DueIsSpaced(c, s, e.commit, e.now);
    }
  }

  lemma StartStep(c: Config, s: Run, e: Event)
    requires ValidConfig(c) && TimelyInv(c, s) && Enabled(s, e) && e.Try? && Migrate(s.rec, c.key, e.now) == s.rec
    ensures TimelyInv(c, Step(c, s, e))
  {
    if |Step(c, s, e).attempts| > |s.attempts| {
      ClaimedStep(c, s, e);
    } else {
      RefusedStep(c, s, e.now);
    }
  }

  lemma TryStep(c: Config, s: Run, e: Event)
    requires ValidConfig(c) && TimelyInv(c, s) && Enabled(s, e) && e.Try?
    ensures TimelyInv(c, Step(c, s, e))
  {
    var m := Migrate(s.rec, c.key, e.now);
    if m != s.rec {
      MigrationStep(c, s, e.now);
      var s1 := s.(clock := e.now, rec := m, epoch := e.now, retries := [], migrations := s.migrations + 1);
      StartStep(c, s1, e);
      assert Step(c, s, e) == Step(c, s1, e);
    } else {
      StartStep(c, s, e);
    }
  }

  lemma RecordIsPast(c: Config, s: Run)
    requires ClaimInv(c, s)
    ensures s.rec.Some? ==> s.rec.value.timestamp <= s.clock
    ensures forall i :: 0 <= i < |s.attempts| ==> s.attempts[i].claimedAt <= s.clock
  {
  }

  lemma OtherStep(c: Config, s: Run, e: Event)
    requires ValidConfig(c) && TimelyInv(c, s) && Enabled(s, e) && Timely(c, s, e) && !e.Try?
    ensures TimelyInv(c, Step(c, s, e))
  {
    ClaimInvStep(c, s, e);
    RecordIsPast(c, s);
    hide ClaimInv, Spaced, RetryDelay, KeyHash;
    if s.rec.Some? {
      AgeBelow(e.now - s.rec.value.timestamp);
    }
    var t := Step(c, s, e);
    forall i: nat | Open(t, i)
      ensures Expired(c, t, i) || Holds(t, i)
    {
      assert Open(s, i);
    }
  }

  lemma TimelyStep(c: Config, s: Run, e: Event)
    requires ValidConfig(c) && TimelyInv(c, s) && Enabled(s, e) && Timely(c, s, e)
    ensures TimelyInv(c, Step(c, s, e))
  {
    if e.Try? {
      TryStep(c, s, e);
    } else {
      OtherStep(c, s, e);
    }
  }

  /** Over every run whose attempts report within the stale window: the automatic retries started
      since the last reset never exceed the limit nor the stored count, and each starts at least its
      own delay after the one before. */
  lemma {:induction false} RetryBudget(c: Config, s: Run, es: seq<Event>)
    requires ValidConfig(c) && TimelyInv(c, s) && LegalAndTimely(c, s, es)
    ensures Legal(c, s, es) && TimelyInv(c, Exec(c, s, es))
    decreases |es|
  {
    if es != [] {
      TimelyStep(c, s, es[0]);
      RetryBudget(c, Step(c, s, es[0]), es[1..]);
    }
  }

  /** The same from any stored record, in the program's own terms. */
  lemma RetriesAreBoundedAndSpaced(c: Config, rec: Option<Record>, clock: int, es: seq<Event>)
    requires ValidConfig(c) && (rec.Some? ==> rec.value.timestamp <= clock)
    requires LegalAndTimely(c, Begin(rec, clock), es)
    ensures Legal(c, Begin(rec, clock), es)
    ensures var s := Exec(c, Begin(rec, clock), es);
            && |s.retries| <= c.limit
            && (forall i :: 0 < i < |s.retries| ==> s.retries[i] - s.retries[i - 1] >= RetryDelay(i))
            && (forall i :: 0 <= i < |s.retries| ==> s.retries[i] - s.epoch >= SumDelay(i + 1))
            && (s.rec.Some? && Retryable(s.rec.value) ==> |s.retries| <= s.rec.value.retryCount)
            && (forall i :: 0 <= i < |s.attempts| - 1 && s.attempts[i].open ==>
                  s.clock - s.attempts[i].claimedAt > c.stale)
  {
    BeginIsTimely(c, rec, clock);
    RetryBudget(c, Begin(rec, clock), es);
    var s := Exec(c, Begin(rec, clock), es);
    forall i | 0 <= i < |s.attempts| - 1 && s.attempts[i].open
      ensures s.clock - s.attempts[i].claimedAt > c.stale
    {
      assert Open(s, i);
    }
    forall i | 0 <= i < |s.retries|
      ensures s.retries[i] - s.epoch >= SumDelay(i + 1)
      ensures i > 0 ==> s.retries[i] - s.retries[i - 1] >= RetryDelay(i)
    {
      SpacedGaps(s.epoch, s.retries, i);
    }
  }

  lemma SpacedGaps(epoch: int, retries: seq<int>, i: nat)
    requires Spaced(epoch, retries) && i < |retries|
    ensures retries[i] - epoch >= SumDelay(i + 1)
    ensures i > 0 ==> retries[i] - retries[i - 1] >= RetryDelay(i)
  {
    var front := retries[..i + 1];
    assert forall j :: 0 <= j < |front| ==> front[..j] == retries[..j];
    SpacedSum(epoch, front);
    assert i > 0 ==> retries[..i][i - 1] == retries[i - 1];
  }

  /** In particular, over each step of such a run. */
  lemma RetryGap(c: Config, s: Run, e: Event)
    requires ValidConfig(c) && TimelyInv(c, s) && Enabled(s, e) && Timely(c, s, e)
    ensures var t := Step(c, s, e);
            |t.retries| > |s.retries| > 0 ==>
              t.retries[..|s.retries|] == s.retries && |t.retries| == |s.retries| + 1
              && t.retries[|s.retries|] - s.retries[|s.retries| - 1] >= RetryDelay(|s.retries|)
  {
    var t := Step(c, s, e);
    TimelyStep(c, s, e);
    if |t.retries| > |s.retries| > 0 {
      SpacedGaps(t.epoch, t.retries, |s.retries|);
    }
  }

  // ---------------------------------------------------------------- mentions

  predicate MentionInv(s: Run) {
    && (forall i, j :: 0 <= i < j < |s.mentions| ==> s.mentions[i] < s.mentions[j])
    && (s.mentions != [] ==> s.rec.Some? && s.mentions[|s.mentions| - 1] <= s.rec.value.timestamp)
  }

  /** A start that a mention caused is newer than the record it replaces. */
  lemma MentionStart(c: Config, s: Run, e: Event)
    requires ClaimInv(c, s) && Enabled(s, e) && e.Try?
    ensures var t := Step(c, s, e);
            t.mentions == s.mentions
            || (e.mention.Some? && t.mentions == s.mentions + [e.mention.value]
                && t.rec.Some? && t.rec.value.timestamp == e.now
                && (s.rec.Some? ==> e.mention.value > s.rec.value.timestamp))
  {
  }

  /** The stored record is never dated back, unless a report is. */
  lemma RecordsGoForward(c: Config, s: Run, e: Event)
    requires ClaimInv(c, s) && Enabled(s, e) && NotBackdated(s, e) && s.rec.Some?
    ensures var t := Step(c, s, e); t.rec.Some? && s.rec.value.timestamp <= t.rec.value.timestamp
  {
  }

  lemma MentionStep(c: Config, s: Run, e: Event)
    requires ClaimInv(c, s) && MentionInv(s)
    requires Enabled(s, e) && NotBackdated(s, e) && MentionIsPast(e)
    ensures MentionInv(Step(c, s, e))
  {
    var t, n := Step(c, s, e), |s.mentions|;
    if s.rec.Some? {
      RecordsGoForward(c, s, e);
    }
    if e.Try? {
      MentionStart(c, s, e);
    }
    if t.mentions != s.mentions {
      assert n > 0 ==> forall i :: 0 <= i < n ==> s.mentions[i] <= s.mentions[n - 1];
    }
  }

  /** Over every run that dates no report back, with mentions no later than the clock, the mentions
      that started a review are strictly increasing: each one starts at most one review, and a review
      that mention mode starts over an existing record needs a mention newer than every earlier one. */
  lemma {:induction false} MentionsAreOneShot(c: Config, s: Run, es: seq<Event>)
    requires ClaimInv(c, s) && MentionInv(s) && LegalAndForward(c, s, es)
    requires forall i :: 0 <= i < |es| ==> MentionIsPast(es[i])
    ensures Legal(c, s, es) && MentionInv(Exec(c, s, es))
    decreases |es|
  {
    if es != [] {
      MentionStep(c, s, es[0]);
      ClaimInvStep(c, s, es[0]);
      MentionsAreOneShot(c, Step(c, s, es[0]), es[1..]);
    }
  }

  /** Timely reports are never dated back. */
  lemma TimelyIsForward(c: Config, s: Run, e: Event)
    requires TimelyInv(c, s) && Enabled(s, e) && Timely(c, s, e)
    ensures NotBackdated(s, e)
  {
    if e.Finish? || e.Fail? {
      assert Open(s, e.attempt) && !Expired(c, s, e.attempt);
      assert Holds(s, e.attempt);
    }
  }

  lemma {:induction false} TimelyRunsGoForward(c: Config, s: Run, es: seq<Event>)
    requires ValidConfig(c) && TimelyInv(c, s) && LegalAndTimely(c, s, es)
    ensures LegalAndForward(c, s, es)
    decreases |es|
  {
    if es != [] {
      TimelyIsForward(c, s, es[0]);
      TimelyStep(c, s, es[0]);
      TimelyRunsGoForward(c, Step(c, s, es[0]), es[1..]);
    }
  }

  /** Mentions that start a review after a record of time `t` are newer than `t`. */
  lemma {:induction false} LaterMentionsAreNewer(c: Config, s: Run, es: seq<Event>, t: int)
    requires ClaimInv(c, s) && s.rec.Some? && s.rec.value.timestamp >= t && LegalAndForward(c, s, es)
    ensures Legal(c, s, es)
    ensures var after := Exec(c, s, es).mentions;
            s.mentions <= after && forall i :: |s.mentions| <= i < |after| ==> after[i] > t
    decreases |es|
  {
    FamiliesAreLegal(c, s, es);
    if es != [] {
      var next := Step(c, s, es[0]);
      RecordsGoForward(c, s, es[0]);
      ClaimInvStep(c, s, es[0]);
      if es[0].Try? {
        MentionStart(c, s, es[0]);
      }
      LaterMentionsAreNewer(c, next, es[1..], t);
    }
  }

  /** A poll at clock `t` starts a review because of mention `m`. */
  predicate StartsBy(c: Config, s: Run, m: int, commit: string, t: int) {
    && Enabled(s, Try(Poll, Some(m), commit, t))
    && Step(c, s, Try(Poll, Some(m), commit, t)).mentions == s.mentions + [m]
  }

  /** After a review that mention `m` started at clock `t`, a run in which it starts another. */
  ghost predicate StartsAgain(c: Config, s: Run, m: int, commit: string, t: int, es: seq<Event>)
    requires StartsBy(c, s, m, commit, t)
  {
    var first := Step(c, s, Try(Poll, Some(m), commit, t));
    && LegalAndForward(c, first, es) && Legal(c, first, es)
    && exists i :: |first.mentions| <= i < |Exec(c, first, es).mentions| && Exec(c, first, es).mentions[i] == m
  }

  /** No mention dated at or before the clock of its start can start again, whatever happens in between. */
  lemma PastMentionsAreSpent(c: Config, s: Run, m: int, commit: string, t: int, es: seq<Event>)
    requires ClaimInv(c, s) && StartsBy(c, s, m, commit, t) && m <= t
    ensures !StartsAgain(c, s, m, commit, t, es)
  {
    var e := Try(Poll, Some(m), commit, t);
    var first := Step(c, s, e);
    ClaimInvStep(c, s, e);
    MentionStart(c, s, e);
    if LegalAndForward(c, first, es) {
      LaterMentionsAreNewer(c, first, es, t);
    }
  }

  /** A mention ahead of the clock starts another review as soon as the first one has failed, at any
      later clock, in a run the scheduler makes. */
  lemma FutureMentionsRepeat(c: Config, m: int, t: int, t': int)
    requires t <= t' && t < m
    ensures var first, again := Try(Poll, Some(m), "head", t), Try(Poll, Some(m), "head", t');
            var s1 := Step(c, Begin(None, t), first);
            && StartsBy(c, Begin(None, t), m, "head", t)
            && StartsAgain(c, Begin(None, t), m, "head", t, [Fail(0, t, t), again])
            && LegalAndScheduled(c, s1, [Fail(0, t, t), again])
  {
    var s0, f, again := Begin(None, t), Fail(0, t, t), Try(Poll, Some(m), "head", t');
    var s1 := Step(c, s0, Try(Poll, Some(m), "head", t));
    assert s1.rec == Some(Fresh("head", InProgress, 0, t)) && s1.mentions == [m] && Open(s1, 0);
    var s2 := Step(c, s1, f);
    assert s2.rec == Some(Fresh("head", Failed, 0, t)) && forall i: nat :: !Open(s2, i);
    var s3 := Step(c, s2, again);
    assert s3.mentions == [m] + [m];
    assert [] + [f] == [f] && [f] + [again] == [f, again];
    ExecSnoc(c, s1, [], f);
    ExecSnoc(c, s1, [f], again);
    assert s3.mentions[1] == m;
  }

  /** Some review that `m` started at clock `t` is followed by another that it starts. */
  ghost predicate CanRepeat(c: Config, m: int, t: int) {
    exists s, commit, es :: ClaimInv(c, s) && StartsBy(c, s, m, commit, t) && StartsAgain(c, s, m, commit, t, es)
  }

  /** A mention is spent by the review it starts exactly when it is not ahead of the clock. */
  lemma MentionRepeatsIff(c: Config, m: int, t: int)
    ensures CanRepeat(c, m, t) <==> m > t
  {
    if m > t {
      var es := [Fail(0, t, t), Try(Poll, Some(m), "head", t)];
      FutureMentionsRepeat(c, m, t, t);
      assert ClaimInv(c, Begin(None, t));
      assert StartsAgain(c, Begin(None, t), m, "head", t, es);
    } else {
      forall s, commit, es | ClaimInv(c, s) && StartsBy(c, s, m, commit, t)
        ensures !StartsAgain(c, s, m, commit, t, es)
      {
        PastMentionsAreSpent(c, s, m, commit, t, es);
      }
    }
  }

  // ---------------------------------------------------------------- reviewed commits

  /** Events at one commit that nobody asked for: polls without a mention, restarts and skips. */
  predicate Unasked(e: Event, commit: string) {
    match e
    case Try(origin, mention, c, _) => !origin.Manual? && mention.None? && c == commit
    case MarkSkip(c, _) => c == commit
    case _ => true
  }

  /** A commit whose review is recorded is left alone: however often it is polled, and whatever
      restarts come between, no attempt starts and the record stays as it is. */
  lemma {:induction false} ReviewedCommitIsLeftAlone(c: Config, s: Run, es: seq<Event>)
    requires s.rec.Some? && !Retryable(s.rec.value) && Legal(c, s, es)
    requires forall i: nat :: !Open(s, i)
    requires forall i :: 0 <= i < |es| ==> Unasked(es[i], s.rec.value.commit)
    ensures Exec(c, s, es).rec == s.rec && |Exec(c, s, es).attempts| == |s.attempts|
    decreases |es|
  {
    if es != [] {
      var t := Step(c, s, es[0]);
      assert Unasked(es[0], s.rec.value.commit);
      assert t.rec == s.rec && |t.attempts| == |s.attempts|;
      assert forall i: nat :: Open(t, i) ==> Open(s, i);
      ReviewedCommitIsLeftAlone(c, t, es[1..]);
    }
  }

  /** A new commit starts at the next poll with a fresh budget, unless another reviewer holds the claim. */
  lemma NewCommitStarts(c: Config, s: Run, commit: string, now: int)
    requires s.clock <= now && s.rec.Some? && s.rec.value.commit != commit
    ensures var t := Step(c, s, Try(Poll, None, commit, now));
            if HoldsClaim(s.rec.value, c.stale, now) then t.attempts == s.attempts && t.rec == s.rec
            else |t.attempts| == |s.attempts| + 1 && t.retries == []
                 && t.rec == Some(Fresh(commit, InProgress, 0, now).(thread := s.rec.value.thread))
  {
    var m := Migrate(s.rec, c.key, now);
    assert m.value.commit == s.rec.value.commit && m.value.thread == s.rec.value.thread;
    assert m != s.rec ==> s.rec.value.status.Failed?;
  }

  // ---------------------------------------------------------------- discussion threads

  /** The thread that stands after a run: that of the last completion that brought one. */
  function Delivered(thread: BuzzThread, es: seq<Event>): BuzzThread
    decreases |es|
  {
    if es == [] then thread
    else Delivered(if es[0].Finish? && es[0].result.thread.Some? then es[0].result.thread.value else thread, es[1..])
  }

  /** No event of any run loses or changes the discussion thread, except a completion that brings another. */
  lemma {:induction false} ThreadIsNeverLost(c: Config, s: Run, es: seq<Event>)
    requires s.rec.Some? && s.rec.value.thread.Some? && Legal(c, s, es)
    ensures Exec(c, s, es).rec.Some?
    ensures Exec(c, s, es).rec.value.thread == Some(Delivered(s.rec.value.thread.value, es))
    decreases |es|
  {
    if es != [] {
      var t := Step(c, s, es[0]);
      assert t.rec.Some? && t.rec.value.thread == Some(Delivered(s.rec.value.thread.value, [es[0]]));
      ThreadIsNeverLost(c, t, es[1..]);
    }
  }
}
