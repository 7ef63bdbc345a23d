/** The health monitor: a pruned window and a few counters stand in for the whole history. */
module Health {
  import opened Options
  import Text

  const WINDOW_SECS := 900
  const SAMPLE_LIMIT: nat := 1000
  const QUEUE_AGE_THRESHOLD_SECS := 600

  /** A completed or failed attempt; a failed one may carry its cause. */
  datatype Attempt = Attempt(at: int, failed: bool, cause: Option<string>)

  datatype Outcome = Completed | Failed | Skipped | Cancelled

  datatype Reason = ConsecutiveFailures | HighFailureRate | QueueAgeExceeded

  datatype ProcessingHealth = ProcessingHealth(
    reasons: seq<Reason>,
    oldestQueuedAge: Option<nat>,
    recentAttempts: nat,
    recentFailures: nat,
    failureRate: Option<real>,
    consecutiveFailures: nat,
    lastSuccess: Option<int>,
    lastFailure: Option<int>,
    lastCause: Option<string>)

  // ---------------------------------------------------------------- the definition over all events

  predicate Ordered(h: seq<Attempt>) {
    forall i, j :: 0 <= i < j < |h| ==> h[i].at <= h[j].at
  }

  function Recent(h: seq<Attempt>, now: int): seq<Attempt> {
    if h == [] then []
    else if h[|h| - 1].at >= now - WINDOW_SECS then Recent(h[..|h| - 1], now) + [h[|h| - 1]]
    else Recent(h[..|h| - 1], now)
  }

  function LastOf(h: seq<Attempt>, n: nat): seq<Attempt> {
    if |h| <= n then h else h[|h| - n..]
  }

  /** The attempts that count: of those in the window, at most the last thousand. */
  function Sample(h: seq<Attempt>, now: int): seq<Attempt> {
    LastOf(Recent(h, now), SAMPLE_LIMIT)
  }

  function Failures(h: seq<Attempt>): nat {
    if h == [] then 0 else Failures(h[..|h| - 1]) + if h[|h| - 1].failed then 1 else 0
  }

  /** The last `n` attempts all failed, with no pause longer than the window between them. */
  predicate Streak(h: seq<Attempt>, n: nat) {
    && n <= |h|
    && (forall i :: |h| - n <= i < |h| ==> h[i].failed)
    && (forall i :: |h| - n < i < |h| ==> h[i].at - h[i - 1].at <= WINDOW_SECS)
  }

  function StreakLength(h: seq<Attempt>): nat {
    if h == [] || !h[|h| - 1].failed then 0
    else if |h| > 1 && h[|h| - 1].at - h[|h| - 2].at <= WINDOW_SECS then 1 + StreakLength(h[..|h| - 1])
    else 1
  }

  function LastAt(h: seq<Attempt>, failed: bool): Option<int> {
    if h == [] then None
    else if h[|h| - 1].failed == failed then Some(h[|h| - 1].at) else LastAt(h[..|h| - 1], failed)
  }

  /** The cause of the last failure, if it had one. */
  function LastCause(h: seq<Attempt>): Option<string> {
    if h == [] then None
    else if h[|h| - 1].failed then h[|h| - 1].cause else LastCause(h[..|h| - 1])
  }

  function Rate(failures: nat, attempts: nat): Option<real> {
    if attempts == 0 then None else Some(failures as real / attempts as real)
  }

  function Capped(n: nat): nat {
    if n > Text.U64_MAX then Text.U64_MAX else n
  }

  function Reasons(consecutive: nat, attempts: nat, failures: nat, age: Option<nat>): seq<Reason> {
    (if consecutive >= 3 then [ConsecutiveFailures] else [])
    + (if attempts >= 5 && failures * 2 >= attempts then [HighFailureRate] else [])
    + (if age.Some? && age.value >= QUEUE_AGE_THRESHOLD_SECS then [QueueAgeExceeded] else [])
  }

  function Report(sample: seq<Attempt>, streak: nat, oldest: Option<int>, lastSuccess: Option<int>,
                  lastFailure: Option<int>, lastCause: Option<string>, now: int): ProcessingHealth
  {
    var consecutive := if sample == [] then 0 else streak;
    var age := match oldest case None => None case Some(at) => Some(if now - at > 0 then now - at else 0);
    ProcessingHealth(Reasons(consecutive, |sample|, Failures(sample), age), age, |sample|, Failures(sample),
                     Rate(Failures(sample), |sample|), consecutive, lastSuccess, lastFailure, lastCause)
  }

  /** What is left of `h` from `c` on fits the window and the sample limit, and no more would fit. */
  predicate IsWindow(h: seq<Attempt>, c: nat, now: int) {
    && c <= |h| <= c + SAMPLE_LIMIT
    && (forall i :: c <= i < |h| ==> h[i].at >= now - WINDOW_SECS)
    && (c > 0 ==> |h| == c + SAMPLE_LIMIT || h[c - 1].at < now - WINDOW_SECS)
  }

  /** A pruned window of an ordered history. */
  predicate Keeps(h: seq<Attempt>, c: nat, w: seq<Attempt>) {
    && Ordered(h)
    && c <= |h| && w == h[c..]
    && (h == [] || IsWindow(h, c, h[|h| - 1].at))
  }

  /** Where the window starts in an ordered history. */
  function Cut(h: seq<Attempt>, now: int): (c: nat)
    requires Ordered(h)
    ensures c <= |h|
    ensures forall i :: 0 <= i < c ==> h[i].at < now - WINDOW_SECS
    ensures forall i :: c <= i < |h| ==> h[i].at >= now - WINDOW_SECS
  {
    if h == [] || h[|h| - 1].at < now - WINDOW_SECS then |h| else Cut(h[..|h| - 1], now)
  }

  lemma {:induction false} RecentFrom(h: seq<Attempt>, c: nat, now: int)
    requires c <= |h|
    requires forall i :: 0 <= i < c ==> h[i].at < now - WINDOW_SECS
    requires forall i :: c <= i < |h| ==> h[i].at >= now - WINDOW_SECS
    ensures Recent(h, now) == h[c..]
  {
    if h != [] {
      var n := |h| - 1;
      var g := h[..n];
      if c == |h| {
        RecentFrom(g, n, now);
        assert h[n].at < now - WINDOW_SECS;
        assert g[n..] == [] == h[c..];
      } else {
        RecentFrom(g, c, now);
        assert h[n].at >= now - WINDOW_SECS;
        assert g[c..] + [h[n]] == h[c..];
      }
    }
  }

  lemma SampleFrom(h: seq<Attempt>, c: nat, now: int)
    requires Ordered(h) && IsWindow(h, c, now)
    ensures Sample(h, now) == h[c..]
  {
    var c0 := Cut(h, now);
    RecentFrom(h, c0, now);
    assert c < |h| ==> h[c].at >= now - WINDOW_SECS;
    assert c0 <= c;
    if c0 < c {
      assert |h| == c + SAMPLE_LIMIT;
      assert h[c0..][c - c0..] == h[c..];
    }
  }

  /** Filtering the kept window again at a later time loses nothing the definition keeps. */
  lemma WindowSlides(h: seq<Attempt>, c: nat, w: seq<Attempt>, now: int)
    requires Keeps(h, c, w) && h != [] && h[|h| - 1].at <= now
    ensures Recent(w, now) == Sample(h, now)
  {
    var d := Cut(w, now);
    RecentFrom(w, d, now);
    SampleOfWindow(h, c, d, now);
    DropTwice(h, c, d);
  }

  lemma DropTwice(h: seq<Attempt>, c: nat, d: nat)
    requires c + d <= |h|
    ensures h[c..][d..] == h[c + d..]
  {
  }

  lemma SampleOfWindow(h: seq<Attempt>, c: nat, d: nat, now: int)
    requires Ordered(h) && h != [] && h[|h| - 1].at <= now && c + d <= |h| && IsWindow(h, c, h[|h| - 1].at)
    requires forall i :: 0 <= i < d ==> h[c..][i].at < now - WINDOW_SECS
    requires forall i :: d <= i < |h| - c ==> h[c..][i].at >= now - WINDOW_SECS
    ensures Sample(h, now) == h[c + d..]
  {
    WindowFrom(h, c, h[|h| - 1].at, d, now);
    SampleFrom(h, c + d, now);
  }

  lemma WindowFrom(h: seq<Attempt>, c: nat, at: int, d: nat, now: int)
    requires IsWindow(h, c, at) && at <= now && c + d <= |h|
    requires forall i :: 0 <= i < d ==> h[c..][i].at < now - WINDOW_SECS
    requires forall i :: d <= i < |h| - c ==> h[c..][i].at >= now - WINDOW_SECS
    ensures IsWindow(h, c + d, now)
  {
    assert forall i :: c + d <= i < |h| ==> h[i] == h[c..][i - c];
    assert d > 0 ==> h[c + d - 1] == h[c..][d - 1];
  }

  /** The counter's value is the longest run of failures that ends the history without a pause. */
  lemma {:induction false} StreakLengthIsLongest(h: seq<Attempt>)
    ensures Streak(h, StreakLength(h))
    ensures forall m :: StreakLength(h) < m <= |h| ==> !Streak(h, m)
  {
    if h != [] && h[|h| - 1].failed && |h| > 1 && h[|h| - 1].at - h[|h| - 2].at <= WINDOW_SECS {
      var n := |h| - 1;
      StreakLengthIsLongest(h[..n]);
      forall m | StreakLength(h) < m <= |h|
        ensures !Streak(h, m)
      {
        assert Streak(h, m) ==> Streak(h[..n], m - 1);
      }
    }
  }

  // ---------------------------------------------------------------- what a report says

  /** The attempts that failed, by their places. */
  function FailedAt(h: seq<Attempt>): set<nat> {
    set i: nat | i < |h| && h[i].failed
  }

  lemma {:induction false} FailuresAre(h: seq<Attempt>)
    ensures Failures(h) == |FailedAt(h)|
  {
    if h != [] {
      var n := |h| - 1;
      FailuresAre(h[..n]);
      assert FailedAt(h) == FailedAt(h[..n]) + if h[n].failed then {n} else {};
    }
  }

  lemma StreakIff(h: seq<Attempt>, n: nat)
    ensures Streak(h, n) <==> n <= StreakLength(h)
  {
    StreakLengthIsLongest(h);
  }

  /** The report on a history. */
  function ReportOn(log: seq<Attempt>, now: int, oldest: Option<int>): ProcessingHealth {
    Report(Sample(log, now), Capped(StreakLength(log)), oldest,
           LastAt(log, false), LastAt(log, true), LastCause(log), now)
  }

  /** The verdict in terms of the history: the last three attempts failed without a pause and there is
      a recent one; at least half of five or more recent attempts failed; a job has waited for ten
      minutes. No reason is given twice. */
  lemma VerdictIs(log: seq<Attempt>, now: int, oldest: Option<int>)
    ensures var r, sample := ReportOn(log, now, oldest), Sample(log, now);
            && (ConsecutiveFailures in r.reasons <==> Streak(log, 3) && sample != [])
            && (HighFailureRate in r.reasons <==> |sample| >= 5 && 2 * |FailedAt(sample)| >= |sample|)
            && (QueueAgeExceeded in r.reasons <==> oldest.Some? && oldest.value + 600 <= now)
            && (forall i, j :: 0 <= i < j < |r.reasons| ==> r.reasons[i] != r.reasons[j])
  {
    StreakIff(log, 3);
    FailuresAre(Sample(log, now));
    hide Sample, StreakLength, Failures, FailedAt, LastAt, LastCause;
  }

  /** The figures in terms of the history: the sampled attempts and failures with their quotient, the
      longest streak if anything is recent, and how long the oldest job has waited. */
  lemma FiguresAre(log: seq<Attempt>, now: int, oldest: Option<int>)
    requires |log| <= Text.U64_MAX
    ensures var r, sample := ReportOn(log, now, oldest), Sample(log, now);
            && r.recentAttempts == |sample| && r.recentFailures == |FailedAt(sample)|
            && (r.failureRate.Some? <==> sample != [])
            && (sample != [] ==> r.failureRate.value * |sample| as real == |FailedAt(sample)| as real)
            && (sample != [] ==> Streak(log, r.consecutiveFailures) && !Streak(log, r.consecutiveFailures + 1))
            && (sample == [] ==> r.consecutiveFailures == 0)
            && (oldest.None? <==> r.oldestQueuedAge.None?)
            && (oldest.Some? && oldest.value <= now ==> oldest.value + r.oldestQueuedAge.value == now)
            && (oldest.Some? && oldest.value > now ==> r.oldestQueuedAge.value == 0)
  {
    StreakIff(log, StreakLength(log));
    StreakIff(log, StreakLength(log) + 1);
    FailuresAre(Sample(log, now));
    hide Sample, StreakLength, Failures, FailedAt, LastAt, LastCause;
  }

  /** The times and the cause are those of the last attempt of their kind. */
  lemma {:induction false} LastIs(h: seq<Attempt>, failed: bool)
    ensures LastAt(h, failed).None? <==> forall i :: 0 <= i < |h| ==> h[i].failed != failed
    ensures LastAt(h, failed).Some? ==>
              exists i :: 0 <= i < |h| && h[i].failed == failed && LastAt(h, failed) == Some(h[i].at)
                          && (forall j :: i < j < |h| ==> h[j].failed != failed)
                          && (failed ==> LastCause(h) == h[i].cause)
    ensures LastAt(h, true).None? ==> LastCause(h) == None
  {
    if h != [] {
      var n := |h| - 1;
      LastIs(h[..n], failed);
      LastIs(h[..n], true);
      assert forall i :: 0 <= i < n ==> h[..n][i] == h[i];
      if h[n].failed == failed {
        assert LastAt(h, failed) == Some(h[n].at);
      }
    }
  }

  // ---------------------------------------------------------------- the monitor

  class HealthHistory {
    var outcomes: seq<Attempt>
    var consecutiveFailures: nat
    var lastSuccess: Option<int>
    var lastFailure: Option<int>
    var lastCause: Option<string>
    ghost var log: seq<Attempt>      // every completed or failed attempt ever recorded
    ghost var from: nat              // how many of them have been dropped

    ghost predicate Valid()
      reads this
    {
      && Keeps(log, from, outcomes)
      && consecutiveFailures == Capped(StreakLength(log))
      && lastSuccess == LastAt(log, false)
      && lastFailure == LastAt(log, true)
      && lastCause == LastCause(log)
    }

    constructor ()
      ensures Valid() && log == []
    {
      outcomes, consecutiveFailures, lastSuccess, lastFailure, lastCause := [], 0, None, None, None;
      log, from := [], 0;
    }

    /** Drops the oldest outcomes until the window holds again. */
    method Prune(now: int)
      requires Ordered(log) && from <= |log| && outcomes == log[from..] && log != [] && log[|log| - 1].at == now
      requires from > 0 ==> |log| - from > SAMPLE_LIMIT || log[from - 1].at < now - WINDOW_SECS
      modifies `outcomes, `from
      ensures Keeps(log, from, outcomes)
    {
      hide Keeps, IsWindow, Ordered;
      while |outcomes| > SAMPLE_LIMIT || (outcomes != [] && outcomes[0].at < now - WINDOW_SECS)
        invariant from <= |log| && outcomes == log[from..]
        invariant from > 0 ==> |log| - from >= SAMPLE_LIMIT || log[from - 1].at < now - WINDOW_SECS
        decreases |outcomes|
      {
        DropOne(log, from);
        outcomes, from := outcomes[1..], from + 1;
      }
      PrunedIsWindow(log, from, now);
    }

    /** The last kept outcome is the last recorded one, so its age tells whether there was a pause. */
    method ResetAfterPause(now: int)
      requires Valid()
      modifies `consecutiveFailures
      ensures consecutiveFailures ==
              if log != [] && log[|log| - 1].at < now - WINDOW_SECS then 0 else Capped(StreakLength(log))
    {
      assert log != [] ==> outcomes != [] && outcomes[|outcomes| - 1] == log[|log| - 1];
      if outcomes != [] && outcomes[|outcomes| - 1].at < now - WINDOW_SECS {
        consecutiveFailures := 0;
      }
    }

    method Append(a: Attempt)
      requires Keeps(log, from, outcomes) && (log != [] ==> log[|log| - 1].at <= a.at)
      modifies `outcomes, `log
      ensures log == old(log) + [a] && Ordered(log) && outcomes == log[from..]
      ensures from > 0 ==> |log| - from > SAMPLE_LIMIT || log[from - 1].at < a.at - WINDOW_SECS
    {
      WindowGrows(log, from, a);
      outcomes := outcomes + [a];
      log := log + [a];
    }

    method Keep(a: Attempt)
      requires Keeps(log, from, outcomes) && (log != [] ==> log[|log| - 1].at <= a.at)
      modifies `outcomes, `log, `from
      ensures log == old(log) + [a] && Keeps(log, from, outcomes)
    {
      Append(a);
      Prune(a.at);
    }

    method RecordAttempt(a: Attempt)
      requires Valid() && (log != [] ==> log[|log| - 1].at <= a.at)
      modifies this
      ensures Valid() && log == old(log) + [a]
    {
      ghost var was := log;
      ResetAfterPause(a.at);
      Keep(a);
      Count(a, was);
    }

    /** Only completed and failed attempts count; anything else changes nothing. */
    method Record(now: int, status: Outcome, cause: Option<string>)
      requires Valid() && (log != [] ==> log[|log| - 1].at <= now)
      modifies this
      ensures Valid()
      ensures log == old(log)
                     + if status.Completed? || status.Failed? then [Attempt(now, status.Failed?, cause)] else []
    {
      if status.Completed? || status.Failed? {
        RecordAttempt(Attempt(now, status.Failed?, cause));
      }
    }

    /** Updates the counters for one attempt. */
    method Count(a: Attempt, ghost was: seq<Attempt>)
      requires log == was + [a]
      requires consecutiveFailures ==
               if was != [] && was[|was| - 1].at < a.at - WINDOW_SECS then 0 else Capped(StreakLength(was))
      requires lastSuccess == LastAt(was, false) && lastFailure == LastAt(was, true) && lastCause == LastCause(was)
      modifies `consecutiveFailures, `lastSuccess, `lastFailure, `lastCause
      ensures consecutiveFailures == Capped(StreakLength(log))
      ensures lastSuccess == LastAt(log, false) && lastFailure == LastAt(log, true) && lastCause == LastCause(log)
    {
      CountersGrow(was, a);
      if a.failed {
        consecutiveFailures := if consecutiveFailures >= Text.U64_MAX then Text.U64_MAX else consecutiveFailures + 1;
        lastFailure := Some(a.at);
        lastCause := a.cause;
      } else {
        consecutiveFailures := 0;
        lastSuccess := Some(a.at);
      }
    }

    method RecentOutcomes(now: int) returns (recent: seq<Attempt>, failures: nat)
      ensures recent == Recent(outcomes, now) && failures == Failures(recent)
    {
      recent, failures := [], 0;
      for i := 0 to |outcomes|
        invariant recent == Recent(outcomes[..i], now) && failures == Failures(recent)
      {
        assert outcomes[..i + 1][..i] == outcomes[..i];
        if outcomes[i].at >= now - WINDOW_SECS {
          assert (recent + [outcomes[i]])[..|recent|] == recent;
          recent := recent + [outcomes[i]];
          failures := failures + if outcomes[i].failed then 1 else 0;
        }
      }
      assert outcomes[..|outcomes|] == outcomes;
    }

    static method Judge(consecutive: nat, attempts: nat, failures: nat, age: Option<nat>) returns (reasons: seq<Reason>)
      ensures reasons == Reasons(consecutive, attempts, failures, age)
    {
      reasons := [];
      if consecutive >= 3 {
        reasons := reasons + [ConsecutiveFailures];
      }
      if attempts >= 5 && failures * 2 >= attempts {
        reasons := reasons + [HighFailureRate];
      }
      if age.Some? && age.value >= QUEUE_AGE_THRESHOLD_SECS {
        reasons := reasons + [QueueAgeExceeded];
      }
    }

    /** What the pruned window reports is what the whole history would report. */
    method Snapshot(now: int, oldestQueued: Option<int>) returns (r: ProcessingHealth)
      requires Valid() && (log != [] ==> log[|log| - 1].at <= now)
      ensures r == ReportOn(log, now, oldestQueued)
    {
      var recent, failures := RecentOutcomes(now);
      if log != [] {
        WindowSlides(log, from, outcomes, now);
      }
      assert recent == Sample(log, now);
      var consecutive := if recent == [] then 0 else consecutiveFailures;
      var age := match oldestQueued case None => None case Some(at) => Some(if now - at > 0 then now - at else 0);
      var reasons := Judge(consecutive, |recent|, failures, age);
      r := ProcessingHealth(reasons, age, |recent|, failures, Rate(failures, |recent|), consecutive,
                            lastSuccess, lastFailure, lastCause);
    }
  }

  lemma DropOne(h: seq<Attempt>, c: nat)
    requires c < |h|
    ensures h[c..][1..] == h[c + 1..] && h[c..][0] == h[c]
  {
  }

  /** A history from which nothing needs to be dropped, and nothing was dropped too early. */
  lemma PrunedIsWindow(h: seq<Attempt>, c: nat, now: int)
    requires Ordered(h) && c <= |h| <= c + SAMPLE_LIMIT && h != [] && h[|h| - 1].at == now
    requires h[c..] == [] || h[c..][0].at >= now - WINDOW_SECS
    requires c > 0 ==> |h| - c >= SAMPLE_LIMIT || h[c - 1].at < now - WINDOW_SECS
    ensures Keeps(h, c, h[c..])
  {
    assert c < |h| ==> h[c..][0] == h[c];
  }

  /** A new attempt keeps the history ordered and the old window one element from a new one. */
  lemma WindowGrows(h: seq<Attempt>, c: nat, a: Attempt)
    requires Ordered(h) && c <= |h| && (h == [] || IsWindow(h, c, h[|h| - 1].at))
    requires h != [] ==> h[|h| - 1].at <= a.at
    ensures var g := h + [a];
            && Ordered(g) && h[c..] + [a] == g[c..]
            && (c > 0 ==> |g| - c > SAMPLE_LIMIT || g[c - 1].at < a.at - WINDOW_SECS)
  {
  }

  lemma CountersGrow(h: seq<Attempt>, a: Attempt)
    ensures var joined := h != [] && a.at - h[|h| - 1].at <= WINDOW_SECS;
            StreakLength(h + [a]) == if !a.failed then 0 else if joined then StreakLength(h) + 1 else 1
    ensures LastAt(h + [a], a.failed) == Some(a.at)
    ensures LastAt(h + [a], !a.failed) == LastAt(h, !a.failed)
    ensures LastCause(h + [a]) == if a.failed then a.cause else LastCause(h)
  {
    assert (h + [a])[..|h|] == h;
  }
}
