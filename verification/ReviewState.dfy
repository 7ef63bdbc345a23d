/** The durable review records: who may start a review of one key, and what each write stores. */
module ReviewState {
  import opened Options
  import opened Text
  import opened StateKeys

  datatype Status =
    | Queued | InProgress | Skipped | Failed | NoFindings
    | Rejected | Unverified | AlreadyReported | Confirmed | MarkdownOnly

  datatype BuzzThread = BuzzThread(channel: string, root: string, findings: seq<string>)

  datatype Record = Record(
    commit: string,
    timestamp: int,
    status: Status,
    retryCount: nat,
    retryVersion: nat,
    retryNotBefore: Option<int>,
    thread: Option<BuzzThread>)

  datatype Decision = Skip | FirstReview | ReReview | RetryFailed

  datatype Origin = Poll | Manual | Generated

  const MAX_RETRY_DELAY_SECS := 21600
  const MIGRATION_WINDOW_SECS := 3600
  const RETRY_WINDOW_SECS := 60

  // ---------------------------------------------------------------- arithmetic

  /** `as u64` on a signed age: a negative age becomes a huge one. */
  function AsU64(age: int): nat {
    age % (U64_MAX + 1)
  }

  function SaturatingSucc(n: nat): nat {
    if n >= U32_MAX then U32_MAX else n + 1
  }

  function Pow2(n: nat): nat {
    if n == 0 then 1 else 2 * Pow2(n - 1)
  }

  function RetryDelay(retries: nat): nat {
    var delay := 300 * Pow2(if retries < 16 then retries else 16);
    if delay < MAX_RETRY_DELAY_SECS then delay else MAX_RETRY_DELAY_SECS
  }

  function KeyHash(key: string): nat {
    if key == [] then 0
    else (31 * KeyHash(key[..|key| - 1]) + key[|key| - 1] as int) % (U64_MAX + 1)
  }

  function RetryJitter(key: string, window: nat): (j: nat)
    requires window > 0
    ensures j < window
  {
    KeyHash(key) % window
  }

  // ---------------------------------------------------------------- one record

  predicate Retryable(r: Record) {
    r.status.Failed? || r.status.InProgress?
  }

  /** A claim that other reviewers must respect. */
  predicate HoldsClaim(r: Record, stale: nat, now: int) {
    r.status.InProgress? && AsU64(now - r.timestamp) <= stale
  }

  function NextRetry(r: Record, key: string): int {
    match r.retryNotBefore
    case Some(at) => at
    case None => r.timestamp + RetryDelay(r.retryCount) + RetryJitter(key, RETRY_WINDOW_SECS)
  }

  function Migrate(rec: Option<Record>, key: string, now: int): Option<Record> {
    if rec.Some? && rec.value.status.Failed? && rec.value.retryVersion == 0 then
      Some(rec.value.(retryVersion := 1, retryCount := 0,
                      retryNotBefore := Some(now + 300 + RetryJitter(key, MIGRATION_WINDOW_SECS))))
    else rec
  }

  /** `should_review_inner` without the force flag; `limit` is absent for the unlimited check. */
  function Decide(rec: Option<Record>, key: string, commit: string, stale: nat, limit: Option<nat>,
                  now: int): Decision
  {
    match rec
    case None => FirstReview
    case Some(r) =>
      if HoldsClaim(r, stale, now) then Skip
      else if r.commit != commit then ReReview
      else if !Retryable(r) then Skip
      else if limit.Some? && (r.retryCount >= limit.value || now < NextRetry(r, key)) then Skip
      else RetryFailed
  }

  function ApplyMentionTrigger(d: Decision, mention: int, last: Option<int>): Decision {
    var isFresh := last.None? || mention > last.value;
    if (d.Skip? || d.RetryFailed?) && isFresh then ReReview
    else if d.ReReview? && !isFresh then Skip
    else d
  }

  /** The decision after an explicit request or a trusted mention has had its say. */
  function EffectiveDecision(origin: Origin, mention: Option<int>, d: Decision, rec: Option<Record>): Decision {
    if origin.Manual? && !d.FirstReview? then ReReview
    else if mention.Some? then
      ApplyMentionTrigger(d, mention.value, if rec.Some? then Some(rec.value.timestamp) else None)
    else d
  }

  /** The retry number an attempt writes back if it fails. */
  function CountForAttempt(d: Decision, rec: Option<Record>): nat {
    if !d.RetryFailed? then 0 else if rec.Some? then SaturatingSucc(rec.value.retryCount) else 1
  }

  function Fresh(commit: string, status: Status, retries: nat, now: int): Record {
    Record(commit, now, status, retries, 1, None, None)
  }

  function ClaimedCount(prev: Option<Record>, commit: string, otherwise: nat): nat {
    if prev.Some? && prev.value.commit == commit && Retryable(prev.value)
    then SaturatingSucc(prev.value.retryCount) else otherwise
  }

  /** `lock_for_review`: the claimed record, or nothing if another reviewer holds the claim. */
  function Claim(prev: Option<Record>, commit: string, stale: nat, now: int): Option<Record> {
    if prev.Some? && HoldsClaim(prev.value, stale, now) then None
    else Some(Fresh(commit, InProgress, ClaimedCount(prev, commit, 0), now)
              .(thread := if prev.Some? then prev.value.thread else None))
  }

  /** `try_claim`: the same rule for a record the caller has already filled in. */
  function TryClaimed(prev: Option<Record>, r: Record, stale: nat, now: int): Option<Record> {
    if prev.Some? && HoldsClaim(prev.value, stale, now) then None
    else Some(r.(status := InProgress, timestamp := now,
                 retryCount := ClaimedCount(prev, r.commit, r.retryCount),
                 thread := if prev.Some? then prev.value.thread else r.thread))
  }

  /** `mark_reviewed` keeps the discussion thread of the record it overwrites. */
  function Completed(prev: Option<Record>, r: Record): Record {
    if r.thread.None? && prev.Some? then r.(thread := prev.value.thread) else r
  }

  function Recovered(r: Record, now: int): Record {
    if r.status.InProgress? then r.(status := Failed, timestamp := now) else r
  }

  /** What `mark_skipped_if_needed` leaves. */
  function SkipMarked(rec: Option<Record>, key: string, commit: string, stale: nat, now: int): Option<Record> {
    if Decide(rec, key, commit, stale, None, now).Skip? then rec
    else Some(Completed(rec, Fresh(commit, Skipped, 0, now)))
  }

  datatype Start = Start(decision: Decision, countForAttempt: nat)

  /** Migration, decision, override and claim for one key, as one step. */
  function TryStart(rec: Option<Record>, key: string, origin: Origin, mention: Option<int>, commit: string,
                    stale: nat, limit: nat, now: int): (Option<Record>, Option<Start>)
  {
    var m := Migrate(rec, key, now);
    var d := EffectiveDecision(origin, mention, Decide(m, key, commit, stale, Some(limit), now), m);
    var claim := Claim(m, commit, stale, now);
    if d.Skip? || claim.None? then (m, None) else (claim, Some(Start(d, CountForAttempt(d, m))))
  }

  // ---------------------------------------------------------------- the table

  function Lookup(records: map<string, Record>, key: string): Option<Record> {
    if key in records then Some(records[key]) else None
  }

  function RecoveredAll(records: map<string, Record>, now: int): map<string, Record> {
    map k | k in records :: Recovered(records[k], now)
  }

  function Interrupted(records: map<string, Record>): set<string> {
    set k | k in records && records[k].status.InProgress?
  }

  class StateStore {
    var records: map<string, Record>

    constructor ()
      ensures records == map[]
    {
      records := map[];
    }

    method MigrateReviewRetry(key: string, now: int)
      modifies this
      ensures Lookup(records, key) == Migrate(Lookup(old(records), key), key, now)
      ensures forall k :: k != key ==> Lookup(records, k) == Lookup(old(records), k)
    {
      if key in records && records[key].status.Failed? && records[key].retryVersion == 0 {
        var at := now + 300 + RetryJitter(key, MIGRATION_WINDOW_SECS);
        records := records[key := records[key].(retryVersion := 1, retryCount := 0, retryNotBefore := Some(at))];
      }
    }

    method ShouldReviewWithRetryLimit(key: string, commit: string, stale: nat, limit: nat, now: int)
      returns (d: Decision)
      modifies this
      ensures Lookup(records, key) == Migrate(Lookup(old(records), key), key, now)
      ensures forall k :: k != key ==> Lookup(records, k) == Lookup(old(records), k)
      ensures d == Decide(Lookup(records, key), key, commit, stale, Some(limit), now)
    {
      MigrateReviewRetry(key, now);
      d := Decide(Lookup(records, key), key, commit, stale, Some(limit), now);
    }

    method LockForReview(key: string, commit: string, stale: nat, now: int) returns (acquired: bool)
      modifies this
      ensures var claim := Claim(Lookup(old(records), key), commit, stale, now);
              && (acquired <==> claim.Some?)
              && records == if acquired then old(records)[key := claim.value] else old(records)
    {
      if key in records && records[key].status.InProgress? && AsU64(now - records[key].timestamp) <= stale {
        return false;
      }
      var r := Fresh(commit, InProgress, 0, now);
      if key in records {
        r := r.(thread := records[key].thread);
        if records[key].commit == commit && Retryable(records[key]) {
          r := r.(retryCount := SaturatingSucc(records[key].retryCount));
        }
      }
      records := records[key := r];
      acquired := true;
    }

    method TryClaim(key: string, record: Record, stale: nat, now: int) returns (acquired: bool)
      modifies this
      ensures var claim := TryClaimed(Lookup(old(records), key), record, stale, now);
              && (acquired <==> claim.Some?)
              && records == if acquired then old(records)[key := claim.value] else old(records)
    {
      var r := record;
      if key in records {
        var previous := records[key];
        r := r.(thread := previous.thread);
        if previous.status.InProgress? {
          var age := AsU64(now - previous.timestamp);
          if age <= stale {
            return false;
          }
        }
        if previous.commit == r.commit && Retryable(previous) {
          r := r.(retryCount := SaturatingSucc(previous.retryCount));
        }
      }
      records := records[key := r.(status := InProgress, timestamp := now)];
      acquired := true;
    }

    method MarkReviewed(key: string, record: Record)
      modifies this
      ensures records == old(records)[key := Completed(Lookup(old(records), key), record)]
    {
      var r := record;
      if r.thread.None? && key in records {
        r := r.(thread := records[key].thread);
      }
      records := records[key := r];
    }

    /** Restart recovery visits every record and rewrites the interrupted ones in one transaction. */
    method RecoverInterrupted(now: int) returns (recovered: nat)
      modifies this
      ensures records == RecoveredAll(old(records), now)
      ensures recovered == |Interrupted(old(records))|
    {
      var table, todo, rewritten: set<string> := records, records.Keys, {};
      while todo != {}
        invariant todo <= records.Keys == table.Keys
        invariant forall k :: k in todo ==> table[k] == records[k]
        invariant forall k :: k in records && k !in todo ==> table[k] == Recovered(records[k], now)
        invariant forall k :: k in rewritten <==> k in records && k !in todo && records[k].status.InProgress?
      {
        var k :| k in todo;
        if table[k].status.InProgress? {
          table := table[k := table[k].(status := Failed, timestamp := now)];
          rewritten := rewritten + {k};
        }
        todo := todo - {k};
      }
      assert rewritten == Interrupted(records);
      records, recovered := table, |rewritten|;
    }

    /** The decide, override and claim path of `process_daemon_job`, run without interference. */
    method DecideAndClaim(repo: string, pr: nat, kind: string, origin: Origin, mention: Option<int>, commit: string,
                          stale: nat, limit: nat, now: int) returns (start: Option<Start>)
      modifies this
      ensures var key := PrStateKey(repo, pr, kind);
              (Lookup(records, key), start) ==
              TryStart(Lookup(old(records), key), key, origin, mention, commit, stale, limit, now)
      ensures forall k :: k != PrStateKey(repo, pr, kind) ==> Lookup(records, k) == Lookup(old(records), k)
    {
      var key := PrStateKey(repo, pr, kind);
      var decision := ShouldReviewWithRetryLimit(key, commit, stale, limit, now);
      if origin.Manual? && !decision.FirstReview? {
        decision := ReReview;
      } else if mention.Some? {
        var last := if key in records then Some(records[key].timestamp) else None;
        decision := ApplyMentionTrigger(decision, mention.value, last);
      }
      if decision.Skip? {
        return None;
      }
      var count := 0;
      if decision.RetryFailed? {
        count := if key in records then SaturatingSucc(records[key].retryCount) else 1;
      }
      var acquired := LockForReview(key, commit, stale, now);
      start := if acquired then Some(Start(decision, count)) else None;
    }
  }

  // ---------------------------------------------------------------- one-step facts

  /** Of two competing claims within the stale window, the second one loses. */
  lemma CompetingClaimsHaveOneWinner(prev: Option<Record>, r: Record, r': Record, stale: nat, now: int, now': int)
    requires TryClaimed(prev, r, stale, now).Some?
    requires now <= now' <= now + stale && stale <= U64_MAX
    ensures TryClaimed(TryClaimed(prev, r, stale, now), r', stale, now').None?
  {
    assert AsU64(now' - now) == now' - now;
  }

  lemma {:induction false} Pow2Monotone(m: nat, n: nat)
    requires m <= n
    ensures Pow2(m) <= Pow2(n)
  {
    if m < n {
      Pow2Monotone(m, n - 1);
    }
  }

  /** Waiting never gets shorter: it doubles from five minutes and stops at six hours. */
  lemma RetryDelayIs(n: nat)
    ensures RetryDelay(n) == if n < 7 then 300 * Pow2(n) else 21600
    ensures RetryDelay(n) <= RetryDelay(n + 1) <= 2 * RetryDelay(n)
  {
    assert Pow2(6) == 64 && Pow2(7) == 128;
    if n < 6 {
      Pow2Monotone(n + 1, 6);
    } else if n > 6 {
      Pow2Monotone(7, if n < 16 then n else 16);
    }
  }

  lemma {:induction false} RetryDelayMonotone(m: nat, n: nat)
    requires m <= n
    ensures RetryDelay(m) <= RetryDelay(n)
  {
    if m < n {
      RetryDelayIs(n - 1);
      RetryDelayMonotone(m, n - 1);
    }
  }

  // ---------------------------------------------------------------- when a review starts

  /** The start that a job gets, if any. */
  function Started(rec: Option<Record>, key: string, origin: Origin, mention: Option<int>, commit: string,
                   stale: nat, limit: nat, now: int): Option<Start>
  {
    TryStart(rec, key, origin, mention, commit, stale, limit, now).1
  }

  predicate IsClaimed(rec: Option<Record>, stale: nat, now: int) {
    rec.Some? && HoldsClaim(rec.value, stale, now)
  }

  /** An explicit request starts a review of any commit, reviewed or failed before or not, with a
      fresh count, exactly unless a claim is live. */
  lemma ManualStartsUnlessClaimed(rec: Option<Record>, key: string, mention: Option<int>, commit: string,
                                  stale: nat, limit: nat, now: int)
    ensures Started(rec, key, Manual, mention, commit, stale, limit, now)
            == if IsClaimed(rec, stale, now) then None
               else Some(Start(if rec.None? then FirstReview else ReReview, 0))
  {
  }

  /** Over an existing record a mention starts a review that is no retry exactly if no claim is live
      and it is newer than the record; an older one leaves at most the retry that was due anyway. */
  lemma MentionStartsIff(r: Record, key: string, origin: Origin, m: int, commit: string,
                         stale: nat, limit: nat, now: int)
    requires !origin.Manual?
    ensures var start := Started(Some(r), key, origin, Some(m), commit, stale, limit, now);
            && (start == Some(Start(ReReview, 0)) <==> !HoldsClaim(r, stale, now) && m > r.timestamp)
            && (start.Some? && start != Some(Start(ReReview, 0)) ==>
                  start == Started(Some(r), key, origin, None, commit, stale, limit, now)
                  && start.value.decision.RetryFailed?)
            && (m <= r.timestamp && r.commit == commit ==>
                  start == Started(Some(r), key, origin, None, commit, stale, limit, now))
  {
  }

  /** When the next automatic retry of a record may start: at its own date, or when its delay and at
      most a minute more have passed. */
  predicate IsDue(r: Record, key: string, now: int) {
    match r.retryNotBefore
    case Some(at) => at <= now
    case None => r.timestamp + RetryDelay(r.retryCount) + RetryJitter(key, RETRY_WINDOW_SECS) <= now
  }

  /** Without a request or a mention: a first review and a review of a new commit start unless a claim
      is live, and the same commit starts exactly as a retry that is left, due and counted. */
  lemma PollStartsIff(rec: Option<Record>, key: string, origin: Origin, commit: string,
                      stale: nat, limit: nat, now: int)
    requires !origin.Manual?
    ensures var start, m := Started(rec, key, origin, None, commit, stale, limit, now), Migrate(rec, key, now);
            && (rec.None? || (rec.value.commit != commit && !IsClaimed(rec, stale, now)) ==>
                  start == Some(Start(if rec.None? then FirstReview else ReReview, 0)))
            && (rec.Some? && rec.value.commit == commit ==>
                  && (start.Some? <==>
                        !IsClaimed(rec, stale, now) && (rec.value.status.Failed? || rec.value.status.InProgress?)
                        && m.value.retryCount < limit && IsDue(m.value, key, now))
                  && (start.Some? ==>
                        start == Some(Start(RetryFailed, if m.value.retryCount < U32_MAX then m.value.retryCount + 1
                                                         else U32_MAX))))
            && (IsClaimed(rec, stale, now) ==> start.None?)
  {
  }

  /** The one-time migration gives exactly the failed records of the old format a fresh count and a
      date of their own, five minutes from now and spread over an hour; it happens once and then
      keeps a poll from starting at once. */
  lemma MigrationStaggers(rec: Option<Record>, key: string, now: int, later: int)
    ensures var m := Migrate(rec, key, now);
            && (m != rec ==>
                  && rec.Some? && rec.value.status.Failed? && rec.value.retryVersion == 0
                  && m.Some? && m.value.retryNotBefore.Some?
                  && now + 300 <= m.value.retryNotBefore.value < now + 3900
                  && m.value == rec.value.(retryVersion := 1, retryCount := 0,
                                           retryNotBefore := m.value.retryNotBefore))
            && (m.Some? && m.value.status.Failed? ==> m.value.retryVersion != 0)
            && Migrate(m, key, later) == m
  {
  }

  /** What a start leaves in the record: the new commit, claimed now and without a date of its own,
      with the thread of the record before and the count that the attempt writes back if it fails,
      or one more than that if a review that is no retry takes over a failed attempt. */
  lemma StartLeaves(rec: Option<Record>, key: string, origin: Origin, mention: Option<int>, commit: string,
                    stale: nat, limit: nat, now: int)
    requires Started(rec, key, origin, mention, commit, stale, limit, now).Some?
    ensures var after := TryStart(rec, key, origin, mention, commit, stale, limit, now).0;
            && after.Some?
            && after.value == Record(commit, now, InProgress, after.value.retryCount, 1, None,
                                     if rec.Some? then rec.value.thread else None)
            && Started(rec, key, origin, mention, commit, stale, limit, now).value.countForAttempt
               <= after.value.retryCount
            && (Started(rec, key, origin, mention, commit, stale, limit, now).value.decision.RetryFailed? ==>
                  Started(rec, key, origin, mention, commit, stale, limit, now).value.countForAttempt
                  == after.value.retryCount)
  {
  }

  /** A refused start leaves the migrated record. */
  lemma RefusalLeaves(rec: Option<Record>, key: string, origin: Origin, mention: Option<int>, commit: string,
                      stale: nat, limit: nat, now: int)
    requires Started(rec, key, origin, mention, commit, stale, limit, now).None?
    ensures TryStart(rec, key, origin, mention, commit, stale, limit, now).0 == Migrate(rec, key, now)
  {
  }

  /** An attempt that a restart interrupts is retried like one that failed at the restart: once its
      delay since then has passed, and not before, for as long as retries are left; a record that was
      not in progress stays as it is. */
  lemma InterruptedIsRetried(r: Record, key: string, origin: Origin, stale: nat, limit: nat, now: int, later: int)
    requires !origin.Manual? && r.retryVersion != 0 && r.retryNotBefore.None?
    ensures var after := Recovered(r, now);
            && after.commit == r.commit && after.retryCount == r.retryCount && after.thread == r.thread
            && (!r.status.InProgress? ==> after == r)
            && (r.status.InProgress? ==>
                  (Started(Some(after), key, origin, None, r.commit, stale, limit, later).Some?
                   <==> r.retryCount < limit
                        && now + RetryDelay(r.retryCount) + RetryJitter(key, RETRY_WINDOW_SECS) <= later))
  {
  }

  /** The two claim transactions agree: filling in a bare record and claiming with it is the lock. */
  lemma ClaimsAgree(prev: Option<Record>, commit: string, status: Status, at: int, stale: nat, now: int)
    ensures TryClaimed(prev, Fresh(commit, status, 0, at), stale, now) == Claim(prev, commit, stale, now)
  {
  }

  /** A claim with a filled-in record stores that record, in progress since now, with the thread of the
      record before; only a retry of the same commit is counted on. */
  lemma FilledClaimIs(prev: Option<Record>, r: Record, stale: nat, now: int)
    ensures TryClaimed(prev, r, stale, now).None? <==> IsClaimed(prev, stale, now)
    ensures var claim, counts := TryClaimed(prev, r, stale, now),
                                 prev.Some? && prev.value.commit == r.commit && Retryable(prev.value);
            claim.Some? ==>
              && claim.value.(retryCount := r.retryCount)
                 == r.(status := InProgress, timestamp := now,
                       thread := if prev.Some? then prev.value.thread else r.thread)
              && claim.value.retryCount == if counts then SaturatingSucc(prev.value.retryCount) else r.retryCount
  {
  }

  /** A skip is written exactly where a review without a retry limit would start; it leaves the commit
      as one that is not tried again, and keeps the thread. */
  lemma SkipIsFinal(rec: Option<Record>, key: string, commit: string, stale: nat, now: int, limit: nat, later: int)
    ensures var after := SkipMarked(rec, key, commit, stale, now);
            && after.Some?
            && (after != rec ==>
                  && after.value == Record(commit, now, Skipped, 0, 1, None,
                                           if rec.Some? then rec.value.thread else None)
                  && Started(after, key, Poll, None, commit, stale, limit, later).None?)
            && (after == rec <==> rec.Some? && (IsClaimed(rec, stale, now)
                                                || (rec.value.commit == commit && !Retryable(rec.value))))
  {
  }

  // ---------------------------------------------------------------- the jitter

  /** The bytes of a text as the digits of a number to the base 31. */
  function Base31(s: string): nat {
    if s == [] then 0 else 31 * Base31(s[..|s| - 1]) + s[|s| - 1] as int
  }

  lemma QuotientIs(z: nat, k: nat, r: nat)
    requires z == 0x1_0000_0000_0000_0000 * k + r && r < 0x1_0000_0000_0000_0000
    ensures z % (U64_MAX + 1) == r
  {
    assert U64_MAX + 1 == 0x1_0000_0000_0000_0000;
    assert z % 0x1_0000_0000_0000_0000 == r;
  }

  lemma WrappedStep(x: nat, c: nat)
    ensures (31 * (x % (U64_MAX + 1)) + c) % (U64_MAX + 1) == (31 * x + c) % (U64_MAX + 1)
  {
    var q, r := x / 0x1_0000_0000_0000_0000, x % 0x1_0000_0000_0000_0000;
    var y := 31 * r + c;
    var k, s := y / 0x1_0000_0000_0000_0000, y % 0x1_0000_0000_0000_0000;
    QuotientIs(x, q, r);
    QuotientIs(y, k, s);
    QuotientIs(31 * x + c, 31 * q + k, s);
  }

  /** The hash with wrapping arithmetic is the key read to the base 31, modulo 2^64. */
  lemma {:induction false} KeyHashIs(key: string)
    ensures KeyHash(key) == Base31(key) % (U64_MAX + 1)
  {
    if key != [] {
      KeyHashIs(key[..|key| - 1]);
      WrappedStep(Base31(key[..|key| - 1]), key[|key| - 1] as int);
    }
  }
}
