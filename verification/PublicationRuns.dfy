/** Reviews and their publications together, for one review key: attempts claim the record, and only an
    attempt that is still out runs a finalizer, which posts through the journal. If no attempt is out
    for longer than the stale window, finalizers never overlap, and each publication key gets at most
    one post; with any longer deadline it can get two. */
module PublicationRuns {
  import opened Options
  import opened Text
  import opened StateKeys
  import opened ReviewState
  import opened ReviewRuns
  import ReviewDeadlines
  import Disclosure

  /** Finalizer `w` is that of attempt `w`. */
  datatype Both = Both(run: Run, world: Disclosure.World)

  datatype Move = Review(e: Event) | Act(step: Disclosure.Step, now: int)

  function When(m: Move): int {
    match m
    case Review(e) => e.now
    case Act(_, now) => now
  }

  /** The publication keys of the review key that `k` belongs to: any commit, any scope. */
  predicate SameReview(k: Key, k': Key) {
    k.repo == k'.repo && k.pr == k'.pr && k.kind == k'.kind
  }

  predicate IsOut(s: Both, w: nat, now: int, d: nat) {
    Open(s.run, w) && now - s.run.attempts[w].claimedAt <= d
  }

  /** No finalizer is still at work past the deadline of its attempt. */
  predicate OnTime(s: Both, now: int, d: nat) {
    forall w :: w in s.world.workers ==> IsOut(s, w, now, d)
  }

  /** A review event reports in time and after its finalizer is done; a finalizer step is taken by an
      attempt that is out, for its own commit; a restart stops everything. */
  predicate Enabled(k: Key, d: nat, s: Both, m: Move) {
    && s.run.clock <= When(m)
    && OnTime(s, When(m), d)
    && match m
       case Review(e) =>
         && ReviewRuns.Enabled(s.run, e) && Scheduled(s.run, e) && ReviewDeadlines.Within(d, s.run, e)
         && ((e.Finish? || e.Fail?) ==> e.attempt !in s.world.workers)
       case Act(step, now) =>
         && Disclosure.Enabled(s.world, step) && !step.Crash?
         && (Disclosure.Worker(step).Some? ==> IsOut(s, Disclosure.Worker(step).value, now, d))
         && (step.Begin? ==> SameReview(k, step.key) && step.key.commit == s.run.attempts[step.w].commit)
  }

  function Apply(c: Config, k: Key, d: nat, s: Both, m: Move): Both
    requires Enabled(k, d, s, m)
  {
    match m
    case Review(e) =>
      Both(Step(c, s.run, e), if e.Restart? then Disclosure.Apply(s.world, Disclosure.Crash) else s.world)
    case Act(step, now) => Both(s.run.(clock := now), Disclosure.Apply(s.world, step))
  }

  predicate Legal(c: Config, k: Key, d: nat, s: Both, ms: seq<Move>)
    decreases |ms|
  {
    ms == [] || (Enabled(k, d, s, ms[0]) && Legal(c, k, d, Apply(c, k, d, s, ms[0]), ms[1..]))
  }

  function Exec(c: Config, k: Key, d: nat, s: Both, ms: seq<Move>): Both
    requires Legal(c, k, d, s, ms)
    decreases |ms|
  {
    if ms == [] then s else Exec(c, k, d, Apply(c, k, d, s, ms[0]), ms[1..])
  }

  // ---------------------------------------------------------------- finalizers do not overlap

  ghost predicate Inv(c: Config, s: Both) {
    TimelyInv(c, s.run) && Disclosure.Inv(s.world) && forall w :: w in s.world.workers ==> Open(s.run, w)
  }

  /** Of two attempts, at most one is out: the earlier one's claim is stale. */
  lemma OneIsOut(c: Config, s: Run, v: nat, w: nat, now: int, d: nat)
    requires TimelyInv(c, s) && d <= c.stale && s.clock <= now
    requires Open(s, v) && now - s.attempts[v].claimedAt <= d
    requires Open(s, w) && now - s.attempts[w].claimedAt <= d
    ensures v == w
  {
    assert !Expired(c, s, v) && !Expired(c, s, w);
    assert Holds(s, v) && Holds(s, w);
  }

  /** So a finalizer begins only when no other one is at work. */
  lemma BeginIsSerial(c: Config, k: Key, d: nat, s: Both, m: Move)
    requires Inv(c, s) && Enabled(k, d, s, m) && d <= c.stale && m.Act?
    ensures Disclosure.Serial(s.world, m.step)
  {
    if m.step.Begin? {
      forall w | w in s.world.workers
        ensures w == m.step.w
      {
        OneIsOut(c, s.run, w, m.step.w, m.now, d);
      }
    }
  }

  lemma ActKeeps(c: Config, k: Key, d: nat, s: Both, m: Move)
    requires Inv(c, s) && Enabled(k, d, s, m) && d <= c.stale && m.Act?
    ensures Inv(c, Apply(c, k, d, s, m))
  {
    BeginIsSerial(c, k, d, s, m);
    Disclosure.InvStep(s.world, m.step);
    RefusedStep(c, s.run, m.now);
    WorkersOf(s.world, m.step);
    var t := Apply(c, k, d, s, m);
    forall w | w in t.world.workers
      ensures Open(t.run, w)
    {
      assert Open(s.run, w);
    }
  }

  /** A step adds no worker but its own. */
  lemma WorkersOf(s: Disclosure.World, e: Disclosure.Step)
    requires Disclosure.Enabled(s, e)
    ensures forall w :: w in Disclosure.Apply(s, e).workers ==> w in s.workers || Disclosure.Worker(e) == Some(w)
  {
  }

  lemma ReviewKeeps(c: Config, k: Key, d: nat, s: Both, m: Move)
    requires ValidConfig(c) && Inv(c, s) && Enabled(k, d, s, m) && d <= c.stale && m.Review?
    ensures Inv(c, Apply(c, k, d, s, m))
  {
    TimelyStep(c, s.run, m.e);
    Disclosure.InvStep(s.world, Disclosure.Crash);
    var t := Apply(c, k, d, s, m);
    forall w | w in t.world.workers
      ensures Open(t.run, w)
    {
      assert Open(s.run, w);
      StaysOpen(c, s.run, m.e, w);
    }
  }

  lemma StaysOpen(c: Config, s: Run, e: Event, w: nat)
    requires ReviewRuns.Enabled(s, e) && Open(s, w) && !e.Restart? && (e.Finish? || e.Fail? ==> e.attempt != w)
    ensures Open(Step(c, s, e), w)
  {
  }

  lemma {:induction false} InvOverRuns(c: Config, k: Key, d: nat, s: Both, ms: seq<Move>)
    requires ValidConfig(c) && Inv(c, s) && Legal(c, k, d, s, ms) && d <= c.stale
    ensures Inv(c, Exec(c, k, d, s, ms))
    decreases |ms|
  {
    if ms != [] {
      if ms[0].Act? {
        ActKeeps(c, k, d, s, ms[0]);
      } else {
        ReviewKeeps(c, k, d, s, ms[0]);
      }
      InvOverRuns(c, k, d, Apply(c, k, d, s, ms[0]), ms[1..]);
    }
  }

  const EMPTY := Disclosure.World(map[], [], map[])

  function Start(clock: int): Both {
    Both(Begin(None, clock), EMPTY)
  }

  lemma EmptyIsOk()
    ensures Disclosure.Inv(EMPTY)
  {
  }

  // ---------------------------------------------------------------- overlapping finalizers

  ghost predicate Leads(c: Config, k: Key, d: nat, s: Both, ms: seq<Move>, t: Both) {
    Legal(c, k, d, s, ms) && Exec(c, k, d, s, ms) == t
  }

  lemma {:induction false} LeadsJoin(c: Config, k: Key, d: nat, s: Both, ms: seq<Move>, t: Both, ns: seq<Move>, u: Both)
    requires Leads(c, k, d, s, ms, t) && Leads(c, k, d, t, ns, u)
    ensures Leads(c, k, d, s, ms + ns, u)
    decreases |ms|
  {
    if ms == [] {
      assert ms + ns == ns;
    } else {
      assert (ms + ns)[1..] == ms[1..] + ns;
      LeadsJoin(c, k, d, Apply(c, k, d, s, ms[0]), ms[1..], t, ns, u);
    }
  }

  lemma LeadsOnce(c: Config, k: Key, d: nat, s: Both, m: Move)
    requires Enabled(k, d, s, m)
    ensures Leads(c, k, d, s, [m], Apply(c, k, d, s, m))
  {
    assert [m][1..] == [];
  }

  /** A manual review that has outlived its claim and the review that a newer mention started: both out. */
  predicate BothOut(s: Run, k: Key, now: int, d: nat) {
    && s.clock == now && |s.attempts| == 2
    && forall i :: 0 <= i < 2 ==>
         s.attempts[i].open && s.attempts[i].commit == k.commit && now - s.attempts[i].claimedAt <= d
  }

  lemma TwoComeOut(c: Config, k: Key, d: nat) returns (ms: seq<Move>, t: Both)
    requires c.stale < U64_MAX && d > c.stale
    ensures Leads(c, k, d, Start(0), ms, t) && t.world == EMPTY && BothOut(t.run, k, c.stale + 1, d)
  {
    var now := c.stale + 1;
    var m1, m2 := Review(Try(Manual, None, k.commit, 0)), Review(Try(Poll, Some(now), k.commit, now));
    var s1 := Apply(c, k, d, Start(0), m1);
    assert s1.run.rec == Some(Fresh(k.commit, InProgress, 0, 0));
    assert s1.run.attempts == [Attempt(k.commit, Pending, 0, 0, true, false)];
    AgeBelow(now);
    t := Apply(c, k, d, s1, m2);
    assert t.run.attempts == s1.run.attempts + [Attempt(k.commit, Head(k.commit), now, 0, true, true)];
    LeadsOnce(c, k, d, Start(0), m1);
    LeadsOnce(c, k, d, s1, m2);
    LeadsJoin(c, k, d, Start(0), [m1], s1, [m2], t);
    ms := [m1] + [m2];
  }

  /** While both are out, whatever two finalizers can do, theirs can. */
  lemma {:induction false} PairActs(c: Config, k: Key, d: nat, s: Both, now: int, es: seq<Disclosure.Step>)
    returns (ms: seq<Move>)
    requires BothOut(s.run, k, now, d) && (forall w :: w in s.world.workers ==> w < 2)
    requires Disclosure.PairSteps(es, k) && Disclosure.Legal(s.world, es)
    ensures Leads(c, k, d, s, ms, Both(s.run, Disclosure.Exec(s.world, es)))
    decreases |es|
  {
    if es == [] {
      ms := [];
    } else {
      var m := Act(es[0], now);
      assert Disclosure.PairStep(es[0], k);
      WorkersOf(s.world, es[0]);
      var t := Apply(c, k, d, s, m);
      var rest := PairActs(c, k, d, t, now, es[1..]);
      ms := [m] + rest;
      assert ms[1..] == rest;
    }
  }

  lemma OverlapPostsTwice(c: Config, k: Key, d: nat) returns (ms: seq<Move>, t: Both)
    requires c.stale < U64_MAX && d > c.stale
    ensures Leads(c, k, d, Start(0), ms, t) && Disclosure.PostsBy(t.world.posts, k) == 2
  {
    var init, s := TwoComeOut(c, k, d);
    Disclosure.OverlapPostsTwice(k);
    var w :| Disclosure.Reachable(k, EMPTY, w) && Disclosure.PostsBy(w.posts, k) == 2;
    var es :| Disclosure.PairSteps(es, k) && Disclosure.Legal(EMPTY, es) && Disclosure.Exec(EMPTY, es) == w;
    var acts := PairActs(c, k, d, s, c.stale + 1, es);
    t := Both(s.run, w);
    LeadsJoin(c, k, d, Start(0), init, s, acts, t);
    ms := init + acts;
  }

  // ---------------------------------------------------------------- the theorem

  /** Over every run of reviews and finalizers with deadline `d`, no key gets a second post. */
  ghost predicate PostsOnce(c: Config, k: Key, d: nat) {
    forall ms, t :: Leads(c, k, d, Start(0), ms, t) ==> forall k': Key :: Disclosure.PostsBy(t.world.posts, k') <= 1
  }

  /** The review claim keeps publications single exactly when no attempt may be out for longer than
      the stale window. */
  lemma ClaimsKeepPublicationsSingle(c: Config, k: Key, d: nat)
    requires ValidConfig(c) && c.stale < U64_MAX
    ensures PostsOnce(c, k, d) <==> d <= c.stale
  {
    if d <= c.stale {
      forall ms, t | Leads(c, k, d, Start(0), ms, t)
        ensures forall k': Key :: Disclosure.PostsBy(t.world.posts, k') <= 1
      {
        BeginIsTimely(c, None, 0);
        EmptyIsOk();
        InvOverRuns(c, k, d, Start(0), ms);
      }
    } else {
      var ms, t := OverlapPostsTwice(c, k, d);
      assert Disclosure.PostsBy(t.world.posts, k) > 1;
    }
  }
}
