/** The finalizer itself: one call, its effects in the program's order, proved to be a run of the
    publication steps, so that what is proved of every run holds of every sequence of calls. */
module Finalizer {
  import opened Options
  import opened StateKeys
  import opened Disclosure

  datatype DisclosureClaim = MayPublish(recovering: bool) | AlreadyPublished(url: Option<string>)

  datatype Error = Cancelled | HistoryUnknown | LifecycleUnknown | PublishFailed | SyncFailed | ReceiptLost

  datatype Mode = LocalReport | PrComment | SyncPr | Hybrid

  datatype Route = ToLocal | ToNobody | ToPrReview | ToSyncPr

  /** What the artifact and the policy say about one review. */
  datatype Facts = Facts(
    incomplete: bool,
    accepted: nat,          // findings approved for the pull request
    alreadyReported: nat,
    verifierFailed: bool,
    commentsAllowed: bool,
    confirmedElsewhere: nat, // confirmed findings the pull request did not introduce
    security: bool)

  /** How the world answers one finalization. */
  datatype Weather = Weather(
    cancelled: bool,
    history: bool,            // the discussion could be read
    open: Option<bool>,       // the live lifecycle check
    published: bool,          // the forge acknowledged the post
    landed: bool,             // the post exists even though it was not acknowledged
    sync: Option<string>,     // the sync pull request, if it could be made
    recorded: bool,           // the receipt write was acknowledged
    committed: bool)          // the receipt exists even though the write was not acknowledged

  /** A review goes to the pull request exactly when it is complete, comments are allowed, the mode
      can post there, and there is a finding to publish or an empty result to announce; and to the
      sync repository exactly when the mode asks for it and there is something to say, or a hybrid
      security review confirmed findings elsewhere and has none to publish here. */
  function StructuredRoute(f: Facts, mode: Mode, notifyOnEmpty: bool): (r: Route)
    ensures r.ToPrReview? <==>
              && !f.incomplete && f.commentsAllowed && (mode.PrComment? || mode.Hybrid?)
              && (f.accepted == 0 ==> f.alreadyReported == 0)
              && (mode.Hybrid? ==> !f.verifierFailed && (f.accepted > 0 || !f.security || f.confirmedElsewhere == 0))
              && ((f.accepted > 0 && !f.verifierFailed) || notifyOnEmpty)
    ensures r.ToSyncPr? <==>
              && !f.incomplete
              && ((mode.SyncPr? && ((f.accepted > 0 && !f.verifierFailed) || notifyOnEmpty))
                  || (mode.Hybrid? && f.security && f.confirmedElsewhere > 0 && !f.verifierFailed
                      && (f.accepted == 0 ==> f.alreadyReported == 0) && !(f.accepted > 0 && f.commentsAllowed)))
    ensures r.ToLocal? <==> mode.LocalReport?
    ensures f.accepted == 0 && f.alreadyReported > 0 && !mode.SyncPr? ==> !r.ToPrReview? && !r.ToSyncPr?
  {
    var duplicateOnly := f.accepted == 0 && f.alreadyReported > 0;
    var found := f.accepted > 0 && !f.verifierFailed;
    if f.incomplete && !mode.LocalReport? then ToNobody
    else
      match mode
      case LocalReport => ToLocal
      case PrComment =>
        if duplicateOnly || (!found && !notifyOnEmpty) || !f.commentsAllowed then ToNobody else ToPrReview
      case SyncPr => if !found && !notifyOnEmpty then ToNobody else ToSyncPr
      case Hybrid =>
        if f.verifierFailed || duplicateOnly then ToNobody
        else if f.accepted > 0 && f.commentsAllowed then ToPrReview
        else if f.security && f.confirmedElsewhere > 0 then ToSyncPr
        else if notifyOnEmpty && f.commentsAllowed then ToPrReview
        else ToNobody
  }

  class DisclosureJournal {
    var entries: map<string, Entry>

    method BeginDisclosure(k: Key) returns (claim: DisclosureClaim)
      modifies this
      ensures var key := DisclosureStateKey(k);
              && (key !in old(entries) ==> claim == MayPublish(false) && entries == old(entries)[key := Publishing])
              && (key in old(entries) ==> entries == old(entries))
              && (key in old(entries) && old(entries)[key].Publishing? ==> claim == MayPublish(true))
              && (key in old(entries) && old(entries)[key].Published? ==>
                    claim == AlreadyPublished(old(entries)[key].url))
    {
      var key := DisclosureStateKey(k);
      if key in entries {
        match entries[key]
        case Published(url) => claim := AlreadyPublished(url);
        case Publishing => claim := MayPublish(true);
      } else {
        entries := entries[key := Publishing];
        claim := MayPublish(false);
      }
    }

    method FinishDisclosure(k: Key, url: Option<string>)
      modifies this
      ensures entries == old(entries)[DisclosureStateKey(k) := Published(url)]
    {
      entries := entries[DisclosureStateKey(k) := Published(url)];
    }
  }

  class Forge {
    var posts: seq<Post>

    method PublishReview(k: Key, text: string, url: string)
      modifies this
      ensures posts == old(posts) + [Own(k, text, url)]
    {
      var marker := DisclosureMarker(k);
      posts := posts + [Post(k.repo, k.pr, true, text + "\n\n" + marker, url, Some(k))];
    }
  }

  /** One pass over the comments, or over the reviews. */
  method FirstMarked(f: Forge, k: Key, review: bool) returns (r: Option<Post>)
    ensures r == FirstOf(f.posts, k, review)
  {
    var i := 0;
    while i < |f.posts|
      invariant i <= |f.posts| && FirstOf(f.posts, k, review) == FirstOf(f.posts[i..], k, review)
    {
      if f.posts[i].review == review && IsMarked(f.posts[i], k) {
        return Some(f.posts[i]);
      }
      assert f.posts[i..][1..] == f.posts[i + 1..];
      i := i + 1;
    }
    r := None;
  }

  /** Scans the discussion for the marker; an unreadable history stops only a recovery. */
  method FindExistingDisclosure(f: Forge, k: Key, recovering: bool, history: bool)
    returns (r: Result<Option<string>, Error>)
    ensures history ==>
              var found := FindMarked(f.posts, k);
              r == Ok(if found.Some? then Some(found.value.url) else None)
    ensures !history ==> r == if recovering then Err(HistoryUnknown) else Ok(None)
  {
    if !history {
      return if recovering then Err(HistoryUnknown) else Ok(None);
    }
    var found := FirstMarked(f, k, false);
    if found.None? {
      found := FirstMarked(f, k, true);
    }
    r := Ok(if found.Some? then Some(found.value.url) else None);
  }

  ghost predicate Trace(s: World, es: seq<Step>, t: World) {
    LegalSerial(s, es) && Legal(s, es) && Exec(s, es) == t
  }

  lemma {:induction false} TraceNext(s: World, es: seq<Step>, t: World, e: Step)
    requires Trace(s, es, t) && Enabled(t, e) && Serial(t, e)
    ensures Trace(s, es + [e], Apply(t, e))
    decreases |es|
  {
    if es == [] {
      assert (es + [e])[1..] == [];
      assert LegalSerial(Apply(s, e), []) && Exec(Apply(s, e), []) == Apply(s, e);
    } else {
      assert (es + [e])[1..] == es[1..] + [e];
      TraceNext(Apply(s, es[0]), es[1..], t, e);
    }
  }

  ghost function Working(journal: map<string, Entry>, posts: seq<Post>, k: Key, stage: Stage): World {
    World(journal, posts, map[0 := Work(k, stage)])
  }

  lemma WorkingMoves(journal: map<string, Entry>, posts: seq<Post>, k: Key, stage: Stage)
    ensures Leave(Working(journal, posts, k, stage), 0) == World(journal, posts, map[])
    ensures forall next :: Move(Working(journal, posts, k, stage), 0, next) == Working(journal, posts, k, next)
  {
    assert map[0 := Work(k, stage)] - {0} == map[];
    forall next
      ensures Move(Working(journal, posts, k, stage), 0, next) == Working(journal, posts, k, next)
    {
      assert map[0 := Work(k, stage)][0 := Work(k, next)] == map[0 := Work(k, next)];
    }
  }

  /** The steps take a claimed key to a receipt, or give it up. */
  ghost predicate Leads(j: map<string, Entry>, k: Key, recovering: bool, before: seq<Post>, steps: seq<Step>,
                        after: seq<Post>, r: Result<Option<string>, Error>) {
    Trace(Working(j, before, k, Claimed(recovering)), steps,
          if r.Ok? then Working(j, after, k, Settled(r.value)) else World(j, after, map[]))
  }

  /** What the pull request route answers, and what it leaves of the discussion: the address of the
      post that was found, else nothing if the pull request is closed, else the address of the one
      post it makes. */
  ghost predicate PrAnswer(k: Key, recovering: bool, text: string, url: string, env: Weather, before: seq<Post>,
                           r: Result<Option<string>, Error>, after: seq<Post>) {
    if env.history && FindMarked(before, k).Some? then
      r == Ok(Some(FindMarked(before, k).value.url)) && after == before
    else if !env.history && recovering then r == Err(HistoryUnknown) && after == before
    else if env.open.None? then r == Err(LifecycleUnknown) && after == before
    else if !env.open.value then r == Ok(None) && after == before
    else
      && r == (if env.published then Ok(Some(url)) else Err(PublishFailed))
      && after == before + if env.published || env.landed then [Own(k, text, url)] else []
  }

  /** The pull request route: search, check the lifecycle, post. */
  method PostPrReview(j: DisclosureJournal, f: Forge, k: Key, recovering: bool, text: string, url: string, env: Weather)
    returns (r: Result<Option<string>, Error>, ghost steps: seq<Step>)
    modifies f
    ensures Leads(j.entries, k, recovering, old(f.posts), steps, f.posts, r)
    ensures f.posts != old(f.posts) ==> env.open == Some(true)
    ensures env.history && env.open.Some? && env.published ==> r.Ok?
    ensures r.Ok? && env.open == Some(true) && FindMarked(old(f.posts), k).None? ==>
              f.posts == old(f.posts) + [Own(k, text, url)]
    ensures PrAnswer(k, recovering, text, url, env, old(f.posts), r, f.posts)
  {
    ghost var s0 := Working(j.entries, f.posts, k, Claimed(recovering));
    steps := [];
    assert Trace(s0, [], s0);
    var existing := FindExistingDisclosure(f, k, recovering, env.history);
    TraceNext(s0, [], s0, Search(0, env.history));
    steps := [] + [Search(0, env.history)];
    WorkingMoves(j.entries, f.posts, k, Claimed(recovering));
    if existing.Err? || existing.value.Some? {
      return existing, steps;
    }
    ghost var s1 := Working(j.entries, f.posts, k, NotFound);
    WorkingMoves(j.entries, f.posts, k, NotFound);
    TraceNext(s0, steps, s1, Lifecycle(0, env.open));
    steps := steps + [Lifecycle(0, env.open)];
    if env.open.None? {
      return Err(LifecycleUnknown), steps;
    }
    if !env.open.value {
      return Ok(None), steps;
    }
    ghost var s2 := Working(j.entries, f.posts, k, Allowed);
    ghost var post := if env.published then Publish(0, text, url) else PublishLost(0, text, url, env.landed);
    TraceNext(s0, steps, s2, post);
    steps := steps + [post];
    if env.published || env.landed {
      f.PublishReview(k, text, url);
    }
    WorkingMoves(j.entries, f.posts, k, Allowed);
    r := if env.published then Ok(Some(url)) else Err(PublishFailed);
  }

  lemma {:induction false} TraceJoin(s: World, es: seq<Step>, t: World, es': seq<Step>, u: World)
    requires Trace(s, es, t) && Trace(t, es', u)
    ensures Trace(s, es + es', u)
    decreases |es|
  {
    if es == [] {
      assert es + es' == es';
    } else {
      assert (es + es')[1..] == es[1..] + es';
      TraceJoin(Apply(s, es[0]), es[1..], t, es', u);
    }
  }

  /** What each route answers: the report's own path, nothing, the address of the sync pull request,
      or what the pull request route answers; only that one can change the discussion. */
  ghost predicate Answered(route: Route, k: Key, recovering: bool, report: string, text: string, url: string,
                           env: Weather, before: seq<Post>, r: Result<Option<string>, Error>, after: seq<Post>) {
    match route
    case ToLocal => r == Ok(Some(report)) && after == before
    case ToNobody => r == Ok(None) && after == before
    case ToSyncPr => r == (if env.sync.Some? then Ok(env.sync) else Err(SyncFailed)) && after == before
    case ToPrReview => PrAnswer(k, recovering, text, url, env, before, r, after)
  }

  /** On the pull request route a receipt with an address is that of a post that carries the marker,
      and one without means that the pull request is closed and no marker was seen. */
  lemma ReceiptIsThePost(k: Key, recovering: bool, text: string, url: string, env: Weather, before: seq<Post>,
                         r: Result<Option<string>, Error>, after: seq<Post>)
    requires PrAnswer(k, recovering, text, url, env, before, r, after)
    ensures r.Ok? && r.value.Some? ==>
              exists i :: 0 <= i < |after| && IsMarked(after[i], k) && after[i].url == r.value.value
    ensures r == Ok(None) ==>
              env.open == Some(false) && after == before && (env.history ==> FindMarked(before, k).None?)
    ensures after != before ==>
              && after != [] && after[..|after| - 1] == before
              && after[|after| - 1].review && text <= after[|after| - 1].body
    ensures PostsBy(after, k) <= PostsBy(before, k) + 1
    ensures env.history && FindMarked(before, k).Some? ==> PostsBy(after, k) == PostsBy(before, k)
  {
    hide IsMarked, FindMarked, PostsBy, Own;
    if after == before {
      SearchFindsFirst(before, k);
      assert FindMarked(before, k).Some? ==>
          exists i: nat :: IsFirstMarked(before, k, i) && before[i].url == FindMarked(before, k).value.url;
    } else {
      OwnIsMarked(before, k, text, url);
    }
  }

  lemma OwnIsMarked(posts: seq<Post>, k: Key, text: string, url: string)
    ensures var all := posts + [Own(k, text, url)];
            && all[|posts|].url == url && all[|posts|].review && text <= all[|posts|].body && IsMarked(all[|posts|], k)
            && PostsBy(all, k) == PostsBy(posts, k) + 1
  {
    CountsOfAppend(posts, Own(k, text, url), k);
    BodyIsMarked(text, k);
  }

  /** `handle_structured_disclosure_idempotent`: the route, then its effect. */
  method Disclose(j: DisclosureJournal, f: Forge, k: Key, recovering: bool, route: Route,
                  report: string, text: string, url: string, env: Weather)
    returns (r: Result<Option<string>, Error>, ghost steps: seq<Step>)
    modifies f
    ensures Leads(j.entries, k, recovering, old(f.posts), steps, f.posts, r)
    ensures f.posts != old(f.posts) ==> route.ToPrReview? && env.open == Some(true)
    ensures env.history && env.open.Some? && env.published && env.sync.Some? ==> r.Ok?
    ensures r.Ok? && route.ToPrReview? && env.open == Some(true) && FindMarked(old(f.posts), k).None? ==>
              f.posts == old(f.posts) + [Own(k, text, url)]
    ensures Answered(route, k, recovering, report, text, url, env, old(f.posts), r, f.posts)
  {
    if route.ToPrReview? {
      r, steps := PostPrReview(j, f, k, recovering, text, url, env);
      return;
    }
    ghost var s := Working(j.entries, f.posts, k, Claimed(recovering));
    WorkingMoves(j.entries, f.posts, k, Claimed(recovering));
    assert Trace(s, [], s);
    if route.ToSyncPr? && env.sync.None? {
      TraceNext(s, [], s, Stop(0));
      return Err(SyncFailed), [] + [Stop(0)];
    }
    var sent := if route.ToLocal? then Some(report) else if route.ToSyncPr? then env.sync else None;
    TraceNext(s, [], s, NoPost(0, sent));
    r, steps := Ok(sent), [] + [NoPost(0, sent)];
  }

  /** What becomes of an answer: an error leaves the key open, a receipt is journaled if its write
      lands and returned if that write is acknowledged. */
  predicate Receipted(key: string, d: Result<Option<string>, Error>, env: Weather, before: map<string, Entry>,
                      r: Result<Option<string>, Error>, after: map<string, Entry>) {
    if d.Err? then r == d && after == before[key := Publishing]
    else
      && r == (if env.recorded then d else Err(ReceiptLost))
      && after == before[key := if env.recorded || env.committed then Published(d.value) else Publishing]
  }

  /** `finish_disclosure`, if there is a receipt to keep. */
  method KeepReceipt(j: DisclosureJournal, f: Forge, k: Key, d: Result<Option<string>, Error>, env: Weather)
    returns (r: Result<Option<string>, Error>, ghost steps: seq<Step>)
    requires DisclosureStateKey(k) in j.entries && j.entries[DisclosureStateKey(k)].Publishing?
    modifies j
    ensures Trace(if d.Ok? then Working(old(j.entries), f.posts, k, Settled(d.value))
                  else World(old(j.entries), f.posts, map[]),
                  steps, World(j.entries, f.posts, map[]))
    ensures Receipted(DisclosureStateKey(k), d, env, old(j.entries), r, j.entries)
  {
    if d.Err? {
      assert j.entries == j.entries[DisclosureStateKey(k) := Publishing];
      return d, [];
    }
    ghost var s := Working(j.entries, f.posts, k, Settled(d.value));
    ghost var done := Finish(0, env.recorded || env.committed);
    WorkingMoves(j.entries, f.posts, k, Settled(d.value));
    assert Trace(s, [], s);
    TraceNext(s, [], s, done);
    steps := [] + [done];
    if env.recorded || env.committed {
      j.FinishDisclosure(k, d.value);
    } else {
      assert j.entries == j.entries[DisclosureStateKey(k) := Publishing];
    }
    r := if env.recorded then d else Err(ReceiptLost);
  }

  /** The arm of a key that may be published: the disclosure, then its receipt. */
  method PublishClaimed(j: DisclosureJournal, f: Forge, k: Key, recovering: bool, route: Route,
                        report: string, text: string, url: string, env: Weather)
    returns (r: Result<Option<string>, Error>, ghost d: Result<Option<string>, Error>, ghost steps: seq<Step>)
    requires DisclosureStateKey(k) in j.entries && j.entries[DisclosureStateKey(k)].Publishing?
    modifies j, f
    ensures Trace(Working(old(j.entries), old(f.posts), k, Claimed(recovering)), steps,
                  World(j.entries, f.posts, map[]))
    ensures Answered(route, k, recovering, report, text, url, env, old(f.posts), d, f.posts)
    ensures Receipted(DisclosureStateKey(k), d, env, old(j.entries), r, j.entries)
  {
    hide *;
    ghost var s := Working(j.entries, f.posts, k, Claimed(recovering));
    var answer, first := Disclose(j, f, k, recovering, route, report, text, url, env);
    LeadsIs(j.entries, k, recovering, old(f.posts), first, f.posts, answer);
    d := answer;
    ghost var t := if d.Ok? then Working(j.entries, f.posts, k, Settled(d.value)) else World(j.entries, f.posts, map[]);
    var kept, more := KeepReceipt(j, f, k, answer, env);
    TraceJoin(s, first, t, more, World(j.entries, f.posts, map[]));
    r, steps := kept, first + more;
  }

  lemma LeadsIs(j: map<string, Entry>, k: Key, recovering: bool, before: seq<Post>, steps: seq<Step>,
                after: seq<Post>, r: Result<Option<string>, Error>)
    requires Leads(j, k, recovering, before, steps, after, r)
    ensures Trace(Working(j, before, k, Claimed(recovering)), steps,
                  if r.Ok? then Working(j, after, k, Settled(r.value)) else World(j, after, map[]))
  {
  }

  /** When all is acknowledged there is a receipt; a receipt is journaled; and only the pull request
      route can have posted, while the pull request was open. */
  lemma AnswerMeans(route: Route, k: Key, recovering: bool, report: string, text: string, url: string, env: Weather,
                    before: seq<Post>, d: Result<Option<string>, Error>, after: seq<Post>, key: string,
                    entries: map<string, Entry>, r: Result<Option<string>, Error>, entries': map<string, Entry>)
    requires Answered(route, k, recovering, report, text, url, env, before, d, after)
    requires Receipted(key, d, env, entries, r, entries')
    ensures r.Ok? ==> key in entries' && entries'[key] == Published(r.value)
    ensures after != before ==> route.ToPrReview? && env.open == Some(true)
    ensures env.history && env.open.Some? && env.published && env.sync.Some? && env.recorded ==> r.Ok?
    ensures r.Ok? && route.ToPrReview? && env.open == Some(true) && FindMarked(before, k).None? ==>
              after == before + [Own(k, text, url)]
  {
    hide FindMarked, Own;
  }

  /** Taking up a key as a step. */
  lemma BeginTraces(entries: map<string, Entry>, posts: seq<Post>, k: Key)
    ensures var s, key := World(entries, posts, map[]), DisclosureStateKey(k);
            if key in entries && entries[key].Published? then Trace(s, [Begin(0, k)], s)
            else
              && Trace(s, [Begin(0, k)], Working(entries[key := Publishing], posts, k, Claimed(key in entries)))
              && (key in entries ==> entries[key := Publishing] == entries)
  {
    var s := World(entries, posts, map[]);
    assert Trace(s, [], s);
    TraceNext(s, [], s, Begin(0, k));
    assert [] + [Begin(0, k)] == [Begin(0, k)];
  }

  /** One finalization. Whatever the answers, its effects are a serial run of the publication
      steps; it succeeds exactly with the receipt the journal then holds; it reuses an earlier
      receipt without touching anything; and it posts only on the pull request route while the pull
      request is open, and then does post unless the marker is already there. */
  method Finalize(j: DisclosureJournal, f: Forge, k: Key, facts: Facts, mode: Mode, notifyOnEmpty: bool,
                  report: string, text: string, url: string, env: Weather)
    returns (r: Result<Option<string>, Error>, ghost steps: seq<Step>)
    modifies j, f
    ensures Trace(World(old(j.entries), old(f.posts), map[]), steps, World(j.entries, f.posts, map[]))
    ensures r.Ok? ==> DisclosureStateKey(k) in j.entries && j.entries[DisclosureStateKey(k)] == Published(r.value)
    ensures f.posts != old(f.posts) ==>
              StructuredRoute(facts, mode, notifyOnEmpty).ToPrReview? && env.open == Some(true)
    ensures var key := DisclosureStateKey(k);
            !env.cancelled && key in old(j.entries) && old(j.entries)[key].Published? ==>
              r == Ok(old(j.entries)[key].url) && j.entries == old(j.entries) && f.posts == old(f.posts)
    ensures !env.cancelled && env.history && env.open.Some? && env.published && env.sync.Some? && env.recorded ==> r.Ok?
    ensures var key := DisclosureStateKey(k);
            r.Ok? && StructuredRoute(facts, mode, notifyOnEmpty).ToPrReview? && env.open == Some(true)
            && (key in old(j.entries) ==> old(j.entries)[key].Publishing?) && FindMarked(old(f.posts), k).None? ==>
              f.posts == old(f.posts) + [Own(k, text, url)]
    ensures env.cancelled ==> r == Err(Cancelled) && j.entries == old(j.entries) && f.posts == old(f.posts)
    ensures var key := DisclosureStateKey(k);
            !env.cancelled && (key in old(j.entries) ==> old(j.entries)[key].Publishing?) ==>
              exists d :: Answered(StructuredRoute(facts, mode, notifyOnEmpty), k, key in old(j.entries), report,
                                   text, url, env, old(f.posts), d, f.posts)
                          && Receipted(key, d, env, old(j.entries), r, j.entries)
  {
    ghost var s0, key := World(j.entries, f.posts, map[]), DisclosureStateKey(k);
    if env.cancelled {
      assert Trace(s0, [], s0);
      return Err(Cancelled), [];
    }
    var route := StructuredRoute(facts, mode, notifyOnEmpty);
    BeginTraces(j.entries, f.posts, k);
    hide *;
    var claim := j.BeginDisclosure(k);
    steps := [Begin(0, k)];
    if claim.AlreadyPublished? {
      return Ok(claim.url), steps;
    }
    ghost var d, more;
    r, d, more := PublishClaimed(j, f, k, claim.recovering, route, report, text, url, env);
    TraceJoin(s0, steps, Working(old(j.entries)[key := Publishing], old(f.posts), k, Claimed(claim.recovering)), more,
              World(j.entries, f.posts, map[]));
    steps := steps + more;
    ReceiptedSince(key, d, env, old(j.entries), r, j.entries);
    AnswerMeans(route, k, claim.recovering, report, text, url, env, old(f.posts), d, f.posts,
                key, old(j.entries), r, j.entries);
  }

  lemma ReceiptedSince(key: string, d: Result<Option<string>, Error>, env: Weather, before: map<string, Entry>,
                       r: Result<Option<string>, Error>, after: map<string, Entry>)
    requires Receipted(key, d, env, before[key := Publishing], r, after)
    ensures Receipted(key, d, env, before, r, after)
  {
    var e := if d.Ok? && (env.recorded || env.committed) then Published(d.value) else Publishing;
    assert before[key := Publishing][key := e] == before[key := e];
  }
}
