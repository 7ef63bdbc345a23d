/** Publishing a review at most once. Finalizers journal a key before they post under it; a crash or
    an unknown outcome may follow any step, and other finalizers and people post in between. */
module Disclosure {
  import opened Options
  import opened Text
  import opened StateKeys

  datatype Entry = Publishing | Published(url: Option<string>)

  /** A comment or a review; `url` is the address a search answers with, and `author` the key it was made under. */
  datatype Post = Post(repo: string, pr: nat, review: bool, body: string, url: string, author: Option<Key>)

  /** How far a finalizer has come with its key. */
  datatype Stage =
    | Claimed(recovering: bool)
    | NotFound               // no earlier post was found
    | Allowed                // and the pull request is still open
    | Settled(url: Option<string>)

  datatype Work = Work(key: Key, stage: Stage)

  datatype World = World(journal: map<string, Entry>, posts: seq<Post>, workers: map<nat, Work>)

  datatype Step =
    | Begin(w: nat, key: Key)
    | NoPost(w: nat, receipt: Option<string>)              // local report, skip or sync pull request
    | Search(w: nat, answered: bool)                   // `find_existing_disclosure`
    | Lifecycle(w: nat, open: Option<bool>)            // `live_comments_allowed`, or an error
    | Publish(w: nat, text: string, url: string)
    | PublishLost(w: nat, text: string, url: string, landed: bool)
    | Finish(w: nat, landed: bool)
    | Stop(w: nat)
    | Crash
    | Foreign(repo: string, pr: nat, review: bool, body: string, url: string)

  function Body(text: string, k: Key): string {
    text + "\n\n" + Marker(k)
  }

  predicate IsMarked(p: Post, k: Key) {
    p.repo == k.repo && p.pr == k.pr && Contains(p.body, Marker(k))
  }

  /** The first comment, or the first review, that carries the marker. */
  function FirstOf(posts: seq<Post>, k: Key, review: bool): (r: Option<Post>)
    ensures r.None? <==> forall i :: 0 <= i < |posts| && posts[i].review == review ==> !IsMarked(posts[i], k)
  {
    if posts == [] then None
    else if posts[0].review == review && IsMarked(posts[0], k) then Some(posts[0])
    else FirstOf(posts[1..], k, review)
  }

  /** What a search of the discussion finds: it looks at all comments, then at the reviews. */
  function FindMarked(posts: seq<Post>, k: Key): (r: Option<Post>)
    ensures r.None? <==> forall i :: 0 <= i < |posts| ==> !IsMarked(posts[i], k)
  {
    if FirstOf(posts, k, false).Some? then FirstOf(posts, k, false) else FirstOf(posts, k, true)
  }

  /** Post `i` is the first marked comment, or the first marked review when no comment is marked. */
  predicate IsFirstMarked(posts: seq<Post>, k: Key, i: nat) {
    && i < |posts| && IsMarked(posts[i], k)
    && forall j :: 0 <= j < |posts| && IsMarked(posts[j], k) ==>
         if posts[j].review == posts[i].review then i <= j else !posts[i].review
  }

  lemma {:induction false} FirstOfIs(posts: seq<Post>, k: Key, review: bool) returns (i: nat)
    requires FirstOf(posts, k, review).Some?
    ensures i < |posts| && posts[i] == FirstOf(posts, k, review).value && IsMarked(posts[i], k)
    ensures posts[i].review == review
    ensures forall j :: 0 <= j < i && posts[j].review == review ==> !IsMarked(posts[j], k)
  {
    if posts[0].review == review && IsMarked(posts[0], k) {
      i := 0;
    } else {
      var n := FirstOfIs(posts[1..], k, review);
      i := n + 1;
      assert forall j :: 0 < j < i ==> posts[j] == posts[1..][j - 1];
    }
  }

  /** The search answers with the first marked comment, and with a review only if no comment is marked. */
  lemma SearchFindsFirst(posts: seq<Post>, k: Key)
    ensures var r := FindMarked(posts, k);
            r.Some? ==> exists i: nat :: IsFirstMarked(posts, k, i) && posts[i] == r.value
  {
    if FindMarked(posts, k).Some? {
      var i := FirstOfIs(posts, k, FirstOf(posts, k, false).None?);
      assert IsFirstMarked(posts, k, i);
    }
  }

  predicate AtStage(s: World, w: nat, stage: Stage) {
    w in s.workers && s.workers[w].stage == stage
  }

  predicate Enabled(s: World, e: Step) {
    match e
    case Begin(w, _) => w !in s.workers
    case NoPost(w, _) => w in s.workers && s.workers[w].stage.Claimed?
    case Search(w, _) => w in s.workers && s.workers[w].stage.Claimed?
    case Lifecycle(w, _) => AtStage(s, w, NotFound)
    case Publish(w, _, _) => AtStage(s, w, Allowed)
    case PublishLost(w, _, _, _) => AtStage(s, w, Allowed)
    case Finish(w, _) => w in s.workers && s.workers[w].stage.Settled?
    case Stop(w) => w in s.workers
    case Crash => true
    case Foreign(_, _, _, _, _) => true
  }

  /** Finalizers of one key do not overlap; this is what the review claim is relied on for. */
  predicate Serial(s: World, e: Step) {
    e.Begin? ==> Idle(s, e.key)
  }

  function Move(s: World, w: nat, stage: Stage): World
    requires w in s.workers
  {
    s.(workers := s.workers[w := s.workers[w].(stage := stage)])
  }

  function Leave(s: World, w: nat): World {
    s.(workers := s.workers - {w})
  }

  function Own(k: Key, text: string, url: string): Post {
    Post(k.repo, k.pr, true, Body(text, k), url, Some(k))
  }

  function Apply(s: World, e: Step): World
    requires Enabled(s, e)
  {
    match e
    case Begin(w, k) =>
      var key := DisclosureStateKey(k);
      if key !in s.journal then
        s.(journal := s.journal[key := Publishing], workers := s.workers[w := Work(k, Claimed(false))])
      else if s.journal[key].Publishing? then s.(workers := s.workers[w := Work(k, Claimed(true))])
      else s
    case NoPost(w, url) => Move(s, w, Settled(url))
    case Search(w, answered) =>
      var k, found := s.workers[w].key, FindMarked(s.posts, s.workers[w].key);
      if answered then Move(s, w, if found.Some? then Settled(Some(found.value.url)) else NotFound)
      else if s.workers[w].stage.recovering then Leave(s, w)
      else Move(s, w, NotFound)
    case Lifecycle(w, open) =>
      if open.None? then Leave(s, w) else Move(s, w, if open.value then Allowed else Settled(None))
    case Publish(w, text, url) =>
      Move(s.(posts := s.posts + [Own(s.workers[w].key, text, url)]), w, Settled(Some(url)))
    case PublishLost(w, text, url, landed) =>
      Leave(if landed then s.(posts := s.posts + [Own(s.workers[w].key, text, url)]) else s, w)
    case Finish(w, landed) =>
      var work := s.workers[w];
      var written := s.(journal := s.journal[DisclosureStateKey(work.key) := Published(work.stage.url)]);
      Leave(if landed then written else s, w)
    case Stop(w) => Leave(s, w)
    case Crash => s.(workers := map[])
    case Foreign(repo, pr, review, body, url) => s.(posts := s.posts + [Post(repo, pr, review, body, url, None)])
  }

  predicate Legal(s: World, es: seq<Step>)
    decreases |es|
  {
    es == [] || (Enabled(s, es[0]) && Legal(Apply(s, es[0]), es[1..]))
  }

  predicate LegalSerial(s: World, es: seq<Step>)
    decreases |es|
  {
    es == [] || (Enabled(s, es[0]) && Serial(s, es[0]) && LegalSerial(Apply(s, es[0]), es[1..]))
  }

  function Exec(s: World, es: seq<Step>): World
    requires Legal(s, es)
    decreases |es|
  {
    if es == [] then s else Exec(Apply(s, es[0]), es[1..])
  }

  lemma {:induction false} SerialIsLegal(s: World, es: seq<Step>)
    requires LegalSerial(s, es)
    ensures Legal(s, es)
    decreases |es|
  {
    if es != [] {
      SerialIsLegal(Apply(s, es[0]), es[1..]);
    }
  }

  /** The posts the finalizers themselves made under a key. */
  function PostsBy(posts: seq<Post>, k: Key): nat {
    if posts == [] then 0
    else PostsBy(posts[..|posts| - 1], k) + if posts[|posts| - 1].author == Some(k) then 1 else 0
  }

  /** The posts anyone made that carry a key's marker. */
  function PostsMarked(posts: seq<Post>, k: Key): nat {
    if posts == [] then 0
    else PostsMarked(posts[..|posts| - 1], k) + if Contains(posts[|posts| - 1].body, Marker(k)) then 1 else 0
  }

  lemma CountsOfAppend(posts: seq<Post>, p: Post, k: Key)
    ensures PostsBy(posts + [p], k) == PostsBy(posts, k) + (if p.author == Some(k) then 1 else 0)
    ensures PostsMarked(posts + [p], k) == PostsMarked(posts, k) + (if Contains(p.body, Marker(k)) then 1 else 0)
  {
    assert (posts + [p])[..|posts|] == posts;
  }

  lemma {:induction false} NoneByIfNoneMarked(posts: seq<Post>, k: Key)
    requires forall i :: 0 <= i < |posts| && posts[i].author == Some(k) ==> IsMarked(posts[i], k)
    requires FindMarked(posts, k).None?
    ensures PostsBy(posts, k) == 0
  {
    if posts != [] {
      var rest := posts[..|posts| - 1];
      assert forall i :: 0 <= i < |rest| ==> rest[i] == posts[i];
      NoneByIfNoneMarked(rest, k);
      assert !IsMarked(posts[|posts| - 1], k);
    }
  }

  lemma BodyIsMarked(text: string, k: Key)
    ensures Contains(Body(text, k), Marker(k))
  {
    MarkersAreUnambiguous(text, k, k);
  }

  // ---------------------------------------------------------------- the invariant

  predicate BeforePost(stage: Stage) {
    stage == Claimed(false) || stage.NotFound? || stage.Allowed?
  }

  ghost predicate PostsOk(journal: map<string, Entry>, posts: seq<Post>) {
    && (forall k: Key :: PostsBy(posts, k) <= 1)
    && (forall k: Key :: PostsBy(posts, k) > 0 ==> DisclosureStateKey(k) in journal)
    && (forall i, k: Key :: 0 <= i < |posts| && posts[i].author == Some(k) ==> IsMarked(posts[i], k))
  }

  predicate WorkOk(journal: map<string, Entry>, posts: seq<Post>, work: Work) {
    && DisclosureStateKey(work.key) in journal
    && journal[DisclosureStateKey(work.key)].Publishing?
    && (BeforePost(work.stage) ==> PostsBy(posts, work.key) == 0)
  }

  ghost predicate Inv(s: World) {
    && PostsOk(s.journal, s.posts)
    && (forall w :: w in s.workers ==> WorkOk(s.journal, s.posts, s.workers[w]))
    && (forall w, w' :: w in s.workers && w' in s.workers && s.workers[w].key == s.workers[w'].key ==> w == w')
  }

  predicate Idle(s: World, k: Key) {
    forall w :: w in s.workers ==> s.workers[w].key != k
  }

  lemma KeysOf(k: Key)
    ensures forall k': Key :: DisclosureStateKey(k') == DisclosureStateKey(k) ==> k' == k
  {
    forall k': Key | DisclosureStateKey(k') == DisclosureStateKey(k)
      ensures k' == k
    {
      DisclosureKeysAreDistinct(k', k);
    }
  }

  lemma MoveKeeps(s: World, w: nat, stage: Stage)
    requires Inv(s) && w in s.workers && (BeforePost(stage) ==> PostsBy(s.posts, s.workers[w].key) == 0)
    ensures Inv(Move(s, w, stage))
  {
  }

  lemma LeaveKeeps(s: World, w: nat)
    requires Inv(s)
    ensures Inv(Leave(s, w))
    ensures w in s.workers ==> Idle(Leave(s, w), s.workers[w].key)
  {
  }

  lemma JoinKeeps(s: World, w: nat, work: Work)
    requires Inv(s) && w !in s.workers && Idle(s, work.key) && WorkOk(s.journal, s.posts, work)
    ensures Inv(s.(workers := s.workers[w := work]))
  {
  }

  /** The journal entry of a key nobody is working on may be written. */
  lemma WriteKeeps(s: World, k: Key, entry: Entry)
    requires Inv(s) && Idle(s, k)
    ensures Inv(s.(journal := s.journal[DisclosureStateKey(k) := entry]))
  {
    KeysOf(k);
  }

  lemma CountsOfOwn(posts: seq<Post>, k: Key, text: string, url: string)
    ensures forall k': Key ::
              PostsBy(posts + [Own(k, text, url)], k') == PostsBy(posts, k') + if k == k' then 1 else 0
  {
    forall k': Key
      ensures PostsBy(posts + [Own(k, text, url)], k') == PostsBy(posts, k') + if k == k' then 1 else 0
    {
      CountsOfAppend(posts, Own(k, text, url), k');
    }
  }

  lemma OwnIsMarked(k: Key, text: string, url: string)
    ensures IsMarked(Own(k, text, url), k) && Own(k, text, url).author == Some(k)
  {
    BodyIsMarked(text, k);
  }

  lemma AppendPostsOk(journal: map<string, Entry>, posts: seq<Post>, k: Key, p: Post)
    requires PostsOk(journal, posts) && DisclosureStateKey(k) in journal && PostsBy(posts, k) == 0
    requires IsMarked(p, k) && p.author == Some(k)
    requires forall k': Key :: PostsBy(posts + [p], k') == PostsBy(posts, k') + if k == k' then 1 else 0
    ensures PostsOk(journal, posts + [p])
  {
  }

  /** A first post under a journaled key that nobody is working on. */
  lemma AppendKeeps(s: World, k: Key, text: string, url: string)
    requires Inv(s) && Idle(s, k) && DisclosureStateKey(k) in s.journal && PostsBy(s.posts, k) == 0
    ensures Inv(s.(posts := s.posts + [Own(k, text, url)]))
  {
    var p := Own(k, text, url);
    OwnIsMarked(k, text, url);
    CountsOfOwn(s.posts, k, text, url);
    AppendPostsOk(s.journal, s.posts, k, p);
    forall w | w in s.workers
      ensures WorkOk(s.journal, s.posts + [p], s.workers[w])
    {
      assert WorkOk(s.journal, s.posts, s.workers[w]) && s.workers[w].key != k;
    }
  }

  lemma ForeignKeeps(s: World, p: Post)
    requires Inv(s) && p.author.None?
    ensures Inv(s.(posts := s.posts + [p]))
  {
    forall k: Key
      ensures PostsBy(s.posts + [p], k) == PostsBy(s.posts, k)
    {
      CountsOfAppend(s.posts, p, k);
    }
  }

  lemma BeginStep(s: World, w: nat, k: Key)
    requires Inv(s) && Enabled(s, Begin(w, k)) && Idle(s, k)
    ensures Inv(Apply(s, Begin(w, k)))
  {
    var key := DisclosureStateKey(k);
    if key !in s.journal {
      WriteKeeps(s, k, Publishing);
      JoinKeeps(s.(journal := s.journal[key := Publishing]), w, Work(k, Claimed(false)));
    } else if s.journal[key].Publishing? {
      JoinKeeps(s, w, Work(k, Claimed(true)));
    }
  }

  lemma SearchStep(s: World, w: nat, answered: bool)
    requires Inv(s) && Enabled(s, Search(w, answered))
    ensures Inv(Apply(s, Search(w, answered)))
  {
    var k := s.workers[w].key;
    var found := FindMarked(s.posts, k);
    if !answered && s.workers[w].stage.recovering {
      LeaveKeeps(s, w);
    } else if answered && found.Some? {
      MoveKeeps(s, w, Settled(Some(found.value.url)));
    } else {
      if answered {
        NoneByIfNoneMarked(s.posts, k);
      }
      MoveKeeps(s, w, NotFound);
    }
  }

  lemma PublishStep(s: World, w: nat, text: string, url: string)
    requires Inv(s) && AtStage(s, w, Allowed)
    ensures Inv(Apply(s, Publish(w, text, url)))
    ensures Inv(Apply(s, PublishLost(w, text, url, true)))
  {
    var work := Work(s.workers[w].key, Settled(Some(url)));
    var t := Apply(s, PublishLost(w, text, url, true));
    AllowedWork(s, w);
    LeaveKeeps(s, w);
    PublishedWorlds(s, w, text, url);
    assert WorkOk(t.journal, t.posts, work) && work.key == s.workers[w].key && w in s.workers;
    assert Idle(t, work.key) && w !in t.workers;
    hide *;
    AppendKeeps(Leave(s, w), work.key, text, url);
    JoinKeeps(t, w, work);
  }

  /** A post that was acknowledged and one whose reply was lost differ in the worker that stays. */
  lemma PublishedWorlds(s: World, w: nat, text: string, url: string)
    requires AtStage(s, w, Allowed)
    ensures var key, t := s.workers[w].key, Apply(s, PublishLost(w, text, url, true));
            && t == Leave(s, w).(posts := Leave(s, w).posts + [Own(key, text, url)])
            && Apply(s, Publish(w, text, url)) == t.(workers := t.workers[w := Work(key, Settled(Some(url)))])
  {
    var work := Work(s.workers[w].key, Settled(Some(url)));
    assert (s.workers - {w})[w := work] == s.workers[w := work];
  }

  /** A worker that may post has an open journal entry and no post under its key yet. */
  lemma AllowedWork(s: World, w: nat)
    requires Inv(s) && AtStage(s, w, Allowed)
    ensures var key := s.workers[w].key;
            && DisclosureStateKey(key) in s.journal && s.journal[DisclosureStateKey(key)].Publishing?
            && PostsBy(s.posts, key) == 0
  {
    assert WorkOk(s.journal, s.posts, s.workers[w]);
  }

  lemma FinishStep(s: World, w: nat, landed: bool)
    requires Inv(s) && Enabled(s, Finish(w, landed))
    ensures Inv(Apply(s, Finish(w, landed)))
  {
    LeaveKeeps(s, w);
    if landed {
      WriteKeeps(Leave(s, w), s.workers[w].key, Published(s.workers[w].stage.url));
    }
  }

  lemma InvStep(s: World, e: Step)
    requires Inv(s) && Enabled(s, e) && Serial(s, e)
    ensures Inv(Apply(s, e))
  {
    match e
    case Begin(w, k) => BeginStep(s, w, k);
    case NoPost(w, url) => MoveKeeps(s, w, Settled(url));
    case Search(w, answered) => SearchStep(s, w, answered);
    case Lifecycle(w, open) =>
      if open.None? {
        LeaveKeeps(s, w);
      } else {
        MoveKeeps(s, w, if open.value then Allowed else Settled(None));
      }
    case Publish(w, text, url) => PublishStep(s, w, text, url);
    case PublishLost(w, text, url, landed) =>
      if landed {
        PublishStep(s, w, text, url);
      } else {
        LeaveKeeps(s, w);
      }
    case Finish(w, landed) => FinishStep(s, w, landed);
    case Stop(w) => LeaveKeeps(s, w);
    case Crash =>
    case Foreign(repo, pr, review, body, url) => ForeignKeeps(s, Post(repo, pr, review, body, url, None));
  }

  /** Over every run, with any interleaving of keys, crashes, lost replies and foreign posts. */
  lemma {:induction false} AtMostOncePublication(s: World, es: seq<Step>)
    requires Inv(s) && LegalSerial(s, es)
    ensures Legal(s, es) && Inv(Exec(s, es))
    decreases |es|
  {
    SerialIsLegal(s, es);
    if es != [] {
      InvStep(s, es[0]);
      AtMostOncePublication(Apply(s, es[0]), es[1..]);
    }
  }

  /** From an empty journal and any discussion that no finalizer has written to. */
  lemma AtMostOnceFromStart(posts: seq<Post>, es: seq<Step>, k: Key)
    requires forall i :: 0 <= i < |posts| ==> posts[i].author.None?
    requires LegalSerial(World(map[], posts, map[]), es)
    ensures Legal(World(map[], posts, map[]), es)
    ensures PostsBy(Exec(World(map[], posts, map[]), es).posts, k) <= 1
  {
    forall k': Key
      ensures PostsBy(posts, k') == 0
    {
      NoneBy(posts, k');
    }
    AtMostOncePublication(World(map[], posts, map[]), es);
  }

  lemma {:induction false} NoneBy(posts: seq<Post>, k: Key)
    requires forall i :: 0 <= i < |posts| ==> posts[i].author.None?
    ensures PostsBy(posts, k) == 0
  {
    if posts != [] {
      NoneBy(posts[..|posts| - 1], k);
    }
  }

  ghost predicate IsPublished(s: World, k: Key, url: Option<string>, posts: nat) {
    && DisclosureStateKey(k) in s.journal
    && s.journal[DisclosureStateKey(k)] == Published(url)
    && PostsBy(s.posts, k) == posts
  }

  /** A worker only posts under, and only finishes, a key whose entry is still open. */
  lemma PublishedStep(s: World, e: Step, k: Key, url: Option<string>, posts: nat)
    requires Inv(s) && Enabled(s, e) && IsPublished(s, k, url, posts)
    ensures IsPublished(Apply(s, e), k, url, posts)
  {
    match e
    case Begin(_, _) =>
    case NoPost(_, _) =>
    case Search(_, _) =>
    case Lifecycle(_, _) =>
    case Publish(w, text, u) =>
      assert WorkOk(s.journal, s.posts, s.workers[w]);
      CountsOfAppend(s.posts, Own(s.workers[w].key, text, u), k);
    case PublishLost(w, text, u, _) =>
      assert WorkOk(s.journal, s.posts, s.workers[w]);
      CountsOfAppend(s.posts, Own(s.workers[w].key, text, u), k);
    case Finish(w, _) =>
      assert WorkOk(s.journal, s.posts, s.workers[w]);
    case Stop(_) =>
    case Crash =>
    case Foreign(repo, pr, review, body, u) => CountsOfAppend(s.posts, Post(repo, pr, review, body, u, None), k);
  }

  /** A published receipt is final: its entry and the posts under its key never change again. */
  lemma {:induction false} PublishedIsAbsorbing(s: World, es: seq<Step>, k: Key, url: Option<string>, posts: nat)
    requires Inv(s) && LegalSerial(s, es) && IsPublished(s, k, url, posts)
    ensures Legal(s, es) && IsPublished(Exec(s, es), k, url, posts)
    decreases |es|
  {
    SerialIsLegal(s, es);
    if es != [] {
      InvStep(s, es[0]);
      PublishedStep(s, es[0], k, url, posts);
      PublishedIsAbsorbing(Apply(s, es[0]), es[1..], k, url, posts);
    }
  }

  /** No report or foreign text in the run quotes the marker. */
  predicate Quotes(e: Step, k: Key) {
    match e
    case Publish(_, text, _) => Contains(text, Marker(k))
    case PublishLost(_, text, _, _) => Contains(text, Marker(k))
    case Foreign(_, _, _, body, _) => Contains(body, Marker(k))
    case _ => false
  }

  lemma MarkerCountStep(s: World, e: Step, k: Key)
    requires Enabled(s, e) && PostsMarked(s.posts, k) == PostsBy(s.posts, k) && !Quotes(e, k)
    ensures PostsMarked(Apply(s, e).posts, k) == PostsBy(Apply(s, e).posts, k)
  {
    var t := Apply(s, e);
    if t.posts != s.posts {
      var p := if e.Foreign? then Post(e.repo, e.pr, e.review, e.body, e.url, None)
               else Own(s.workers[e.w].key, e.text, e.url);
      assert t.posts == s.posts + [p];
      CountsOfAppend(s.posts, p, k);
      if !e.Foreign? {
        MarkersAreUnambiguous(e.text, k, s.workers[e.w].key);
      }
    }
  }

  /** When nobody quotes it, the marker identifies the key: all posts that carry it were made under
      it, on every pull request together. */
  lemma {:induction false} MarkerCountsItsPosts(s: World, es: seq<Step>, k: Key)
    requires LegalSerial(s, es) && PostsMarked(s.posts, k) == PostsBy(s.posts, k)
    requires forall i :: 0 <= i < |es| ==> !Quotes(es[i], k)
    ensures Legal(s, es)
    ensures PostsMarked(Exec(s, es).posts, k) == PostsBy(Exec(s, es).posts, k)
    decreases |es|
  {
    SerialIsLegal(s, es);
    if es != [] {
      MarkerCountStep(s, es[0], k);
      MarkerCountsItsPosts(Apply(s, es[0]), es[1..], k);
    }
  }

  function Worker(e: Step): Option<nat> {
    match e
    case Crash => None
    case Foreign(_, _, _, _, _) => None
    case _ => Some(e.w)
  }

  /** A step of one of two finalizers, both working on the same key. */
  predicate PairStep(e: Step, k: Key) {
    Worker(e).Some? && Worker(e).value < 2 && (e.Begin? ==> e.key == k)
  }

  predicate PairSteps(es: seq<Step>, k: Key) {
    forall i :: 0 <= i < |es| ==> PairStep(es[i], k)
  }

  ghost predicate Reachable(k: Key, s: World, t: World) {
    exists es :: PairSteps(es, k) && Legal(s, es) && Exec(s, es) == t
  }

  lemma {:induction false} ExecSnoc(s: World, es: seq<Step>, e: Step)
    requires Legal(s, es) && Enabled(Exec(s, es), e)
    ensures Legal(s, es + [e]) && Exec(s, es + [e]) == Apply(Exec(s, es), e)
    decreases |es|
  {
    if es == [] {
      assert es + [e] == [e];
      assert [e][1..] == [];
      assert Exec(Apply(s, e), []) == Apply(s, e);
    } else {
      assert (es + [e])[1..] == es[1..] + [e];
      ExecSnoc(Apply(s, es[0]), es[1..], e);
    }
  }

  lemma ReachesNext(k: Key, s: World, t: World, e: Step)
    requires Reachable(k, s, t) && Enabled(t, e) && PairStep(e, k)
    ensures Reachable(k, s, Apply(t, e))
  {
    var es :| PairSteps(es, k) && Legal(s, es) && Exec(s, es) == t;
    ExecSnoc(s, es, e);
    assert PairSteps(es + [e], k) && Legal(s, es + [e]) && Exec(s, es + [e]) == Apply(t, e);
  }

  /** Two finalizers working on one key, as they would be if its review claim were taken twice. */
  function Pair(k: Key, a: Stage, b: Stage, posts: seq<Post>): World {
    World(map[DisclosureStateKey(k) := Publishing], posts, map[0 := Work(k, a), 1 := Work(k, b)])
  }

  lemma PairBegins(k: Key)
    ensures Reachable(k, World(map[], [], map[]), Pair(k, Claimed(false), Claimed(true), []))
  {
    var s0 := World(map[], [], map[]);
    assert PairSteps([], k) && Legal(s0, []) && Exec(s0, []) == s0;
    ReachesNext(k, s0, s0, Begin(0, k));
    ReachesNext(k, s0, Apply(s0, Begin(0, k)), Begin(1, k));
    assert Apply(Apply(s0, Begin(0, k)), Begin(1, k)) == Pair(k, Claimed(false), Claimed(true), []);
  }

  lemma PairMoves(k: Key, a: Stage, b: Stage, posts: seq<Post>, next: Stage)
    ensures Move(Pair(k, a, b, posts), 0, next) == Pair(k, next, b, posts)
    ensures Move(Pair(k, a, b, posts), 1, next) == Pair(k, a, next, posts)
  {
  }

  lemma PairSearches(k: Key)
    ensures Reachable(k, World(map[], [], map[]), Pair(k, NotFound, NotFound, []))
  {
    var s0, s1 := World(map[], [], map[]), Pair(k, Claimed(false), Claimed(true), []);
    PairBegins(k);
    ReachesNext(k, s0, s1, Search(0, true));
    PairMoves(k, Claimed(false), Claimed(true), [], NotFound);
    ReachesNext(k, s0, Pair(k, NotFound, Claimed(true), []), Search(1, true));
    PairMoves(k, NotFound, Claimed(true), [], NotFound);
  }

  lemma PairIsAllowed(k: Key)
    ensures Reachable(k, World(map[], [], map[]), Pair(k, Allowed, Allowed, []))
  {
    var s0 := World(map[], [], map[]);
    PairSearches(k);
    ReachesNext(k, s0, Pair(k, NotFound, NotFound, []), Lifecycle(0, Some(true)));
    PairMoves(k, NotFound, NotFound, [], Allowed);
    ReachesNext(k, s0, Pair(k, Allowed, NotFound, []), Lifecycle(1, Some(true)));
    PairMoves(k, Allowed, NotFound, [], Allowed);
  }

  /** Serial finalizers are needed: two that overlap on one key can both post. */
  lemma OverlapPostsTwice(k: Key)
    ensures exists t :: Reachable(k, World(map[], [], map[]), t) && PostsBy(t.posts, k) == 2
  {
    var s0, p, done := World(map[], [], map[]), Own(k, "", ""), Settled(Some(""));
    PairIsAllowed(k);
    ReachesNext(k, s0, Pair(k, Allowed, Allowed, []), Publish(0, "", ""));
    PairMoves(k, Allowed, Allowed, [] + [p], done);
    ReachesNext(k, s0, Pair(k, done, Allowed, [] + [p]), Publish(1, "", ""));
    PairMoves(k, done, Allowed, [] + [p] + [p], done);
    CountsOfAppend([], p, k);
    CountsOfAppend([] + [p], p, k);
  }
}
