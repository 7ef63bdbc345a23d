/** The poll backlog: deferred reviews keep their place while each poll replaces what is wanted. */
module Backlog {
  import opened Options

  type Target = string

  datatype Request = Request(isRetry: bool, target: Target, payload: string)

  datatype SubmitError = Full | Closed

  function Targets(rs: seq<Request>): (ts: seq<Target>)
    ensures |ts| == |rs|
    ensures forall i :: 0 <= i < |ts| ==> ts[i] == rs[i].target
  {
    seq(|rs|, i requires 0 <= i < |rs| => rs[i].target)
  }

  predicate Distinct(ts: seq<Target>) {
    forall i, j :: 0 <= i < j < |ts| ==> ts[i] != ts[j]
  }

  /** The position of the first `t`, or the length when there is none. */
  function Pos(ts: seq<Target>, t: Target): (p: nat)
    ensures p <= |ts| && t !in ts[..p]
    ensures p < |ts| <==> t in ts
    ensures p < |ts| ==> ts[p] == t
  {
    if ts == [] || ts[0] == t then 0
    else assert forall k :: 0 < k <= |ts| ==> ts[..k] == [ts[0]] + ts[1..][..k - 1]; 1 + Pos(ts[1..], t)
  }

  // ---------------------------------------------------------------- what a refresh should give

  /** The last discovery of a target. */
  predicate IsLatest(ds: seq<Request>, r: Request) {
    exists i :: 0 <= i < |ds| && ds[i] == r && forall j :: i < j < |ds| ==> ds[j].target != r.target
  }

  /** Deferred targets rank by their place in the backlog, new ones by their first discovery. */
  function Rank(prior: seq<Request>, ds: seq<Request>, t: Target): nat {
    Pos(Targets(prior) + Targets(ds), t)
  }

  predicate Precedes(prior: seq<Request>, ds: seq<Request>, a: Request, b: Request) {
    if a.isRetry == b.isRetry then Rank(prior, ds, a.target) < Rank(prior, ds, b.target) else b.isRetry
  }

  /** Exactly the discovered targets, each once with its latest payload, fresh work before retries
      and otherwise in rank order. */
  ghost predicate IsBacklog(prior: seq<Request>, ds: seq<Request>, r: seq<Request>) {
    && (forall q :: q in r <==> IsLatest(ds, q))
    && (forall i, j :: 0 <= i < j < |r| ==> Precedes(prior, ds, r[i], r[j]))
  }

  // ---------------------------------------------------------------- what the code computes

  function Latest(ds: seq<Request>): map<Target, Request> {
    if ds == [] then map[] else Latest(ds[..|ds| - 1])[ds[|ds| - 1].target := ds[|ds| - 1]]
  }

  function Order(ds: seq<Request>): seq<Target> {
    if ds == [] then []
    else if ds[|ds| - 1].target in Latest(ds[..|ds| - 1]) then Order(ds[..|ds| - 1])
    else Order(ds[..|ds| - 1]) + [ds[|ds| - 1].target]
  }

  function Collect(ts: seq<Target>, latest: map<Target, Request>): seq<Request> {
    if ts == [] then []
    else if ts[0] in latest then [latest[ts[0]]] + Collect(ts[1..], latest - {ts[0]})
    else Collect(ts[1..], latest)
  }

  function Only(rs: seq<Request>, retry: bool): seq<Request> {
    if rs == [] then []
    else if rs[0].isRetry == retry then [rs[0]] + Only(rs[1..], retry)
    else Only(rs[1..], retry)
  }

  /** The stable sort by the retry flag. */
  function SortByRetry(rs: seq<Request>): seq<Request> {
    Only(rs, false) + Only(rs, true)
  }

  function Refreshed(prior: seq<Request>, ds: seq<Request>): seq<Request> {
    SortByRetry(Collect(Targets(prior) + Order(ds), Latest(ds)))
  }

  class PendingPollReviews {
    var requests: seq<Request>

    constructor ()
      ensures requests == []
    {
      requests := [];
    }

    method Refresh(discoveries: seq<Request>)
      modifies this
      ensures requests == Refreshed(old(requests), discoveries)
    {
      var order: seq<Target>, latest: map<Target, Request> := [], map[];
      for i := 0 to |discoveries|
        invariant order == Order(discoveries[..i]) && latest == Latest(discoveries[..i])
      {
        assert discoveries[..i + 1][..i] == discoveries[..i];
        var request := discoveries[i];
        if request.target !in latest {
          order := order + [request.target];
        }
        latest := latest[request.target := request];
      }
      assert discoveries[..|discoveries|] == discoveries;
      var candidates, kept := Targets(requests) + order, [];
      for i := 0 to |candidates|
        invariant kept + Collect(candidates[i..], latest) == Collect(candidates, Latest(discoveries))
      {
        assert candidates[i..][1..] == candidates[i + 1..];
        var t := candidates[i];
        if t in latest {
          ghost var rest := Collect(candidates[i + 1..], latest - {t});
          assert kept + ([latest[t]] + rest) == (kept + [latest[t]]) + rest;
          kept := kept + [latest[t]];
          latest := latest - {t};
        }
      }
      assert kept + [] == kept && candidates[|candidates|..] == [];
      requests := SortByRetry(kept);
    }

    /** Offers the backlog in order until the scheduler declines; `answers` are its replies. */
    method Submit(answers: seq<Option<SubmitError>>) returns (r: Option<SubmitError>, accepted: nat)
      requires |answers| == |requests|
      modifies this
      ensures accepted <= |answers| && requests == old(requests)[accepted..]
      ensures forall i :: 0 <= i < accepted ==> answers[i].None?
      ensures r == if accepted < |answers| then answers[accepted] else None
      ensures accepted < |answers| ==> r.Some?
    {
      accepted := 0;
      while requests != []
        invariant accepted <= |answers| && requests == old(requests)[accepted..]
        invariant forall i :: 0 <= i < accepted ==> answers[i].None?
        decreases |requests|
      {
        if answers[accepted].Some? {
          return answers[accepted], accepted;
        }
        requests := requests[1..];
        accepted := accepted + 1;
      }
      r := None;
    }
  }

  // ---------------------------------------------------------------- refinement

  lemma LatestOfInit(ds: seq<Request>, q: Request)
    requires ds != [] && IsLatest(ds, q)
    ensures q == ds[|ds| - 1] || (q.target != ds[|ds| - 1].target && IsLatest(ds[..|ds| - 1], q))
  {
    var n := |ds| - 1;
    var i :| 0 <= i < |ds| && ds[i] == q && forall j :: i < j < |ds| ==> ds[j].target != q.target;
    if i < n {
      var init := ds[..n];
      assert init[i] == q && forall j :: i < j < n ==> init[j] == ds[j];
      assert ds[n].target != q.target;
    }
  }

  lemma LatestOfSnoc(init: seq<Request>, last: Request, q: Request)
    requires q == last || (q.target != last.target && IsLatest(init, q))
    ensures IsLatest(init + [last], q)
  {
    var ds, n := init + [last], |init|;
    if q == last {
      assert ds[n] == q;
    } else {
      var i :| 0 <= i < n && init[i] == q && forall j :: i < j < n ==> init[j].target != q.target;
      assert ds[i] == q;
      assert forall j :: i < j < |ds| ==> ds[j] == if j < n then init[j] else last;
    }
  }

  lemma {:induction false} LatestKeys(ds: seq<Request>)
    ensures forall t :: t in Latest(ds) <==> t in Targets(ds)
    ensures forall t :: t in Latest(ds) ==> Latest(ds)[t].target == t
  {
    if ds != [] {
      var init, last := ds[..|ds| - 1], ds[|ds| - 1];
      LatestKeys(init);
      assert Targets(ds) == Targets(init) + [last.target];
    }
  }

  lemma {:induction false} LatestIs(ds: seq<Request>, q: Request)
    ensures IsLatest(ds, q) <==> q.target in Latest(ds) && Latest(ds)[q.target] == q
  {
    if ds != [] {
      var init, last := ds[..|ds| - 1], ds[|ds| - 1];
      LatestIs(init, q);
      assert ds == init + [last];
      if IsLatest(ds, q) {
        LatestOfInit(ds, q);
      }
      if q == last || (q.target != last.target && IsLatest(init, q)) {
        LatestOfSnoc(init, last, q);
      }
    }
  }

  lemma {:induction false} PosInPrefix(ts: seq<Target>, us: seq<Target>, t: Target)
    ensures Pos(ts + us, t) == if t in ts then Pos(ts, t) else |ts| + Pos(us, t)
  {
    if ts == [] {
      assert ts + us == us;
    } else {
      assert (ts + us)[1..] == ts[1..] + us;
      PosInPrefix(ts[1..], us, t);
    }
  }

  lemma PosSnoc(ts: seq<Target>, x: Target, t: Target)
    requires t in ts || t == x
    ensures Pos(ts + [x], t) == if t in ts then Pos(ts, t) else |ts|
    ensures t in ts ==> Pos(ts, t) < |ts|
  {
    PosInPrefix(ts, [x], t);
  }

  /** First discoveries come in the same order in the deduplicated list. */
  lemma {:induction false} OrderKeepsFirsts(ds: seq<Request>, t: Target, u: Target)
    requires t in Targets(ds) && u in Targets(ds)
    ensures Pos(Order(ds), t) < Pos(Order(ds), u) <==> Pos(Targets(ds), t) < Pos(Targets(ds), u)
  {
    var init, last := ds[..|ds| - 1], ds[|ds| - 1].target;
    var was := Targets(init);
    assert Targets(ds) == was + [last];
    LatestKeys(init);
    OrderMembers(init);
    PosSnoc(was, last, t);
    PosSnoc(was, last, u);
    if last !in was {
      PosSnoc(Order(init), last, t);
      PosSnoc(Order(init), last, u);
    }
    if t in was && u in was {
      OrderKeepsFirsts(init, t, u);
    }
  }

  lemma {:induction false} OrderMembers(ds: seq<Request>)
    ensures forall t :: t in Order(ds) <==> t in Targets(ds)
  {
    if ds != [] {
      var init := ds[..|ds| - 1];
      assert Targets(ds) == Targets(init) + [ds[|ds| - 1].target];
      OrderMembers(init);
      LatestKeys(init);
    }
  }

  predicate WellKeyed(m: map<Target, Request>) {
    forall t :: t in m ==> m[t].target == t
  }

  lemma {:induction false} CollectIs(ts: seq<Target>, m: map<Target, Request>)
    requires WellKeyed(m)
    ensures forall q :: q in Collect(ts, m) <==> q.target in ts && q.target in m && m[q.target] == q
    ensures forall i, j :: 0 <= i < j < |Collect(ts, m)| ==>
              Pos(ts, Collect(ts, m)[i].target) < Pos(ts, Collect(ts, m)[j].target)
  {
    if ts != [] {
      var m' := if ts[0] in m then m - {ts[0]} else m;
      var rest, r := Collect(ts[1..], m'), Collect(ts, m);
      CollectIs(ts[1..], m');
      assert ts == [ts[0]] + ts[1..];
      assert r == if ts[0] in m then [m[ts[0]]] + rest else rest;
      forall i | 0 <= i < |rest|
        ensures rest[i].target != ts[0] && Pos(ts, rest[i].target) == 1 + Pos(ts[1..], rest[i].target)
      {
        assert rest[i] in rest;
      }
    }
  }

  lemma {:induction false} OnlyIs(rs: seq<Request>, retry: bool)
    ensures forall q :: q in Only(rs, retry) <==> q in rs && q.isRetry == retry
  {
    if rs != [] {
      OnlyIs(rs[1..], retry);
      assert rs == [rs[0]] + rs[1..];
    }
  }

  predicate Ranked(prior: seq<Request>, ds: seq<Request>, rs: seq<Request>) {
    forall i, j :: 0 <= i < j < |rs| ==> Rank(prior, ds, rs[i].target) < Rank(prior, ds, rs[j].target)
  }

  lemma RankedCons(prior: seq<Request>, ds: seq<Request>, q: Request, rest: seq<Request>)
    requires Ranked(prior, ds, rest)
    requires forall i :: 0 <= i < |rest| ==> Rank(prior, ds, q.target) < Rank(prior, ds, rest[i].target)
    ensures Ranked(prior, ds, [q] + rest)
  {
  }

  lemma {:induction false} OnlyKeepsOrder(prior: seq<Request>, ds: seq<Request>, rs: seq<Request>, retry: bool)
    requires Ranked(prior, ds, rs)
    ensures Ranked(prior, ds, Only(rs, retry))
  {
    if rs != [] {
      var tail := rs[1..];
      var rest := Only(tail, retry);
      OnlyKeepsOrder(prior, ds, tail, retry);
      OnlyIs(tail, retry);
      forall i | 0 <= i < |rest|
        ensures Rank(prior, ds, rs[0].target) < Rank(prior, ds, rest[i].target)
      {
        assert rest[i] in tail;
      }
      RankedCons(prior, ds, rs[0], rest);
    }
  }

  lemma CollectedRanks(prior: seq<Request>, ds: seq<Request>)
    ensures var c := Collect(Targets(prior) + Order(ds), Latest(ds));
            && (forall q :: q in c <==> IsLatest(ds, q))
            && Ranked(prior, ds, c)
  {
    var ts := Targets(prior) + Order(ds);
    var c := Collect(ts, Latest(ds));
    LatestKeys(ds);
    OrderMembers(ds);
    CollectIs(ts, Latest(ds));
    forall q
      ensures q in c <==> IsLatest(ds, q)
    {
      LatestIs(ds, q);
    }
    forall i, j | 0 <= i < j < |c|
      ensures Rank(prior, ds, c[i].target) < Rank(prior, ds, c[j].target)
    {
      var t, u := c[i].target, c[j].target;
      assert c[i] in c && c[j] in c;
      PosInPrefix(Targets(prior), Order(ds), t);
      PosInPrefix(Targets(prior), Order(ds), u);
      PosInPrefix(Targets(prior), Targets(ds), t);
      PosInPrefix(Targets(prior), Targets(ds), u);
      OrderKeepsFirsts(ds, t, u);
    }
  }

  lemma ConcatPrecedes(prior: seq<Request>, ds: seq<Request>, f: seq<Request>, t: seq<Request>)
    requires Ranked(prior, ds, f) && Ranked(prior, ds, t)
    requires (forall i :: 0 <= i < |f| ==> !f[i].isRetry) && (forall i :: 0 <= i < |t| ==> t[i].isRetry)
    ensures var r := f + t; forall i, j :: 0 <= i < j < |r| ==> Precedes(prior, ds, r[i], r[j])
  {
    var r := f + t;
    forall i, j | 0 <= i < j < |r|
      ensures Precedes(prior, ds, r[i], r[j])
    {
      assert r[i] == if i < |f| then f[i] else t[i - |f|];
      assert r[j] == if j < |f| then f[j] else t[j - |f|];
    }
  }

  /** The refresh meets its description for every backlog and every poll. */
  lemma RefreshIsBacklog(prior: seq<Request>, ds: seq<Request>)
    ensures IsBacklog(prior, ds, Refreshed(prior, ds))
  {
    var c := Collect(Targets(prior) + Order(ds), Latest(ds));
    var f, t := Only(c, false), Only(c, true);
    CollectedRanks(prior, ds);
    OnlyIs(c, false);
    OnlyIs(c, true);
    OnlyKeepsOrder(prior, ds, c, false);
    OnlyKeepsOrder(prior, ds, c, true);
    assert forall i :: 0 <= i < |f| ==> f[i] in f;
    assert forall i :: 0 <= i < |t| ==> t[i] in t;
    ConcatPrecedes(prior, ds, f, t);
    assert forall q :: q in f + t <==> q in f || q in t;
  }

  /** And the description leaves no choice. */
  lemma {:induction false} BacklogIsUnique(prior: seq<Request>, ds: seq<Request>, r: seq<Request>, s: seq<Request>)
    requires forall q :: q in r <==> q in s
    requires forall i, j :: 0 <= i < j < |r| ==> Precedes(prior, ds, r[i], r[j])
    requires forall i, j :: 0 <= i < j < |s| ==> Precedes(prior, ds, s[i], s[j])
    ensures r == s
  {
    HasMember(r);
    HasMember(s);
    if r != [] {
      assert r[0] in r && r[0] in s;
      assert s[0] in s && s[0] in r;
      TailMembers(prior, ds, r, s[0]);
      TailMembers(prior, ds, s, r[0]);
      assert r[0] == s[0];
      forall q
        ensures q in r[1..] <==> q in s[1..]
      {
        TailMembers(prior, ds, r, q);
        TailMembers(prior, ds, s, q);
      }
      BacklogIsUnique(prior, ds, r[1..], s[1..]);
      assert r == [r[0]] + r[1..] && s == [s[0]] + s[1..];
    }
  }

  lemma HasMember(s: seq<Request>)
    ensures s != [] ==> exists q :: q in s
  {
    if s != [] {
      assert s[0] in s;
    }
  }

  lemma TailMembers(prior: seq<Request>, ds: seq<Request>, r: seq<Request>, q: Request)
    requires r != [] && forall i, j :: 0 <= i < j < |r| ==> Precedes(prior, ds, r[i], r[j])
    ensures q in r[1..] <==> q in r && q != r[0]
    ensures q in r[1..] ==> Precedes(prior, ds, r[0], q)
  {
    assert forall i :: 0 < i < |r| ==> Precedes(prior, ds, r[0], r[i]);
    assert forall i :: 0 < i < |r| ==> r[i] == r[1..][i - 1];
  }
}
