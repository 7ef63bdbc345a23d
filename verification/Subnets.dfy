/** The veth subnet pool: linear probing for a free index, and reservations over whole runs. */
module Subnets {
  import opened Options

  const MIN_INDEX: nat := 1
  const MAX_INDEX: nat := 254
  const POOL: nat := MAX_INDEX - MIN_INDEX + 1

  type Index = i: nat | MIN_INDEX <= i <= MAX_INDEX witness 1

  /** The start index of a machine name's hash. */
  function StartIndex(hash: nat): Index {
    MIN_INDEX + hash % POOL
  }

  function Probe(start: Index, offset: nat): Index {
    MIN_INDEX + (start - MIN_INDEX + offset) % POOL
  }

  /** The first `n` indices of the pool. */
  function Indices(n: nat): (s: set<Index>)
    requires n <= POOL
    ensures |s| == n && forall i: Index :: i in s <==> i < MIN_INDEX + n
  {
    if n == 0 then {} else Indices(n - 1) + {MIN_INDEX + n - 1}
  }

  ghost predicate Full(active: set<Index>) {
    forall index: Index :: index in active
  }

  /** The first free index from the start, wrapping around once; `None` if every index is taken. */
  ghost predicate IsFirstFree(start: Index, active: set<Index>, r: Option<Index>) {
    match r
    case None => Full(active)
    case Some(index) =>
      index !in active
      && exists k: nat :: k < POOL && Probe(start, k) == index && forall j: nat :: j < k ==> Probe(start, j) in active
  }

  /** The offset at which the probe meets an index. */
  function OffsetOf(start: Index, index: Index): (k: nat)
    ensures k < POOL && Probe(start, k) == index
  {
    if start <= index then index - start else index + POOL - start
  }

  /** The program's shared set of active indices. */
  class Allocator {
    var active: set<Index>

    constructor ()
      ensures active == {}
    {
      active := {};
    }

    method ReserveIndex(start: Index) returns (r: Option<Index>)
      modifies this
      ensures IsFirstFree(start, old(active), r)
      ensures active == if r.Some? then old(active) + {r.value} else old(active)
    {
      for offset := 0 to POOL
        invariant active == old(active)
        invariant forall j: nat :: j < offset ==> Probe(start, j) in active
      {
        var index := Probe(start, offset);
        if index !in active {
          active := active + {index};
          return Some(index);
        }
      }
      forall index: Index ensures index in active {
        assert Probe(start, OffsetOf(start, index)) in active;
      }
      r := None;
    }

    method Drop(index: Index)
      modifies this
      ensures active == old(active) - {index}
    {
      active := active - {index};
    }
  }

  /** The probe visits each index of the pool at exactly one offset. */
  lemma ProbeVisitsEachOnce(start: Index, index: Index, k: nat)
    requires k < POOL
    ensures Probe(start, k) == index <==> k == OffsetOf(start, index)
  {
    var d, e := start - MIN_INDEX + k, index - MIN_INDEX;
    if d < POOL {
      assert d % POOL == d;
    } else {
      assert d % POOL == d - POOL;
    }
  }

  /** The result is determined: two first-free results for one start and one active set are equal. */
  lemma FirstFreeIsUnique(start: Index, active: set<Index>, r: Option<Index>, s: Option<Index>)
    requires IsFirstFree(start, active, r) && IsFirstFree(start, active, s)
    ensures r == s
  {
    if r.Some? && s.Some? {
      var j: nat :| j < POOL && Probe(start, j) == r.value && forall i: nat :: i < j ==> Probe(start, i) in active;
      var k: nat :| k < POOL && Probe(start, k) == s.value && forall i: nat :: i < k ==> Probe(start, i) in active;
      assert j < k ==> Probe(start, j) in active;
      assert k < j ==> Probe(start, k) in active;
    }
  }

  /** Probing fails exactly when all 254 indices are reserved. */
  lemma FailsOnlyWhenFull(start: Index, active: set<Index>, r: Option<Index>)
    requires IsFirstFree(start, active, r)
    ensures r.None? <==> |active| == POOL
  {
    FullIff(active);
  }

  lemma FullIff(active: set<Index>)
    ensures Full(active) <==> |active| == POOL
    ensures |active| <= POOL
  {
    FullIffAll(active, Indices(POOL));
  }

  lemma FullIffAll(active: set<Index>, all: set<Index>)
    requires Full(all)
    ensures Full(active) <==> |active| == |all|
    ensures |active| <= |all|
  {
    SmallerSet(active, all);
    if Full(active) {
      assert active == all;
    } else {
      var index: Index :| index !in active;
      SmallerSet(active, all - {index});
    }
  }

  lemma {:induction false} SmallerSet<T>(a: set<T>, b: set<T>)
    requires a <= b
    ensures |a| <= |b|
  {
    if x :| x in a {
      SmallerSet(a - {x}, b - {x});
    }
  }

  /** The hashes are dealt out over the pool in turn, so every index is the start of one in 254. */
  lemma StartsCoverThePool(index: Index, n: nat)
    ensures StartIndex(n * POOL + (index - MIN_INDEX)) == index
    ensures StartIndex(n * POOL + (index - MIN_INDEX) + POOL) == index
  {
  }

  // ---------------------------------------------------------------- runs of reservations

  /** A reservation is made by a name whose hash is given, or the holder at a position is dropped. */
  datatype Event = Reserve(hash: nat) | Release(holder: nat)

  /** The live reservations, in the order they were made, and the shared active set. */
  datatype Pool = Pool(live: seq<Index>, active: set<Index>)

  const EMPTY := Pool([], {})

  function WithoutAt(s: seq<Index>, i: nat): seq<Index>
    requires i < |s|
  {
    s[..i] + s[i + 1..]
  }

  ghost predicate Step(p: Pool, e: Event, q: Pool) {
    match e
    case Reserve(hash) =>
      (exists r :: IsFirstFree(StartIndex(hash), p.active, r)
                   && q == if r.Some? then Pool(p.live + [r.value], p.active + {r.value}) else p)
    case Release(i) => i < |p.live| && q == Pool(WithoutAt(p.live, i), p.active - {p.live[i]})
  }

  ghost predicate Run(ps: seq<Pool>, es: seq<Event>) {
    && |ps| == |es| + 1
    && ps[0] == EMPTY
    && forall i :: 0 <= i < |es| ==> Step(ps[i], es[i], ps[i + 1])
  }

  /** Live reservations are pairwise distinct and are exactly the active set. */
  ghost predicate Exact(p: Pool) {
    && (forall i, j :: 0 <= i < j < |p.live| ==> p.live[i] != p.live[j])
    && (forall x :: x in p.live <==> x in p.active)
  }

  lemma ReserveKeeps(p: Pool, index: Index)
    requires Exact(p) && index !in p.active
    ensures Exact(Pool(p.live + [index], p.active + {index}))
  {
  }

  lemma ReleaseKeeps(p: Pool, i: nat)
    requires Exact(p) && i < |p.live|
    ensures Exact(Pool(WithoutAt(p.live, i), p.active - {p.live[i]}))
  {
    var live := WithoutAt(p.live, i);
    forall x ensures x in live <==> x in p.active && x != p.live[i] {
      if x in p.active && x != p.live[i] {
        assert x in p.live;
        var k :| 0 <= k < |p.live| && p.live[k] == x;
        assert live[if k < i then k else k - 1] == x;
      }
    }
  }

  lemma StepKeeps(p: Pool, e: Event, q: Pool)
    requires Exact(p) && Step(p, e, q)
    ensures Exact(q)
  {
    match e {
      case Reserve(hash) =>
        var r :| IsFirstFree(StartIndex(hash), p.active, r)
                 && q == if r.Some? then Pool(p.live + [r.value], p.active + {r.value}) else p;
        if r.Some? {
          ReserveKeeps(p, r.value);
        }
      case Release(i) => ReleaseKeeps(p, i);
    }
  }

  lemma {:induction false} LiveIsActive(ps: seq<Pool>, es: seq<Event>, i: nat)
    requires Run(ps, es) && i < |ps|
    ensures Exact(ps[i])
  {
    if i > 0 {
      LiveIsActive(ps, es, i - 1);
      StepKeeps(ps[i - 1], es[i - 1], ps[i]);
    }
  }

  lemma {:induction false} DistinctCount(live: seq<Index>, active: set<Index>)
    requires Exact(Pool(live, active))
    ensures |live| == |active|
    decreases |live|
  {
    if live == [] {
      assert active == {};
    } else {
      ReleaseKeeps(Pool(live, active), 0);
      assert WithoutAt(live, 0) == live[1..];
      assert live[0] in active;
      DistinctCount(live[1..], active - {live[0]});
    }
  }

  /** A run refuses a reservation exactly when 254 reservations are live. */
  lemma RefusedOnlyWhenFull(ps: seq<Pool>, es: seq<Event>, i: nat)
    requires Run(ps, es) && i < |es| && es[i].Reserve?
    ensures ps[i + 1] == ps[i] <==> |ps[i].live| == POOL
    ensures |ps[i].live| < POOL ==> |ps[i + 1].live| == |ps[i].live| + 1
  {
    var p := ps[i];
    LiveIsActive(ps, es, i);
    DistinctCount(p.live, p.active);
    assert Step(p, es[i], ps[i + 1]);
    var r :| IsFirstFree(StartIndex(es[i].hash), p.active, r)
             && ps[i + 1] == if r.Some? then Pool(p.live + [r.value], p.active + {r.value}) else p;
    FailsOnlyWhenFull(StartIndex(es[i].hash), p.active, r);
    if r.Some? {
      assert |p.live + [r.value]| == |p.live| + 1;
      FullIff(p.active);
    }
  }
}
