/** The review scheduler: five structures that must agree at every select point. The step functions
    say what each arm does; the class does it on mutable fields. */
module Scheduler {
  const TERMINAL_JOB_LIMIT: nat := 1000

  /** Job ids are a clock reading and a global counter; the counter alone makes them unique. */
  type Id = nat

  datatype Target = Target(repository: string, pr: nat, commit: string, kind: string)

  datatype Request = Request(isRetry: bool, target: Target)

  datatype Queued = Queued(id: Id, isRetry: bool, target: Target)

  datatype Status = Waiting | Running | Completed | Failed | Skipped | Cancelled {
    predicate Terminal() {
      !Waiting? && !Running?
    }
  }

  datatype Job = Job(status: Status, target: Target)

  datatype Reply = Snapshot(id: Id, job: Job) | Full | Closed

  datatype Sched = Sched(
    workers: nat,
    capacity: nat,
    queue: seq<Queued>,
    active: set<Id>,
    running: map<Id, Target>,       // the spawned tasks
    byTarget: map<Target, Id>,
    jobs: map<Id, Job>,
    terminal: seq<Id>,
    nextId: Id,
    freshStarts: seq<Id>,           // history: dispatches of each class, in order
    retryStarts: seq<Id>)

  const USIZE_MAX: nat := 0xFFFF_FFFF_FFFF_FFFF

  function Capacity(maxWorkers: nat): nat {
    if maxWorkers < 8 then 16 else if 2 * maxWorkers > USIZE_MAX then USIZE_MAX else 2 * maxWorkers
  }

  function Start(maxWorkers: nat): Sched {
    Sched(if maxWorkers == 0 then USIZE_MAX else maxWorkers,
          Capacity(maxWorkers), [], {}, map[], map[], map[], [], 1, [], [])
  }

  function SetStatus(jobs: map<Id, Job>, id: Id, status: Status): map<Id, Job> {
    if id in jobs then jobs[id := jobs[id].(status := status)] else jobs
  }

  // ---------------------------------------------------------------- the arms

  function DispatchOne(s: Sched): Sched
    requires s.queue != []
  {
    var q := s.queue[0];
    s.(queue := s.queue[1..],
       jobs := SetStatus(s.jobs, q.id, Running),
       active := s.active + {q.id},
       running := s.running[q.id := q.target],
       freshStarts := if q.isRetry then s.freshStarts else s.freshStarts + [q.id],
       retryStarts := if q.isRetry then s.retryStarts + [q.id] else s.retryStarts)
  }

  function Dispatch(s: Sched): Sched
    decreases |s.queue|
  {
    if |s.running| < s.workers && s.queue != [] then Dispatch(DispatchOne(s)) else s
  }

  /** Fresh work goes in front of the first retry, a retry goes to the back. */
  function FirstRetry(queue: seq<Queued>): (p: nat)
    ensures p <= |queue|
    ensures forall i :: 0 <= i < p ==> !queue[i].isRetry
    ensures p < |queue| ==> queue[p].isRetry
  {
    if queue == [] || queue[0].isRetry then 0 else 1 + FirstRetry(queue[1..])
  }

  function Insert(queue: seq<Queued>, q: Queued): seq<Queued> {
    var p := if q.isRetry then |queue| else FirstRetry(queue);
    queue[..p] + [q] + queue[p..]
  }

  function Submit(s: Sched, r: Request): (Sched, Reply) {
    if r.target in s.byTarget then
      var id := s.byTarget[r.target];
      (s, if id in s.jobs then Snapshot(id, s.jobs[id]) else Closed)
    else if |s.queue| >= s.capacity then (s, Full)
    else
      var job := Job(Waiting, r.target);
      (s.(queue := Insert(s.queue, Queued(s.nextId, r.isRetry, r.target)),
          jobs := s.jobs[s.nextId := job],
          byTarget := s.byTarget[r.target := s.nextId],
          nextId := s.nextId + 1),
       Snapshot(s.nextId, job))
  }

  function EvictOldest(s: Sched): Sched {
    if |s.terminal| > TERMINAL_JOB_LIMIT then s.(jobs := s.jobs - {s.terminal[0]}, terminal := s.terminal[1..]) else s
  }

  predicate Outcome(status: Status) {
    status.Completed? || status.Failed? || status.Skipped?
  }

  function Finished(s: Sched, id: Id, status: Status): Sched
    requires id in s.running
  {
    s.(active := s.active - {id},
       running := s.running - {id},
       byTarget := s.byTarget - {s.running[id]},
       jobs := SetStatus(s.jobs, id, status),
       terminal := s.terminal + [id])
  }

  function Join(s: Sched, id: Id, status: Status): Sched
    requires id in s.running
  {
    EvictOldest(Finished(s, id, status))
  }

  function CancelAll(jobs: map<Id, Job>, ids: seq<Id>): map<Id, Job> {
    if ids == [] then jobs else CancelAll(SetStatus(jobs, ids[0], Cancelled), ids[1..])
  }

  function QueueIds(queue: seq<Queued>): (ids: seq<Id>)
    ensures |ids| == |queue|
    ensures forall i :: 0 <= i < |ids| ==> ids[i] == queue[i].id
  {
    seq(|queue|, i requires 0 <= i < |queue| => queue[i].id)
  }

  function ToSet(ids: seq<Id>): set<Id> {
    set id | id in ids
  }

  /** `order` is the order in which the active set happened to be drained. */
  function Shutdown(s: Sched, order: seq<Id>): Sched {
    var ids := QueueIds(s.queue) + order;
    s.(queue := [], active := {}, running := map[], jobs := CancelAll(s.jobs, ids), terminal := s.terminal + ids)
  }

  // ---------------------------------------------------------------- the class

  class ReviewScheduler {
    const workers: nat
    const capacity: nat
    var queue: seq<Queued>
    var active: set<Id>
    var running: map<Id, Target>
    var byTarget: map<Target, Id>
    var jobs: map<Id, Job>
    var terminal: seq<Id>
    var nextId: Id
    ghost var freshStarts: seq<Id>
    ghost var retryStarts: seq<Id>

    ghost function View(): Sched
      reads this
    {
      Sched(workers, capacity, queue, active, running, byTarget, jobs, terminal, nextId, freshStarts, retryStarts)
    }

    constructor (maxWorkers: nat)
      ensures View() == Start(maxWorkers)
    {
      workers := if maxWorkers == 0 then USIZE_MAX else maxWorkers;
      capacity := Capacity(maxWorkers);
      queue, active, running, byTarget, jobs, terminal, nextId := [], {}, map[], map[], map[], [], 1;
      freshStarts, retryStarts := [], [];
    }

    method UpdateJob(id: Id, status: Status)
      modifies this`jobs
      ensures jobs == SetStatus(old(jobs), id, status)
    {
      if id in jobs {
        jobs := jobs[id := jobs[id].(status := status)];
      }
    }

    method DispatchNext()
      requires queue != []
      modifies this
      ensures View() == DispatchOne(old(View()))
    {
      var q := queue[0];
      queue := queue[1..];
      UpdateJob(q.id, Running);
      active := active + {q.id};
      running := running[q.id := q.target];
      if q.isRetry {
        retryStarts := retryStarts + [q.id];
      } else {
        freshStarts := freshStarts + [q.id];
      }
    }

    method DispatchReady()
      modifies this
      ensures View() == Dispatch(old(View()))
    {
      while |running| < workers && queue != []
        invariant Dispatch(View()) == Dispatch(old(View()))
        decreases |queue|
      {
        DispatchNext();
      }
    }

    method OnSubmission(r: Request) returns (reply: Reply)
      modifies this
      ensures (View(), reply) == Submit(old(View()), r)
    {
      if r.target in byTarget {
        var id := byTarget[r.target];
        return if id in jobs then Snapshot(id, jobs[id]) else Closed;
      }
      if |queue| >= capacity {
        return Full;
      }
      var job, q := Job(Waiting, r.target), Queued(nextId, r.isRetry, r.target);
      jobs := jobs[nextId := job];
      byTarget := byTarget[r.target := nextId];
      reply := Snapshot(nextId, job);
      nextId := nextId + 1;
      if r.isRetry {
        assert queue[..|queue|] + [q] + queue[|queue|..] == queue + [q];
        queue := queue + [q];
      } else {
        var position := FirstRetry(queue);
        queue := queue[..position] + [q] + queue[position..];
      }
    }

    method OnJoined(id: Id, status: Status)
      requires id in running
      modifies this
      ensures View() == Join(old(View()), id, status)
    {
      active := active - {id};
      byTarget := byTarget - {running[id]};
      running := running - {id};
      UpdateJob(id, status);
      terminal := terminal + [id];
      if |terminal| > TERMINAL_JOB_LIMIT {
        jobs := jobs - {terminal[0]};
        terminal := terminal[1..];
      }
    }

    method CancelQueued()
      modifies `queue, `jobs, `terminal
      ensures queue == []
      ensures jobs == CancelAll(old(jobs), QueueIds(old(queue)))
      ensures terminal == old(terminal) + QueueIds(old(queue))
    {
      ghost var ids := QueueIds(queue);
      ghost var n := 0;
      while queue != []
        invariant n <= |old(queue)| && queue == old(queue)[n..]
        invariant jobs == CancelAll(old(jobs), ids[..n]) && terminal == old(terminal) + ids[..n]
        decreases |queue|
      {
        CancelAllSnoc(old(jobs), ids[..n], ids[n]);
        assert ids[..n + 1] == ids[..n] + [ids[n]];
        var q := queue[0];
        queue := queue[1..];
        UpdateJob(q.id, Cancelled);
        terminal := terminal + [q.id];
        n := n + 1;
      }
      assert ids[..n] == ids;
    }

    /** The active set is drained in an order of its own. */
    method CancelActive() returns (order: seq<Id>)
      modifies `active, `jobs, `terminal
      ensures active == {} && ToSet(order) == old(active) && |order| == |old(active)|
      ensures jobs == CancelAll(old(jobs), order)
      ensures terminal == old(terminal) + order
    {
      order := [];
      while active != {}
        invariant active !! ToSet(order) && active + ToSet(order) == old(active)
        invariant |active| + |order| == |old(active)|
        invariant jobs == CancelAll(old(jobs), order) && terminal == old(terminal) + order
        decreases |active|
      {
        var id :| id in active;
        CancelAllSnoc(old(jobs), order, id);
        active := active - {id};
        UpdateJob(id, Cancelled);
        terminal := terminal + [id];
        order := order + [id];
      }
    }

    method OnCancelled() returns (order: seq<Id>)
      modifies this
      ensures View() == Shutdown(old(View()), order)
      ensures ToSet(order) == old(active) && |order| == |old(active)|
    {
      CancelQueued();
      running := map[];
      order := CancelActive();
      CancelAllJoin(old(jobs), QueueIds(old(queue)), order);
    }
  }

  lemma {:induction false} CancelAllJoin(jobs: map<Id, Job>, ids: seq<Id>, ids': seq<Id>)
    ensures CancelAll(jobs, ids + ids') == CancelAll(CancelAll(jobs, ids), ids')
  {
    if ids == [] {
      assert ids + ids' == ids';
    } else {
      assert (ids + ids')[1..] == ids[1..] + ids';
      CancelAllJoin(SetStatus(jobs, ids[0], Cancelled), ids[1..], ids');
    }
  }

  lemma CancelAllSnoc(jobs: map<Id, Job>, ids: seq<Id>, id: Id)
    ensures CancelAll(jobs, ids + [id]) == SetStatus(CancelAll(jobs, ids), id, Cancelled)
  {
    CancelAllJoin(jobs, ids, [id]);
    assert [id][1..] == [];
  }
}
