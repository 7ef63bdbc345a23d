/** Every reachable state of the scheduler: the structures agree, work starts in order, jobs only
    move forward, and a shutdown leaves nothing live. */
module SchedulerRuns {
  import opened Scheduler

  // ---------------------------------------------------------------- agreement

  predicate Before(a: Queued, b: Queued) {
    && a.id != b.id
    && (a.isRetry ==> b.isRetry)
    && (a.isRetry == b.isRetry ==> a.id < b.id)
  }

  predicate QueueOk(s: Sched) {
    && (forall i :: 0 <= i < |s.queue| ==>
          s.queue[i].id in s.jobs && s.jobs[s.queue[i].id] == Job(Waiting, s.queue[i].target))
    && (forall i, j :: 0 <= i < j < |s.queue| ==> Before(s.queue[i], s.queue[j]))
    && |s.queue| <= s.capacity
  }

  predicate RunningOk(s: Sched) {
    && s.active == s.running.Keys
    && (forall id :: id in s.running ==> id in s.jobs && s.jobs[id] == Job(Running, s.running[id]))
    && |s.running| <= s.workers
  }

  predicate TerminalOk(s: Sched) {
    && (forall i :: 0 <= i < |s.terminal| ==> s.terminal[i] in s.jobs && s.jobs[s.terminal[i]].status.Terminal())
    && (forall i, j :: 0 <= i < j < |s.terminal| ==> s.terminal[i] != s.terminal[j])
  }

  function WaitingIds(queue: seq<Queued>): set<Id> {
    set i | 0 <= i < |queue| :: queue[i].id
  }

  predicate TableOk(s: Sched) {
    forall id :: id in s.jobs ==>
      id < s.nextId && (id in WaitingIds(s.queue) || id in s.running || id in s.terminal)
  }

  predicate IndexOk(s: Sched) {
    && (forall t :: t in s.byTarget ==>
          s.byTarget[t] in s.jobs && s.jobs[s.byTarget[t]].target == t && !s.jobs[s.byTarget[t]].status.Terminal())
    && (forall id :: id in s.jobs && !s.jobs[id].status.Terminal() ==>
          s.jobs[id].target in s.byTarget && s.byTarget[s.jobs[id].target] == id)
  }

  predicate Increasing(ids: seq<Id>) {
    forall i, j :: 0 <= i < j < |ids| ==> ids[i] < ids[j]
  }

  /** Of one class, work has started in submission order, and before everything that waits. */
  predicate ClassOk(starts: seq<Id>, queue: seq<Queued>, retry: bool, nextId: Id) {
    && Increasing(starts)
    && (forall i, j :: 0 <= i < |starts| && 0 <= j < |queue| && queue[j].isRetry == retry ==> starts[i] < queue[j].id)
    && (forall i :: 0 <= i < |starts| ==> starts[i] < nextId)
  }

  predicate HistoryOk(s: Sched) {
    ClassOk(s.freshStarts, s.queue, false, s.nextId) && ClassOk(s.retryStarts, s.queue, true, s.nextId)
  }

  predicate Agree(s: Sched) {
    QueueOk(s) && RunningOk(s) && TerminalOk(s) && TableOk(s) && IndexOk(s) && HistoryOk(s)
  }

  predicate Inv(s: Sched) {
    Agree(s) && |s.terminal| <= TERMINAL_JOB_LIMIT
  }

  /** No worker idles while work waits. */
  predicate NoIdleWorker(s: Sched) {
    |s.running| == s.workers || s.queue == []
  }

  /** Each structure holds exactly the jobs of its status. */
  lemma StatusesAgree(s: Sched)
    requires Agree(s)
    ensures forall id :: id in WaitingIds(s.queue) <==> id in s.jobs && s.jobs[id].status.Waiting?
    ensures forall id :: id in s.active <==> id in s.jobs && s.jobs[id].status.Running?
    ensures forall id :: id in ToSet(s.terminal) <==> id in s.jobs && s.jobs[id].status.Terminal()
  {
  }

  /** Queue, active set and terminal list are disjoint, without repeats, and together are exactly
      the job table. */
  lemma StructuresAgree(s: Sched)
    requires Agree(s)
    ensures WaitingIds(s.queue) !! s.active !! ToSet(s.terminal)
    ensures WaitingIds(s.queue) + s.active + ToSet(s.terminal) == s.jobs.Keys
    ensures |WaitingIds(s.queue)| == |s.queue| && |ToSet(s.terminal)| == |s.terminal|
  {
    StatusesAgree(s);
    NoRepeats(s);
    Partition(s.jobs, WaitingIds(s.queue), s.active, ToSet(s.terminal));
  }

  lemma Partition(jobs: map<Id, Job>, q: set<Id>, a: set<Id>, t: set<Id>)
    requires forall id :: id in q <==> id in jobs && jobs[id].status.Waiting?
    requires forall id :: id in a <==> id in jobs && jobs[id].status.Running?
    requires forall id :: id in t <==> id in jobs && jobs[id].status.Terminal()
    ensures q !! a !! t && q + a + t == jobs.Keys
  {
  }

  lemma NoRepeats(s: Sched)
    requires QueueOk(s) && TerminalOk(s)
    ensures |WaitingIds(s.queue)| == |s.queue| && |ToSet(s.terminal)| == |s.terminal|
  {
    DistinctCount(QueueIds(s.queue));
    DistinctCount(s.terminal);
    IdsAreWaiting(s.queue);
  }

  lemma IdsAreWaiting(queue: seq<Queued>)
    ensures ToSet(QueueIds(queue)) == WaitingIds(queue)
  {
    forall id | id in WaitingIds(queue)
      ensures id in QueueIds(queue)
    {
      var i :| 0 <= i < |queue| && queue[i].id == id;
      assert QueueIds(queue)[i] == id;
    }
  }

  /** The target index is exactly the live jobs, so a target has at most one and a duplicate
      submission always finds it. */
  lemma OneLiveJobPerTarget(s: Sched, r: Request)
    requires Inv(s)
    ensures s.byTarget.Values == set id | id in s.jobs && !s.jobs[id].status.Terminal()
    ensures forall id, id' :: id in s.jobs && id' in s.jobs && s.jobs[id].target == s.jobs[id'].target ==>
              (!s.jobs[id].status.Terminal() && !s.jobs[id'].status.Terminal() ==> id == id')
    ensures (exists id :: id in s.jobs && s.jobs[id].target == r.target && !s.jobs[id].status.Terminal()) ==>
              Submit(s, r).0 == s && Submit(s, r).1.Snapshot? && Submit(s, r).1.job.target == r.target
    ensures !Submit(s, r).1.Closed?
  {
    forall id | id in s.jobs && !s.jobs[id].status.Terminal()
      ensures id in s.byTarget.Values
    {
      assert s.byTarget[s.jobs[id].target] == id;
    }
  }

  lemma {:induction false} DistinctCount(ids: seq<Id>)
    requires forall i, j :: 0 <= i < j < |ids| ==> ids[i] != ids[j]
    ensures |ToSet(ids)| == |ids|
  {
    if ids != [] {
      DistinctCount(ids[1..]);
      assert ToSet(ids) == {ids[0]} + ToSet(ids[1..]);
    }
  }

  // ---------------------------------------------------------------- dispatch

  lemma WaitingIdsSplit(queue: seq<Queued>)
    requires queue != []
    ensures WaitingIds(queue) == {queue[0].id} + WaitingIds(queue[1..])
  {
    assert forall i :: 0 <= i < |queue| - 1 ==> queue[1..][i] == queue[i + 1];
    forall id | id in WaitingIds(queue)
      ensures id == queue[0].id || id in WaitingIds(queue[1..])
    {
      var i :| 0 <= i < |queue| && queue[i].id == id;
      assert i > 0 ==> queue[1..][i - 1].id == id;
    }
  }

  lemma DispatchOneQueue(s: Sched)
    requires QueueOk(s) && s.queue != []
    ensures QueueOk(DispatchOne(s))
  {
    var t := DispatchOne(s);
    assert forall i :: 0 <= i < |t.queue| ==> t.queue[i] == s.queue[i + 1];
    assert forall i :: 0 < i < |s.queue| ==> Before(s.queue[0], s.queue[i]);
  }

  lemma DispatchOneTable(s: Sched)
    requires QueueOk(s) && RunningOk(s) && TableOk(s) && s.queue != [] && |s.running| < s.workers
    ensures RunningOk(DispatchOne(s)) && TableOk(DispatchOne(s))
  {
    WaitingIdsSplit(s.queue);
    assert s.queue[0].id !in s.running;
  }

  lemma DispatchOneRest(s: Sched)
    requires QueueOk(s) && TerminalOk(s) && IndexOk(s) && HistoryOk(s) && s.queue != []
    ensures TerminalOk(DispatchOne(s)) && IndexOk(DispatchOne(s))
  {
  }

  lemma ClassStarts(starts: seq<Id>, queue: seq<Queued>, retry: bool, nextId: Id)
    requires queue != [] && ClassOk(starts, queue, retry, nextId) && queue[0].id < nextId
    requires forall i :: 0 < i < |queue| ==> Before(queue[0], queue[i])
    ensures ClassOk(if queue[0].isRetry == retry then starts + [queue[0].id] else starts, queue[1..], retry, nextId)
  {
    assert forall i :: 0 <= i < |queue| - 1 ==> queue[1..][i] == queue[i + 1];
  }

  lemma DispatchOneHistory(s: Sched)
    requires QueueOk(s) && HistoryOk(s) && TableOk(s) && s.queue != []
    ensures HistoryOk(DispatchOne(s))
  {
    assert s.queue[0].id < s.nextId;
    ClassStarts(s.freshStarts, s.queue, false, s.nextId);
    ClassStarts(s.retryStarts, s.queue, true, s.nextId);
  }

  lemma DispatchOneKeeps(s: Sched)
    requires Inv(s) && s.queue != [] && |s.running| < s.workers
    ensures Inv(DispatchOne(s))
  {
    DispatchOneQueue(s);
    DispatchOneTable(s);
    DispatchOneRest(s);
    DispatchOneHistory(s);
  }

  /** The job that starts is the oldest fresh one, or the oldest retry when no fresh job waits. */
  lemma DispatchPicksFirst(s: Sched, i: nat)
    requires Inv(s) && 0 < i < |s.queue|
    ensures s.queue[0].isRetry ==> s.queue[i].isRetry
    ensures s.queue[0].isRetry == s.queue[i].isRetry ==> s.queue[0].id < s.queue[i].id
  {
    assert Before(s.queue[0], s.queue[i]);
  }

  lemma {:induction false} DispatchKeeps(s: Sched)
    requires Inv(s)
    ensures Inv(Dispatch(s)) && NoIdleWorker(Dispatch(s))
    decreases |s.queue|
  {
    if |s.running| < s.workers && s.queue != [] {
      DispatchOneKeeps(s);
      DispatchKeeps(DispatchOne(s));
    }
  }

  // ---------------------------------------------------------------- submission

  /** Where a submission goes: before `p` there is only fresh work, unless it is itself a retry. */
  lemma InsertedAt(queue: seq<Queued>, q: Queued, r: seq<Queued>) returns (p: nat)
    requires r == Insert(queue, q)
    ensures p <= |queue| && |r| == |queue| + 1
    ensures forall i :: 0 <= i < |r| ==> r[i] == if i < p then queue[i] else if i == p then q else queue[i - 1]
    ensures if q.isRetry then p == |queue| else forall i :: 0 <= i < p ==> !queue[i].isRetry
    ensures p < |queue| ==> queue[p].isRetry
  {
    p := if q.isRetry then |queue| else FirstRetry(queue);
  }

  lemma InsertKeeps(queue: seq<Queued>, q: Queued)
    requires forall i, j :: 0 <= i < j < |queue| ==> Before(queue[i], queue[j])
    requires forall i :: 0 <= i < |queue| ==> queue[i].id < q.id
    ensures var r := Insert(queue, q);
            && |r| == |queue| + 1
            && (forall i :: 0 <= i < |r| ==> r[i] == q || r[i] in queue)
            && (forall i, j :: 0 <= i < j < |r| ==> Before(r[i], r[j]))
  {
    var r := Insert(queue, q);
    var p := InsertedAt(queue, q, r);
    InsertedBetween(queue, q, p);
    hide *;
    forall i, j | 0 <= i < j < |r|
      ensures Before(r[i], r[j])
    {
      assert r[i] == if i < p then queue[i] else if i == p then q else queue[i - 1];
      assert r[j] == if j < p then queue[j] else if j == p then q else queue[j - 1];
    }
  }

  lemma InsertedBetween(queue: seq<Queued>, q: Queued, p: nat)
    requires p <= |queue| && forall i, j :: 0 <= i < j < |queue| ==> Before(queue[i], queue[j])
    requires forall i :: 0 <= i < |queue| ==> queue[i].id < q.id
    requires if q.isRetry then p == |queue| else forall i :: 0 <= i < p ==> !queue[i].isRetry
    requires p < |queue| ==> queue[p].isRetry
    ensures forall i :: 0 <= i < p ==> Before(queue[i], q)
    ensures forall i :: p <= i < |queue| ==> Before(q, queue[i])
  {
    assert forall i :: p < i < |queue| ==> Before(queue[p], queue[i]);
  }

  lemma InsertIds(queue: seq<Queued>, q: Queued)
    ensures WaitingIds(Insert(queue, q)) == WaitingIds(queue) + {q.id}
  {
    var r, p := Insert(queue, q), if q.isRetry then |queue| else FirstRetry(queue);
    assert forall i :: 0 <= i < |r| ==> r[i] == if i < p then queue[i] else if i == p then q else queue[i - 1];
    assert r[p].id == q.id;
    forall id | id in WaitingIds(queue)
      ensures id in WaitingIds(r)
    {
      var i :| 0 <= i < |queue| && queue[i].id == id;
      assert r[if i < p then i else i + 1].id == id;
    }
  }

  /** What an accepted submission changes. */
  predicate Accepted(s: Sched, t: Sched, q: Queued) {
    && t.queue == Insert(s.queue, q) && t.jobs == s.jobs[q.id := Job(Waiting, q.target)]
    && t.capacity == s.capacity && t.nextId == s.nextId + 1
    && t.freshStarts == s.freshStarts && t.retryStarts == s.retryStarts
  }

  lemma AcceptedIs(s: Sched, r: Request)
    requires r.target !in s.byTarget && |s.queue| < s.capacity
    ensures Accepted(s, Submit(s, r).0, Queued(s.nextId, r.isRetry, r.target))
  {
    hide Insert;
  }

  lemma QueueIsBelow(s: Sched)
    requires QueueOk(s) && TableOk(s)
    ensures forall i :: 0 <= i < |s.queue| ==> s.queue[i].id < s.nextId
    ensures forall i, j :: 0 <= i < j < |s.queue| ==> Before(s.queue[i], s.queue[j])
  {
    hide WaitingIds, Before;
  }

  lemma SubmitQueue(s: Sched, r: Request)
    requires QueueOk(s) && TableOk(s) && HistoryOk(s)
    ensures QueueOk(Submit(s, r).0) && HistoryOk(Submit(s, r).0)
  {
    if r.target !in s.byTarget && |s.queue| < s.capacity {
      var t, q := Submit(s, r).0, Queued(s.nextId, r.isRetry, r.target);
      AcceptedIs(s, r);
      hide *;
      QueueIsBelow(s);
      InsertKeeps(s.queue, q);
      SubmittedQueue(s, t, q);
    }
  }

  lemma SubmittedQueue(s: Sched, t: Sched, q: Queued)
    requires QueueOk(s) && HistoryOk(s) && q.id == s.nextId && |s.queue| < s.capacity
    requires forall i :: 0 <= i < |s.queue| ==> s.queue[i].id < q.id
    requires Accepted(s, t, q) && |t.queue| == |s.queue| + 1
    requires forall i :: 0 <= i < |t.queue| ==> t.queue[i] == q || t.queue[i] in s.queue
    requires forall i, j :: 0 <= i < j < |t.queue| ==> Before(t.queue[i], t.queue[j])
    ensures QueueOk(t) && HistoryOk(t)
  {
    hide Before, ClassOk, Insert;
    InsertedClass(s.freshStarts, s.queue, t.queue, q, false);
    InsertedClass(s.retryStarts, s.queue, t.queue, q, true);
    InsertedJobs(s, t.queue, q);
  }

  lemma InsertedClass(starts: seq<Id>, queue: seq<Queued>, longer: seq<Queued>, q: Queued, retry: bool)
    requires ClassOk(starts, queue, retry, q.id)
    requires forall i :: 0 <= i < |longer| ==> longer[i] == q || longer[i] in queue
    ensures ClassOk(starts, longer, retry, q.id + 1)
  {
  }

  lemma InsertedJobs(s: Sched, longer: seq<Queued>, q: Queued)
    requires QueueOk(s)
    requires forall i :: 0 <= i < |longer| ==> longer[i] == q || longer[i] in s.queue
    requires forall i :: 0 <= i < |s.queue| ==> s.queue[i].id != q.id
    ensures var jobs := s.jobs[q.id := Job(Waiting, q.target)];
            forall i :: 0 <= i < |longer| ==>
              longer[i].id in jobs && jobs[longer[i].id] == Job(Waiting, longer[i].target)
  {
  }

  lemma SubmitTable(s: Sched, r: Request)
    requires Inv(s)
    ensures RunningOk(Submit(s, r).0) && TerminalOk(Submit(s, r).0) && TableOk(Submit(s, r).0)
  {
    InsertIds(s.queue, Queued(s.nextId, r.isRetry, r.target));
  }

  lemma SubmitIndex(s: Sched, r: Request)
    requires TableOk(s) && IndexOk(s)
    ensures IndexOk(Submit(s, r).0)
  {
  }

  lemma SubmitKeeps(s: Sched, r: Request)
    requires Inv(s)
    ensures Inv(Submit(s, r).0)
  {
    SubmitQueue(s, r);
    SubmitTable(s, r);
    SubmitIndex(s, r);
  }

  predicate IsLive(s: Sched, id: Id, target: Target) {
    id in s.jobs && s.jobs[id].target == target && !s.jobs[id].status.Terminal()
  }

  /** A submission answers with the live job of its target, if there is one; otherwise it is refused
      exactly when the queue holds as many jobs as it may, and else listed and queued under a new id
      and in its own class. */
  lemma SubmissionIs(s: Sched, r: Request)
    requires Inv(s)
    ensures forall id :: IsLive(s, id, r.target) ==> Submit(s, r) == (s, Snapshot(id, s.jobs[id]))
    ensures (forall id :: !IsLive(s, id, r.target)) ==>
              var (t, reply) := Submit(s, r);
              if |s.queue| == s.capacity then t == s && reply == Full
              else
                && reply.Snapshot? && reply.job == Job(Waiting, r.target)
                && reply.id !in s.jobs && t.jobs == s.jobs[reply.id := reply.job]
                && WaitingIds(t.queue) == WaitingIds(s.queue) + {reply.id}
                && Queued(reply.id, r.isRetry, r.target) in t.queue
  {
    InsertIds(s.queue, Queued(s.nextId, r.isRetry, r.target));
    assert r.target in s.byTarget ==> IsLive(s, s.byTarget[r.target], r.target);
  }

  /** The queue holds twice as many jobs as there may be workers, but never fewer than sixteen. */
  lemma CapacityIs(maxWorkers: nat)
    ensures var c := Start(maxWorkers).capacity;
            && c >= 16 && (c >= 2 * maxWorkers || c == USIZE_MAX) && (c == 16 || c <= 2 * maxWorkers)
    ensures maxWorkers > 0 ==> Start(maxWorkers).workers == maxWorkers
  {
  }

  // ---------------------------------------------------------------- completion

  lemma FinishedTerminal(s: Sched, id: Id, status: Status)
    requires Agree(s) && id in s.running && Outcome(status)
    ensures TerminalOk(Finished(s, id, status)) && TableOk(Finished(s, id, status))
  {
    var all := s.terminal + [id];
    assert id !in s.terminal;
    assert forall k :: k in all <==> k in s.terminal || k == id;
  }

  lemma FinishedIndex(s: Sched, id: Id, status: Status)
    requires RunningOk(s) && IndexOk(s) && id in s.running && Outcome(status)
    ensures IndexOk(Finished(s, id, status))
  {
    assert s.byTarget[s.running[id]] == id;
  }

  lemma FinishedLive(s: Sched, id: Id, status: Status)
    requires QueueOk(s) && RunningOk(s) && HistoryOk(s) && id in s.running
    ensures QueueOk(Finished(s, id, status)) && RunningOk(Finished(s, id, status)) && HistoryOk(Finished(s, id, status))
  {
    assert forall i :: 0 <= i < |s.queue| ==> s.queue[i].id != id;
    assert Finished(s, id, status).running.Keys == s.running.Keys - {id};
  }

  /** Eviction removes one finished job and nothing that lives. */
  lemma EvictTerminal(s: Sched)
    requires TerminalOk(s) && TableOk(s) && |s.terminal| > TERMINAL_JOB_LIMIT
    ensures TerminalOk(EvictOldest(s)) && TableOk(EvictOldest(s))
  {
    var t := EvictOldest(s);
    assert forall i :: 0 <= i < |t.terminal| ==> t.terminal[i] == s.terminal[i + 1];
    assert forall k :: k in s.terminal && k != s.terminal[0] ==> k in t.terminal;
  }

  lemma EvictLive(s: Sched)
    requires QueueOk(s) && RunningOk(s) && TerminalOk(s) && IndexOk(s) && HistoryOk(s)
    requires |s.terminal| > TERMINAL_JOB_LIMIT
    ensures QueueOk(EvictOldest(s)) && RunningOk(EvictOldest(s)) && IndexOk(EvictOldest(s)) && HistoryOk(EvictOldest(s))
  {
    var gone := s.terminal[0];
    assert gone !in s.running && forall i :: 0 <= i < |s.queue| ==> s.queue[i].id != gone;
  }

  lemma JoinKeeps(s: Sched, id: Id, status: Status)
    requires Inv(s) && id in s.running && Outcome(status)
    ensures Inv(Join(s, id, status))
  {
    FinishedLive(s, id, status);
    FinishedTerminal(s, id, status);
    FinishedIndex(s, id, status);
    if |Finished(s, id, status).terminal| > TERMINAL_JOB_LIMIT {
      EvictTerminal(Finished(s, id, status));
      EvictLive(Finished(s, id, status));
    }
  }

  // ---------------------------------------------------------------- runs

  datatype Event = Submitted(request: Request) | Joined(id: Id, status: Status)

  predicate Enabled(s: Sched, e: Event) {
    e.Joined? ==> e.id in s.running && Outcome(e.status)
  }

  /** One turn of the loop: an arm of the select, then the dispatch that opens the next turn. */
  function Step(s: Sched, e: Event): Sched
    requires Enabled(s, e)
  {
    Dispatch(match e
             case Submitted(r) => Submit(s, r).0
             case Joined(id, status) => Join(s, id, status))
  }

  predicate Legal(s: Sched, es: seq<Event>)
    decreases |es|
  {
    es == [] || (Enabled(s, es[0]) && Legal(Step(s, es[0]), es[1..]))
  }

  function Exec(s: Sched, es: seq<Event>): Sched
    requires Legal(s, es)
    decreases |es|
  {
    if es == [] then s else Exec(Step(s, es[0]), es[1..])
  }

  lemma StepKeeps(s: Sched, e: Event)
    requires Inv(s) && Enabled(s, e)
    ensures Inv(Step(s, e)) && NoIdleWorker(Step(s, e))
  {
    match e {
      case Submitted(r) =>
        SubmitKeeps(s, r);
        DispatchKeeps(Submit(s, r).0);
      case Joined(id, status) =>
        JoinKeeps(s, id, status);
        DispatchKeeps(Join(s, id, status));
    }
  }

  /** At every select point of every run the structures agree, no worker idles while work waits,
      and within each class work has started in submission order. */
  lemma {:induction false} AgreementOverRuns(s: Sched, es: seq<Event>)
    requires Inv(s) && NoIdleWorker(s) && Legal(s, es)
    ensures Inv(Exec(s, es)) && NoIdleWorker(Exec(s, es))
    decreases |es|
  {
    if es != [] {
      StepKeeps(s, es[0]);
      AgreementOverRuns(Step(s, es[0]), es[1..]);
    }
  }

  lemma StartAgrees(maxWorkers: nat)
    ensures Inv(Start(maxWorkers)) && NoIdleWorker(Start(maxWorkers)) && Start(maxWorkers).workers > 0
  {
  }

  /** The history misses no start: every running job is in it. */
  predicate StartsRecorded(s: Sched) {
    forall id :: id in s.running ==> id in s.freshStarts || id in s.retryStarts
  }

  lemma {:induction false} DispatchRecords(s: Sched)
    requires StartsRecorded(s)
    ensures StartsRecorded(Dispatch(s)) && s.freshStarts <= Dispatch(s).freshStarts
            && s.retryStarts <= Dispatch(s).retryStarts
    decreases |s.queue|
  {
    if |s.running| < s.workers && s.queue != [] {
      var q, t := s.queue[0], DispatchOne(s);
      assert if q.isRetry then t.retryStarts[|s.retryStarts|] == q.id else t.freshStarts[|s.freshStarts|] == q.id;
      DispatchRecords(t);
    }
  }

  lemma SubmitRecords(s: Sched, r: Request)
    requires StartsRecorded(s)
    ensures var t := Submit(s, r).0;
            StartsRecorded(t) && t.freshStarts == s.freshStarts && t.retryStarts == s.retryStarts
  {
    hide Insert;
  }

  lemma JoinRecords(s: Sched, id: Id, status: Status)
    requires StartsRecorded(s) && id in s.running
    ensures var t := Join(s, id, status);
            StartsRecorded(t) && t.freshStarts == s.freshStarts && t.retryStarts == s.retryStarts
  {
  }

  lemma StepRecords(s: Sched, e: Event)
    requires StartsRecorded(s) && Enabled(s, e)
    ensures StartsRecorded(Step(s, e))
    ensures s.freshStarts <= Step(s, e).freshStarts && s.retryStarts <= Step(s, e).retryStarts
  {
    hide Dispatch, Submit, Join, StartsRecorded;
    match e {
      case Submitted(r) =>
        SubmitRecords(s, r);
        DispatchRecords(Submit(s, r).0);
      case Joined(id, status) =>
        JoinRecords(s, id, status);
        DispatchRecords(Join(s, id, status));
    }
  }

  /** Over every run no start is missing from the history or taken back. */
  lemma {:induction false} StartsAreRecorded(s: Sched, es: seq<Event>)
    requires StartsRecorded(s) && Legal(s, es)
    ensures StartsRecorded(Exec(s, es))
    ensures s.freshStarts <= Exec(s, es).freshStarts && s.retryStarts <= Exec(s, es).retryStarts
    decreases |es|
  {
    if es != [] {
      StepRecords(s, es[0]);
      hide Step, StartsRecorded;
      StartsAreRecorded(Step(s, es[0]), es[1..]);
    }
  }

  // ---------------------------------------------------------------- lifecycle

  function Rank(s: Status): nat {
    if s.Waiting? then 0 else if s.Running? then 1 else 2
  }

  /** The only moves of a job: waiting to running, running to finished, waiting to cancelled. */
  predicate Move(a: Status, b: Status) {
    a == b || (a.Waiting? && b.Running?) || (a.Running? && b.Terminal()) || (a.Waiting? && b.Cancelled?)
  }

  predicate Moved(s: Sched, t: Sched) {
    && s.nextId <= t.nextId
    && (forall id :: id in s.jobs && id in t.jobs ==>
          t.jobs[id].target == s.jobs[id].target && Move(s.jobs[id].status, t.jobs[id].status))
    && (forall id :: id in s.jobs && id !in t.jobs ==> s.jobs[id].status.Terminal())
    && (forall id :: id in t.jobs && id !in s.jobs ==> s.nextId <= id)
  }

  /** Moves of the waiting jobs only. */
  predicate OnlyStarts(s: Sched, t: Sched) {
    && s.nextId == t.nextId && s.jobs.Keys == t.jobs.Keys
    && (forall id :: id in s.jobs ==>
          t.jobs[id] == s.jobs[id] || (s.jobs[id].status.Waiting? && t.jobs[id] == Job(Running, s.jobs[id].target)))
  }

  lemma DispatchOneStarts(s: Sched)
    requires QueueOk(s) && s.queue != []
    ensures OnlyStarts(s, DispatchOne(s))
  {
    assert s.queue[0].id in s.jobs;
  }

  lemma StartsCompose(s: Sched, t: Sched, u: Sched)
    requires OnlyStarts(s, t) && OnlyStarts(t, u)
    ensures OnlyStarts(s, u)
  {
  }

  lemma {:induction false} DispatchOnlyStarts(s: Sched)
    requires Inv(s)
    ensures OnlyStarts(s, Dispatch(s))
    decreases |s.queue|
  {
    if |s.running| < s.workers && s.queue != [] {
      DispatchOneKeeps(s);
      DispatchOneStarts(s);
      DispatchOnlyStarts(DispatchOne(s));
      StartsCompose(s, DispatchOne(s), Dispatch(s));
    }
  }

  /** Moves of at most one running job, and evictions of finished ones. */
  predicate OnlyFinishes(s: Sched, t: Sched) {
    && s.nextId <= t.nextId
    && (forall id :: id in s.jobs && id in t.jobs ==>
          || t.jobs[id] == s.jobs[id]
          || (s.jobs[id].status.Running? && t.jobs[id].status.Terminal() && t.jobs[id].target == s.jobs[id].target))
    && (forall id :: id in s.jobs && id !in t.jobs ==> s.jobs[id].status.Terminal())
    && (forall id :: id in t.jobs && id !in s.jobs ==> s.nextId <= id)
  }

  lemma JoinOnlyFinishes(s: Sched, id: Id, status: Status)
    requires TerminalOk(s) && RunningOk(s) && id in s.running && Outcome(status)
    ensures OnlyFinishes(s, Join(s, id, status))
  {
    if |s.terminal| >= TERMINAL_JOB_LIMIT {
      assert Finished(s, id, status).terminal[0] == s.terminal[0];
    }
  }

  lemma SubmitOnlyFinishes(s: Sched, r: Request)
    requires TableOk(s)
    ensures OnlyFinishes(s, Submit(s, r).0)
  {
  }

  /** A turn of the loop is an arm that keeps the invariant and finishes at most one job, then a dispatch. */
  lemma StepIs(s: Sched, e: Event) returns (t: Sched)
    requires Inv(s) && Enabled(s, e)
    ensures Step(s, e) == Dispatch(t) && Inv(t) && OnlyFinishes(s, t)
  {
    match e {
      case Submitted(r) =>
        SubmitKeeps(s, r);
        SubmitOnlyFinishes(s, r);
        t := Submit(s, r).0;
      case Joined(id, status) =>
        JoinKeeps(s, id, status);
        JoinOnlyFinishes(s, id, status);
        t := Join(s, id, status);
    }
  }

  lemma StepMoves(s: Sched, e: Event)
    requires Inv(s) && Enabled(s, e)
    ensures Moved(s, Step(s, e))
  {
    hide *;
    var t := StepIs(s, e);
    DispatchOnlyStarts(t);
    MovesCompose(s, t, Dispatch(t));
  }

  lemma MovesCompose(s: Sched, t: Sched, u: Sched)
    requires OnlyFinishes(s, t) && OnlyStarts(t, u)
    ensures Moved(s, u)
  {
  }

  /** Over a whole run a job keeps its target, never moves back, keeps a final status for good, and
      once evicted never returns under the same id. */
  predicate Onward(s: Sched, t: Sched) {
    && s.nextId <= t.nextId
    && (forall id :: id in s.jobs && id in t.jobs ==>
          && t.jobs[id].target == s.jobs[id].target
          && (s.jobs[id].status == t.jobs[id].status || Rank(s.jobs[id].status) < Rank(t.jobs[id].status)))
    && (forall id :: id in t.jobs && id !in s.jobs ==> s.nextId <= id)
  }

  lemma {:induction false} JobsOnlyMoveForward(s: Sched, es: seq<Event>)
    requires Inv(s) && Legal(s, es)
    ensures Onward(s, Exec(s, es))
    decreases |es|
  {
    if es != [] {
      var t := Step(s, es[0]);
      StepKeeps(s, es[0]);
      StepMoves(s, es[0]);
      JobsOnlyMoveForward(t, es[1..]);
      OnwardIsTransitive(s, t, Exec(t, es[1..]));
    }
  }

  lemma OnwardIsTransitive(s: Sched, t: Sched, u: Sched)
    requires TableOk(s) && Moved(s, t) && Onward(t, u)
    ensures Onward(s, u)
  {
    assert forall id :: id in s.jobs && id in u.jobs ==> id in t.jobs;
  }

  // ---------------------------------------------------------------- outcomes

  /** A finished job as its handler left it. */
  datatype Result = Result(id: Id, job: Job)

  function LastOf(ids: seq<Id>, n: nat): seq<Id> {
    if |ids| <= n then ids else ids[|ids| - n..]
  }

  /** The results of a run in the order they came: what each handler returned, for the target it had. */
  function Results(s: Sched, es: seq<Event>): seq<Result>
    requires Legal(s, es)
    decreases |es|
  {
    if es == [] then []
    else
      (match es[0]
       case Submitted(_) => []
       case Joined(id, status) => [Result(id, Job(status, s.running[id]))])
      + Results(Step(s, es[0]), es[1..])
  }

  function Ids(rs: seq<Result>): (ids: seq<Id>)
    ensures |ids| == |rs| && forall i :: 0 <= i < |rs| ==> ids[i] == rs[i].id
  {
    seq(|rs|, i requires 0 <= i < |rs| => rs[i].id)
  }

  lemma JoinLists(s: Sched, id: Id, status: Status)
    requires Inv(s) && id in s.running && Outcome(status)
    ensures var t := Join(s, id, status);
            && id in t.jobs && t.jobs[id] == Job(status, s.running[id])
            && t.terminal == LastOf(s.terminal + [id], TERMINAL_JOB_LIMIT)
            && (forall k :: k in s.jobs && k != id ==>
                  if k in t.jobs then t.jobs[k] == s.jobs[k]
                  else |s.terminal| == TERMINAL_JOB_LIMIT && k == s.terminal[0])
  {
    assert id !in s.terminal;
  }

  lemma {:induction false} DispatchKeepsTerminal(s: Sched)
    ensures Dispatch(s).terminal == s.terminal
    decreases |s.queue|
  {
    if |s.running| < s.workers && s.queue != [] {
      DispatchKeepsTerminal(DispatchOne(s));
    }
  }

  /** A finished job is listed under exactly what its handler returned, with the target it ran for. */
  lemma JoinedJobIs(s: Sched, id: Id, status: Status)
    requires Inv(s) && Enabled(s, Joined(id, status))
    ensures var t := Step(s, Joined(id, status)); id in t.jobs && t.jobs[id] == Job(status, s.running[id])
  {
    hide Dispatch, Join, Moved, OnlyFinishes;
    JoinLists(s, id, status);
    JoinKeeps(s, id, status);
    DispatchOnlyStarts(Join(s, id, status));
  }

  lemma LastOfJoin(a: seq<Id>, b: seq<Id>, n: nat)
    ensures LastOf(LastOf(a, n) + b, n) == LastOf(a + b, n)
  {
  }

  /** The terminal list after one turn of the loop. */
  lemma StepLists(s: Sched, e: Event)
    requires Inv(s) && Enabled(s, e)
    ensures Step(s, e).terminal
            == LastOf(s.terminal + IdsOf(e), TERMINAL_JOB_LIMIT)
  {
    match e {
      case Submitted(r) =>
        DispatchKeepsTerminal(Submit(s, r).0);
        assert s.terminal + [] == s.terminal;
      case Joined(id, status) =>
        JoinLists(s, id, status);
        DispatchKeepsTerminal(Join(s, id, status));
    }
  }

  function IdsOf(e: Event): seq<Id> {
    if e.Joined? then [e.id] else []
  }

  lemma ResultsFirst(s: Sched, es: seq<Event>)
    requires Legal(s, es) && es != []
    ensures Ids(Results(s, es)) == IdsOf(es[0]) + Ids(Results(Step(s, es[0]), es[1..]))
  {
    hide Step, Legal;
  }

  lemma LastOfLater(all: seq<Id>, one: seq<Id>, rest: seq<Id>, n: nat)
    ensures LastOf(LastOf(all + one, n) + rest, n) == LastOf(all + (one + rest), n)
  {
    LastOfJoin(all + one, rest, n);
    assert (all + one) + rest == all + (one + rest);
  }

  /** Over every run the terminal list is the last thousand to finish, in that order. */
  lemma {:induction false} LastToFinish(s: Sched, es: seq<Event>)
    requires Inv(s) && Legal(s, es)
    ensures Exec(s, es).terminal == LastOf(s.terminal + Ids(Results(s, es)), TERMINAL_JOB_LIMIT)
    decreases |es|
  {
    if es == [] {
      assert s.terminal + Ids([]) == s.terminal;
    } else {
      var e, t := es[0], Step(s, es[0]);
      assert Enabled(s, e) && Legal(t, es[1..]) && Exec(s, es) == Exec(t, es[1..]);
      ResultsFirst(s, es);
      hide *;
      StepKeeps(s, e);
      StepLists(s, e);
      LastToFinish(t, es[1..]);
      LastOfLater(s.terminal, IdsOf(e), Ids(Results(t, es[1..])), TERMINAL_JOB_LIMIT);
    }
  }

  /** Over every run a job keeps what its handler returned for as long as it is listed. */
  lemma {:induction false} OutcomesAreKept(s: Sched, es: seq<Event>, r: Result)
    requires Inv(s) && Legal(s, es) && r in Results(s, es)
    ensures r.job.status.Terminal()
    ensures r.id in Exec(s, es).jobs ==> Exec(s, es).jobs[r.id] == r.job
    decreases |es|
  {
    var e, t := es[0], Step(s, es[0]);
    FirstResult(s, es, r);
    assert Enabled(s, e) && Legal(t, es[1..]) && Exec(s, es) == Exec(t, es[1..]);
    hide *;
    StepKeeps(s, e);
    if r in Results(t, es[1..]) {
      OutcomesAreKept(t, es[1..], r);
    } else {
      JoinedJobIs(s, e.id, e.status);
      JobsOnlyMoveForward(t, es[1..]);
      OutcomeStays(t, Exec(t, es[1..]), r);
    }
  }

  lemma FirstResult(s: Sched, es: seq<Event>, r: Result)
    requires Legal(s, es) && r in Results(s, es)
    ensures es != [] && Enabled(s, es[0]) && Legal(Step(s, es[0]), es[1..])
    ensures r in Results(Step(s, es[0]), es[1..])
            || (es[0].Joined? && r == Result(es[0].id, Job(es[0].status, s.running[es[0].id]))
                && r.job.status.Terminal())
  {
    hide Step;
  }

  lemma OutcomeStays(t: Sched, u: Sched, r: Result)
    requires Onward(t, u) && r.id in t.jobs && t.jobs[r.id] == r.job && r.job.status.Terminal()
    ensures r.id in u.jobs ==> u.jobs[r.id] == r.job
  {
  }

  /** A finished job does not finish again. */
  lemma {:induction false} NoSecondResult(s: Sched, es: seq<Event>, id: Id)
    requires Inv(s) && Legal(s, es)
    requires id < s.nextId && (id in s.jobs ==> s.jobs[id].status.Terminal())
    ensures id !in Ids(Results(s, es))
    decreases |es|
  {
    if es != [] {
      var t := Step(s, es[0]);
      StepKeeps(s, es[0]);
      StepMoves(s, es[0]);
      ResultsFirst(s, es);
      hide Step, Results;
      NoSecondResult(t, es[1..], id);
      assert id !in IdsOf(es[0]);
    }
  }

  predicate Distinct(ids: seq<Id>) {
    forall i, j :: 0 <= i < j < |ids| ==> ids[i] != ids[j]
  }

  lemma DistinctCons(ids: seq<Id>, rest: seq<Id>)
    requires Distinct(rest) && |ids| <= 1 && forall id :: id in ids ==> id !in rest
    ensures Distinct(ids + rest)
  {
    var all := ids + rest;
    forall i, j | 0 <= i < j < |all|
      ensures all[i] != all[j]
    {
      assert all[j] == rest[j - |ids|] && all[j] in rest;
    }
  }

  lemma {:induction false} JobsFinishOnce(s: Sched, es: seq<Event>)
    requires Inv(s) && Legal(s, es)
    ensures Distinct(Ids(Results(s, es)))
    decreases |es|
  {
    if es != [] {
      var e, t := es[0], Step(s, es[0]);
      StepKeeps(s, e);
      ResultsFirst(s, es);
      JobsFinishOnce(t, es[1..]);
      if e.Joined? {
        JoinedJobIs(s, e.id, e.status);
        NoSecondResult(t, es[1..], e.id);
      }
      hide Step, Results;
      DistinctCons(IdsOf(e), Ids(Results(t, es[1..])));
    }
  }

  lemma {:induction false} KeptOverRuns(s: Sched, es: seq<Event>)
    requires Inv(s) && Legal(s, es)
    ensures Inv(Exec(s, es))
    decreases |es|
  {
    if es != [] {
      StepKeeps(s, es[0]);
      KeptOverRuns(Step(s, es[0]), es[1..]);
    }
  }

  lemma InLastOf(ids: seq<Id>, n: nat, i: nat)
    requires Distinct(ids) && i < |ids|
    ensures ids[i] in LastOf(ids, n) <==> i + n >= |ids|
  {
    if i + n >= |ids| && |ids| > n {
      assert LastOf(ids, n)[i - (|ids| - n)] == ids[i];
    }
  }

  /** From the start on, the finished jobs in the table are exactly the last thousand results of the
      run, each as its handler left it. */
  lemma TableIsLastResults(maxWorkers: nat, es: seq<Event>)
    requires Legal(Start(maxWorkers), es)
    ensures var t, rs := Exec(Start(maxWorkers), es), Results(Start(maxWorkers), es);
            && t.terminal == LastOf(Ids(rs), TERMINAL_JOB_LIMIT)
            && (forall i :: 0 <= i < |rs| ==> (rs[i].id in t.jobs <==> i + TERMINAL_JOB_LIMIT >= |rs|))
            && (forall i :: 0 <= i < |rs| && rs[i].id in t.jobs ==> t.jobs[rs[i].id] == rs[i].job)
            && (forall id :: id in t.jobs && t.jobs[id].status.Terminal() ==> id in Ids(rs))
  {
    var s := Start(maxWorkers);
    var t, rs := Exec(s, es), Results(s, es);
    StartAgrees(maxWorkers);
    hide *;
    NothingBefore(s.terminal, Ids(rs));
    LastToFinish(s, es);
    AgreementOverRuns(s, es);
    JobsFinishOnce(s, es);
    forall i | 0 <= i < |rs|
      ensures rs[i].id in t.jobs <==> i + TERMINAL_JOB_LIMIT >= |rs|
      ensures rs[i].id in t.jobs ==> t.jobs[rs[i].id] == rs[i].job
    {
      ResultIsListed(s, es, i);
    }
    TerminalIsListed(t);
    LastOfIsWithin(Ids(rs), TERMINAL_JOB_LIMIT);
  }

  lemma LastOfIsWithin(ids: seq<Id>, n: nat)
    ensures forall id :: id in LastOf(ids, n) ==> id in ids
  {
  }

  /** The terminal list holds exactly the finished jobs of the table. */
  lemma TerminalIsListed(t: Sched)
    requires Inv(t)
    ensures forall id :: id in t.terminal <==> id in t.jobs && t.jobs[id].status.Terminal()
  {
    StatusesAgree(t);
    assert forall id :: id in ToSet(t.terminal) <==> id in t.terminal;
  }

  lemma ResultIsListed(s: Sched, es: seq<Event>, i: nat)
    requires Inv(s) && s.terminal == [] && Legal(s, es) && i < |Results(s, es)|
    ensures var t, r := Exec(s, es), Results(s, es)[i];
            && (r.id in t.jobs <==> i + TERMINAL_JOB_LIMIT >= |Results(s, es)|)
            && (r.id in t.jobs ==> t.jobs[r.id] == r.job)
  {
    var t, rs := Exec(s, es), Results(s, es);
    hide *;
    NothingBefore(s.terminal, Ids(rs));
    LastToFinish(s, es);
    JobsFinishOnce(s, es);
    InLastOf(Ids(rs), TERMINAL_JOB_LIMIT, i);
    assert rs[i] in rs;
    OutcomesAreKept(s, es, rs[i]);
    ListedIff(s, es, t, rs[i].id);
  }

  lemma NothingBefore(none: seq<Id>, ids: seq<Id>)
    requires none == []
    ensures none + ids == ids
  {
  }

  lemma ListedIff(s: Sched, es: seq<Event>, t: Sched, id: Id)
    requires Inv(s) && Legal(s, es) && t == Exec(s, es)
    requires id in t.jobs ==> t.jobs[id].status.Terminal()
    ensures id in t.jobs <==> id in t.terminal
  {
    hide *;
    KeptOverRuns(s, es);
    TerminalIsListed(t);
  }

  // ---------------------------------------------------------------- shutdown

  lemma {:induction false} CancelAllIs(jobs: map<Id, Job>, ids: seq<Id>)
    ensures CancelAll(jobs, ids).Keys == jobs.Keys
    ensures forall id :: id in jobs ==>
              CancelAll(jobs, ids)[id] == if id in ids then Job(Cancelled, jobs[id].target) else jobs[id]
  {
    if ids != [] {
      CancelAllIs(SetStatus(jobs, ids[0], Cancelled), ids[1..]);
    }
  }

  /** After cancellation every job in the table is final: the live ones were cancelled, the others
      kept their status, and the terminal list holds them all. */
  lemma ShutdownLeavesNothingLive(s: Sched, order: seq<Id>)
    requires Inv(s) && ToSet(order) == s.active
    ensures var t := Shutdown(s, order);
            && t.queue == [] && t.active == {} && t.running == map[] && t.jobs.Keys == s.jobs.Keys
            && (forall id :: id in s.jobs ==>
                  t.jobs[id] == if s.jobs[id].status.Terminal() then s.jobs[id] else Job(Cancelled, s.jobs[id].target))
            && ToSet(t.terminal) == t.jobs.Keys && s.terminal + QueueIds(s.queue) <= t.terminal
  {
    var ids := QueueIds(s.queue) + order;
    CancelAllIs(s.jobs, ids);
    LiveIds(s, order);
    ListedAtShutdown(s, ids);
  }

  lemma ListedAtShutdown(s: Sched, ids: seq<Id>)
    requires Agree(s)
    requires forall id :: id in ids <==> id in s.jobs && !s.jobs[id].status.Terminal()
    ensures ToSet(s.terminal + ids) == s.jobs.Keys
  {
    StatusesAgree(s);
    forall id
      ensures id in ToSet(s.terminal + ids) <==> id in s.jobs
    {
      assert id in s.terminal + ids <==> id in s.terminal || id in ids;
      assert id in ToSet(s.terminal) <==> id in s.terminal;
    }
  }

  lemma LiveIds(s: Sched, order: seq<Id>)
    requires Agree(s) && ToSet(order) == s.active
    ensures forall id :: id in QueueIds(s.queue) + order <==> id in s.jobs && !s.jobs[id].status.Terminal()
  {
    StatusesAgree(s);
    IdsAreWaiting(s.queue);
    forall id
      ensures id in QueueIds(s.queue) + order <==> id in s.jobs && !s.jobs[id].status.Terminal()
    {
      assert id in QueueIds(s.queue) <==> id in WaitingIds(s.queue);
      assert id in order <==> id in s.active;
    }
  }
}
