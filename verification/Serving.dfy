/** Dispatcher and worker pool together. A thread that holds a request with a share ID goes through the pool's Submit,
    the send of which is the hand-over; a queue that starts a task starts the request's processing, and finishes the
    task once the request is done. A state is the history of the steps of either machine, so that what is proved about
    the runs of one of them holds of its part here. */
module Serving {
  import opened Base
  import D = Dispatcher
  import P = WorkerPool

  datatype Config = Config(server: D.Config, pool: P.Config)

  datatype State = State(ds: seq<D.Step>, ps: seq<P.Step>)

  datatype Step =
    | Own(step: D.Step)               // anything that does not involve the pool
    | Load(t: nat)
    | Create(t: nat)
    | Count(t: nat)
    | Enqueue(t: nat)
    | Start(q: nat)
    | Finish(q: nat)

  ghost function Server(cfg: Config, s: State): D.State { D.Run(cfg.server, s.ds) }

  ghost function Pool(cfg: Config, s: State): P.State { P.Run(cfg.pool, cfg.server.threads, s.ps) }

  /** The request goes through the pool. */
  ghost predicate Pooled(cfg: Config, r: nat) { cfg.server.pool && D.Share(cfg.server, r) != [] }

  ghost function TaskOf(cfg: Config, r: nat): P.Task { P.Task(D.Share(cfg.server, r), r) }

  /** Thread t holds a request that goes through the pool. */
  ghost predicate HoldsPooled(cfg: Config, d: D.State, t: nat) {
    D.ThreadHolds(cfg.server, d, t) && Pooled(cfg, d.threads[t].slot.value)
  }

  /** The task that processes request r. */
  ghost function TaskIndex(d: D.State, r: nat): nat {
    if r < |d.places| && d.places[r].InTask? then d.places[r].i else 0
  }

  ghost predicate IsDone(d: D.State, r: nat) {
    r < |d.places| && d.places[r].InTask? && d.places[r].i < |d.tasks| && d.tasks[d.places[r].i].pc.Done?
  }

  ghost predicate AsideOfPool(cfg: Config, d: D.State, step: D.Step) {
    !step.StartPooled? && !(step.HandOver? && HoldsPooled(cfg, d, step.t))
  }

  /** What a step is for the server, if anything. */
  ghost function ServerStep(cfg: Config, d: D.State, p: P.State, step: Step): Option<D.Step> {
    match step
    case Own(x) => if AsideOfPool(cfg, d, x) then Some(x) else None
    case Enqueue(t) => if P.DoEnqueue(cfg.pool, p, t) != p then Some(D.HandOver(t)) else None
    case Start(q) =>
      if P.CanStart(p, q) then Some(D.StartPooled(TaskIndex(d, p.queues[q].chan[0].job))) else None
    case _ => None
  }

  /** What a step is for the pool, if anything. */
  ghost function PoolStep(cfg: Config, d: D.State, p: P.State, step: Step): Option<P.Step> {
    match step
    case Own(_) => None
    case Load(t) =>
      if HoldsPooled(cfg, d, t) && t < |p.submitters| && p.submitters[t].Idle? then
        Some(P.Load(t, TaskOf(cfg, d.threads[t].slot.value)))
      else None
    case Create(t) => Some(P.Create(t))
    case Count(t) => Some(P.Count(t))
    case Enqueue(t) => if P.DoEnqueue(cfg.pool, p, t) != p then Some(P.Enqueue(t)) else None
    case Start(q) => if P.CanStart(p, q) then Some(P.Start(q)) else None
    case Finish(q) =>
      if q < |p.queues| && p.queues[q].running.Some? && IsDone(d, p.queues[q].running.value.job) then Some(P.Finish(q))
      else None
  }

  ghost function Append<T>(s: seq<T>, x: Option<T>): seq<T> { if x.Some? then s + [x.value] else s }

  /** One step; a step that is not possible changes nothing. */
  ghost function Do(cfg: Config, s: State, step: Step): State {
    var d, p := Server(cfg, s), Pool(cfg, s);
    State(Append(s.ds, ServerStep(cfg, d, p, step)), Append(s.ps, PoolStep(cfg, d, p, step)))
  }

  ghost function Run(cfg: Config, steps: seq<Step>): State {
    if steps == [] then State([], []) else Do(cfg, Run(cfg, steps[..|steps| - 1]), steps[|steps| - 1])
  }

  ghost function ServerAfter(cfg: Config, d: D.State, p: P.State, step: Step): D.State {
    var x := ServerStep(cfg, d, p, step);
    if x.Some? then D.Do(cfg.server, d, x.value) else d
  }

  ghost function PoolAfter(cfg: Config, d: D.State, p: P.State, step: Step): P.State {
    var x := PoolStep(cfg, d, p, step);
    if x.Some? then P.Do(cfg.pool, p, x.value) else p
  }

  /** The two parts of a step. */
  lemma Parts(cfg: Config, s: State, step: Step)
    ensures Server(cfg, Do(cfg, s, step)) == ServerAfter(cfg, Server(cfg, s), Pool(cfg, s), step)
    ensures Pool(cfg, Do(cfg, s, step)) == PoolAfter(cfg, Server(cfg, s), Pool(cfg, s), step)
  {
    var s1 := Do(cfg, s, step);
    if s1.ds != s.ds { assert s1.ds[..|s1.ds| - 1] == s.ds; }
    if s1.ps != s.ps { assert s1.ps[..|s1.ps| - 1] == s.ps; }
  }

  // ---------- how the two machines are linked ----------

  /** The pool task is that of a request which has been handed over to the pool. */
  ghost predicate Known(cfg: Config, d: D.State, task: P.Task) {
    && task.job < |d.places| && d.places[task.job].InTask? && d.places[task.job].i < |d.tasks|
    && d.tasks[d.places[task.job].i].pooled && task == TaskOf(cfg, task.job)
  }

  /** A Submit is under way for the request its thread holds. */
  ghost predicate SubmitRight(cfg: Config, d: D.State, w: P.Submitter, t: nat) {
    !w.Idle? ==> HoldsPooled(cfg, d, t) && w.task == TaskOf(cfg, d.threads[t].slot.value)
  }

  ghost predicate Running(p: P.State, task: P.Task) {
    exists q :: 0 <= q < |p.queues| && p.queues[q].running == Some(task)
  }

  ghost predicate Active(task: D.Task) { task.pooled && !task.pc.Waiting? && !task.pc.Done? }

  ghost predicate Linked(cfg: Config, d: D.State, p: P.State) {
    && (forall t :: 0 <= t < |p.submitters| ==> SubmitRight(cfg, d, p.submitters[t], t))
    && (forall q, j :: 0 <= q < |p.queues| && 0 <= j < |p.queues[q].chan| ==> Known(cfg, d, p.queues[q].chan[j]))
    && (forall i :: 0 <= i < |d.tasks| && Active(d.tasks[i]) ==> Running(p, TaskOf(cfg, d.tasks[i].req)))
  }

  lemma OwnKeepsHolding(cfg: Config, d: D.State, x: D.Step, t: nat)
    requires HoldsPooled(cfg, d, t) && AsideOfPool(cfg, d, x)
    ensures HoldsPooled(cfg, D.Do(cfg.server, d, x), t) && D.Do(cfg.server, d, x).threads[t] == d.threads[t]
  {
    if !x.Take? && !x.Reject? && !x.HandOver? && x.i < |d.tasks| { D.TaskStepIsLocal(cfg.server, d, x, x.i); }
  }

  /** Requests that were handed over stay so, whatever the server does. */
  lemma StaysKnown(cfg: Config, d: D.State, x: D.Step, task: P.Task)
    requires D.WellPlaced(cfg.server, d) && Known(cfg, d, task)
    ensures Known(cfg, D.Do(cfg.server, d, x), task)
  {
    if !x.Take? && !x.Reject? && !x.HandOver? && x.i < |d.tasks| { D.TaskStepIsLocal(cfg.server, d, x, x.i); }
  }

  /** Only StartPooled makes a pool task active. */
  lemma WasActive(cfg: Config, d: D.State, x: D.Step, i: nat)
    requires i < |D.Do(cfg.server, d, x).tasks| && Active(D.Do(cfg.server, d, x).tasks[i])
    ensures i < |d.tasks| && D.Do(cfg.server, d, x).tasks[i].req == d.tasks[i].req
    ensures Active(d.tasks[i]) || x == D.StartPooled(i)
  {
    if !x.Take? && !x.Reject? && !x.HandOver? && x.i < |d.tasks| { D.TaskStepIsLocal(cfg.server, d, x, x.i); }
  }

  lemma OwnKeepsLinked(cfg: Config, d: D.State, p: P.State, x: D.Step)
    requires D.WellPlaced(cfg.server, d) && Linked(cfg, d, p) && AsideOfPool(cfg, d, x)
    ensures Linked(cfg, D.Do(cfg.server, d, x), p)
  {
    var d1 := D.Do(cfg.server, d, x);
    forall t | 0 <= t < |p.submitters| ensures SubmitRight(cfg, d1, p.submitters[t], t) {
      if !p.submitters[t].Idle? { OwnKeepsHolding(cfg, d, x, t); }
    }
    forall q, j | 0 <= q < |p.queues| && 0 <= j < |p.queues[q].chan| ensures Known(cfg, d1, p.queues[q].chan[j]) {
      StaysKnown(cfg, d, x, p.queues[q].chan[j]);
    }
    forall i | 0 <= i < |d1.tasks| && Active(d1.tasks[i]) ensures Running(p, TaskOf(cfg, d1.tasks[i].req)) {
      WasActive(cfg, d, x, i);
    }
  }

  /** The first steps of a Submit touch neither channels nor running tasks. */
  ghost predicate SameWork(p: P.State, p1: P.State) {
    && |p.queues| <= |p1.queues|
    && (forall q :: 0 <= q < |p.queues| ==>
          p1.queues[q].chan == p.queues[q].chan && p1.queues[q].running == p.queues[q].running)
    && (forall q :: |p.queues| <= q < |p1.queues| ==> p1.queues[q].chan == [])
  }

  lemma SameWorkKeepsLinked(cfg: Config, d: D.State, p: P.State, p1: P.State)
    requires Linked(cfg, d, p) && SameWork(p, p1)
    requires forall t :: 0 <= t < |p1.submitters| ==> SubmitRight(cfg, d, p1.submitters[t], t)
    ensures Linked(cfg, d, p1)
  {
    forall i | 0 <= i < |d.tasks| && Active(d.tasks[i]) ensures Running(p1, TaskOf(cfg, d.tasks[i].req)) {
      var q :| 0 <= q < |p.queues| && p.queues[q].running == Some(TaskOf(cfg, d.tasks[i].req));
      assert p1.queues[q].running == p.queues[q].running;
    }
  }

  lemma SubmitKeepsLinked(cfg: Config, d: D.State, p: P.State, x: P.Step)
    requires Linked(cfg, d, p) && (x.Load? || x.Create? || x.Count?)
    requires x.Load? ==> HoldsPooled(cfg, d, x.i) && x.task == TaskOf(cfg, d.threads[x.i].slot.value)
    ensures Linked(cfg, d, P.Do(cfg.pool, p, x))
  {
    SameWorkKeepsLinked(cfg, d, p, P.Do(cfg.pool, p, x));
  }

  /** The hand-over of a request that goes through the pool. */
  lemma HandOverEffect(cfg: Config, d: D.State, t: nat)
    requires D.WellPlaced(cfg.server, d) && HoldsPooled(cfg, d, t)
    ensures var d1, r := D.Do(cfg.server, d, D.HandOver(t)), d.threads[t].slot.value;
            && Known(cfg, d1, TaskOf(cfg, r))
            && forall u :: 0 <= u < |d.threads| && u != t && HoldsPooled(cfg, d, u) ==>
                 HoldsPooled(cfg, d1, u) && d1.threads[u] == d.threads[u]
  {
  }

  lemma EnqueueKeepsLinked(cfg: Config, d: D.State, p: P.State, t: nat)
    requires D.WellPlaced(cfg.server, d) && Linked(cfg, d, p) && P.DoEnqueue(cfg.pool, p, t) != p
    ensures Linked(cfg, D.Do(cfg.server, d, D.HandOver(t)), P.DoEnqueue(cfg.pool, p, t))
  {
    var d1, p1, x := D.Do(cfg.server, d, D.HandOver(t)), P.DoEnqueue(cfg.pool, p, t), D.HandOver(t);
    assert SubmitRight(cfg, d, p.submitters[t], t);
    HandOverEffect(cfg, d, t);
    forall u | 0 <= u < |p1.submitters| ensures SubmitRight(cfg, d1, p1.submitters[u], u) {
      assert u != t ==> SubmitRight(cfg, d, p.submitters[u], u);
    }
    forall q, j | 0 <= q < |p1.queues| && 0 <= j < |p1.queues[q].chan| ensures Known(cfg, d1, p1.queues[q].chan[j]) {
      if j < |p.queues[q].chan| {
        assert p1.queues[q].chan[j] == p.queues[q].chan[j];
        StaysKnown(cfg, d, x, p.queues[q].chan[j]);
      }
    }
    forall i | 0 <= i < |d1.tasks| && Active(d1.tasks[i]) ensures Running(p1, TaskOf(cfg, d1.tasks[i].req)) {
      WasActive(cfg, d, x, i);
      StillRunning(p, p1, TaskOf(cfg, d.tasks[i].req));
    }
  }

  lemma StillRunning(p: P.State, p1: P.State, task: P.Task)
    requires Running(p, task) && |p.queues| <= |p1.queues|
    requires forall q :: 0 <= q < |p.queues| && p.queues[q].running == Some(task) ==> p1.queues[q].running == Some(task)
    ensures Running(p1, task)
  {
    var q :| 0 <= q < |p.queues| && p.queues[q].running == Some(task);
    assert p1.queues[q].running == Some(task);
  }

  lemma StartKeepsLinked(cfg: Config, d: D.State, p: P.State, q: nat)
    requires D.WellPlaced(cfg.server, d) && Linked(cfg, d, p) && P.CanStart(p, q)
    ensures Linked(cfg, D.Do(cfg.server, d, D.StartPooled(TaskIndex(d, p.queues[q].chan[0].job))), P.DoStart(p, q))
  {
    var task := p.queues[q].chan[0];
    var x, p1 := D.StartPooled(TaskIndex(d, task.job)), P.DoStart(p, q);
    var d1 := D.Do(cfg.server, d, x);
    assert Known(cfg, d, task);
    forall t | 0 <= t < |p1.submitters| ensures SubmitRight(cfg, d1, p1.submitters[t], t) {
      assert SubmitRight(cfg, d, p.submitters[t], t);
      D.TaskStepIsLocal(cfg.server, d, x, x.i);
    }
    forall k, j | 0 <= k < |p1.queues| && 0 <= j < |p1.queues[k].chan| ensures Known(cfg, d1, p1.queues[k].chan[j]) {
      var chan := p.queues[k].chan;
      assert p1.queues[k].chan[j] == if k == q then chan[j + 1] else chan[j];
      StaysKnown(cfg, d, x, p1.queues[k].chan[j]);
    }
    forall i | 0 <= i < |d1.tasks| && Active(d1.tasks[i]) ensures Running(p1, TaskOf(cfg, d1.tasks[i].req)) {
      WasActive(cfg, d, x, i);
      if x == D.StartPooled(i) {
        assert p1.queues[q].running == Some(task);
      } else {
        StillRunning(p, p1, TaskOf(cfg, d.tasks[i].req));
      }
    }
  }

  lemma FinishKeepsLinked(cfg: Config, d: D.State, p: P.State, q: nat)
    requires D.WellPlaced(cfg.server, d) && Linked(cfg, d, p)
    requires q < |p.queues| && p.queues[q].running.Some? && IsDone(d, p.queues[q].running.value.job)
    ensures Linked(cfg, d, P.DoFinish(p, q))
  {
    var p1 := P.DoFinish(p, q);
    forall i | 0 <= i < |d.tasks| && Active(d.tasks[i]) ensures Running(p1, TaskOf(cfg, d.tasks[i].req)) {
      assert p.queues[q].running != Some(TaskOf(cfg, d.tasks[i].req));
      StillRunning(p, p1, TaskOf(cfg, d.tasks[i].req));
    }
  }

  lemma SubmitStepKeepsLinked(cfg: Config, d: D.State, p: P.State, step: Step)
    requires Linked(cfg, d, p) && (step.Load? || step.Create? || step.Count?)
    ensures Linked(cfg, d, PoolAfter(cfg, d, p, step))
  {
    var y := PoolStep(cfg, d, p, step);
    if y.Some? { SubmitKeepsLinked(cfg, d, p, y.value); }
  }

  lemma QueueStepKeepsLinked(cfg: Config, d: D.State, p: P.State, step: Step)
    requires D.WellPlaced(cfg.server, d) && Linked(cfg, d, p) && (step.Start? || step.Finish?)
    ensures Linked(cfg, ServerAfter(cfg, d, p, step), PoolAfter(cfg, d, p, step))
  {
    if PoolStep(cfg, d, p, step).Some? {
      if step.Start? { StartKeepsLinked(cfg, d, p, step.q); } else { FinishKeepsLinked(cfg, d, p, step.q); }
    }
  }

  lemma StepKeepsLinked(cfg: Config, d: D.State, p: P.State, step: Step)
    requires D.WellPlaced(cfg.server, d) && Linked(cfg, d, p)
    ensures Linked(cfg, ServerAfter(cfg, d, p, step), PoolAfter(cfg, d, p, step))
  {
    match step {
      case Own(x) => if AsideOfPool(cfg, d, x) { OwnKeepsLinked(cfg, d, p, x); }
      case Enqueue(t) => if P.DoEnqueue(cfg.pool, p, t) != p { EnqueueKeepsLinked(cfg, d, p, t); }
      case Start(_) => QueueStepKeepsLinked(cfg, d, p, step);
      case Finish(_) => QueueStepKeepsLinked(cfg, d, p, step);
      case _ => SubmitStepKeepsLinked(cfg, d, p, step);
    }
  }

  lemma {:induction false} RunIsLinked(cfg: Config, steps: seq<Step>)
    ensures Linked(cfg, Server(cfg, Run(cfg, steps)), Pool(cfg, Run(cfg, steps)))
  {
    if steps != [] {
      var s, step := Run(cfg, steps[..|steps| - 1]), steps[|steps| - 1];
      RunIsLinked(cfg, steps[..|steps| - 1]);
      D.RunIsGood(cfg.server, s.ds);
      StepKeepsLinked(cfg, Server(cfg, s), Pool(cfg, s), step);
      Parts(cfg, s, step);
    }
  }

  // ---------- one share at a time, in order ----------

  /** The calls of the handler for requests of a share, as the pool's tasks. */
  ghost function CallTasks(cfg: Config, calls: seq<D.Call>, share: Bytes): seq<P.Task> {
    if calls == [] then []
    else
      var r := calls[|calls| - 1].req;
      CallTasks(cfg, calls[..|calls| - 1], share) + if D.Share(cfg.server, r) == share then [TaskOf(cfg, r)] else []
  }

  /** `a` is what is left of `b` when some elements are dropped. */
  ghost predicate Among(a: seq<P.Task>, b: seq<P.Task>)
    decreases |b|
  {
    || a == []
    || (b != [] && (|| Among(a, b[..|b| - 1])
                    || (a[|a| - 1] == b[|b| - 1] && Among(a[..|a| - 1], b[..|b| - 1]))))
  }

  lemma AmongMore(a: seq<P.Task>, b: seq<P.Task>, x: P.Task)
    requires Among(a, b)
    ensures Among(a, b + [x]) && Among(a + [x], b + [x])
  {
    assert (b + [x])[..|b|] == b && (a + [x])[..|a|] == a;
  }

  lemma {:induction false} AmongPrefix(a: seq<P.Task>, b: seq<P.Task>, c: seq<P.Task>)
    requires Among(a, b) && b <= c
    ensures Among(a, c)
    decreases |c|
  {
    if b != c {
      var before, last := c[..|c| - 1], c[|c| - 1];
      assert b <= before && before + [last] == c;
      AmongPrefix(a, b, before);
      AmongMore(a, before, last);
    }
  }

  lemma {:induction false} Uncalled(cfg: Config, calls: seq<D.Call>, share: Bytes, r: nat)
    requires D.CallsFor(calls, r) == 0
    ensures TaskOf(cfg, r) !in CallTasks(cfg, calls, share)
  {
    if calls != [] { Uncalled(cfg, calls[..|calls| - 1], share, r); }
  }

  /** The task of a clean share that is running is the last one started. */
  lemma RunningIsLast(pool: P.Config, p: P.State, task: P.Task)
    requires P.Invariant(pool, p, pool.key(task.share)) && Running(p, task)
    ensures LastStarted(p, task)
  {
    var key := pool.key(task.share);
    var finished := P.OfKey(pool, p.finished, key);
    RunningIsActive(pool, p, task);
    P.OfShareOfKey(pool, p.started, task.share);
    P.OfShareConcat(finished, [task], task.share);
    OfShareOne(task);
    assert P.OfShare(p.started, task.share) == P.OfShare(finished, task.share) + [task];
  }

  lemma RunningIsActive(pool: P.Config, p: P.State, task: P.Task)
    requires P.Labelled(pool, p) && P.Single(p, pool.key(task.share)) && Running(p, task)
    ensures P.Active(p, pool.key(task.share)) == [task]
  {
    var q :| 0 <= q < |p.queues| && p.queues[q].running == Some(task);
    assert P.Belongs(pool, p.queues[q]);
  }

  lemma OfShareOne(task: P.Task)
    ensures P.OfShare([task], task.share) == [task]
  {
    assert [task][..0] == [];
  }

  ghost predicate InOrder(cfg: Config, d: D.State, p: P.State, share: Bytes) {
    Among(CallTasks(cfg, d.calls, share), P.OfShare(p.started, share))
  }

  lemma OnlyChecksCall(cfg: Config, d: D.State, x: D.Step)
    ensures var d1 := D.Do(cfg.server, d, x);
            || d1.calls == d.calls
            || (&& x.Check? && x.i < |d.tasks| && d.tasks[x.i].pc.Ready?
                && d1.calls == d.calls + [D.Call(d.tasks[x.i].req, x.now)])
  {
  }

  lemma CallTasksMore(cfg: Config, calls: seq<D.Call>, x: D.Call, share: Bytes)
    ensures var before := CallTasks(cfg, calls, share);
            CallTasks(cfg, calls + [x], share)
            == if D.Share(cfg.server, x.req) == share then before + [TaskOf(cfg, x.req)] else before
  {
    assert (calls + [x])[..|calls|] == calls;
  }

  lemma OfShareMore(tasks: seq<P.Task>, x: P.Task, share: Bytes)
    ensures P.OfShare(tasks + [x], share)
            == if x.share == share then P.OfShare(tasks, share) + [x] else P.OfShare(tasks, share)
  {
    assert (tasks + [x])[..|tasks|] == tasks;
  }

  /** A step of the server that calls the handler for the share calls it for the task that is running. */
  lemma ServerKeepsOrder(cfg: Config, d: D.State, p: P.State, x: D.Step, share: Bytes)
    requires cfg.server.pool && share != [] && D.Good(cfg.server, d) && Linked(cfg, d, p)
    requires P.Invariant(cfg.pool, p, cfg.pool.key(share)) && InOrder(cfg, d, p, share)
    ensures InOrder(cfg, D.Do(cfg.server, d, x), p, share)
  {
    OnlyChecksCall(cfg, d, x);
    if D.Do(cfg.server, d, x).calls != d.calls {
      var r := d.tasks[x.i].req;
      CallTasksMore(cfg, d.calls, D.Call(r, x.now), share);
      if D.Share(cfg.server, r) == share {
        assert D.TaskRight(cfg.server, d.tasks[x.i]);
        ActiveRuns(cfg, d, p, x.i);
        RunningIsLast(cfg.pool, p, TaskOf(cfg, r));
        CallInOrder(cfg, d, p, x.i, share);
      }
    }
  }

  lemma NotCalledYet(cfg: Config, d: D.State, i: nat)
    requires D.Good(cfg.server, d) && i < |d.tasks| && d.tasks[i].pc.Ready?
    ensures D.CallsFor(d.calls, d.tasks[i].req) == 0
  {
    assert D.TaskRight(cfg.server, d.tasks[i]);
    assert !D.WasCalled(d, d.tasks[i].req);
  }

  lemma ActiveRuns(cfg: Config, d: D.State, p: P.State, i: nat)
    requires Linked(cfg, d, p) && i < |d.tasks| && Active(d.tasks[i])
    ensures Running(p, TaskOf(cfg, d.tasks[i].req))
  {
  }

  ghost predicate LastStarted(p: P.State, task: P.Task) {
    var started := P.OfShare(p.started, task.share);
    started != [] && started[|started| - 1] == task
  }

  /** A call for the task of the share that was started last. */
  lemma CallInOrder(cfg: Config, d: D.State, p: P.State, i: nat, share: Bytes)
    requires D.Good(cfg.server, d) && InOrder(cfg, d, p, share) && i < |d.tasks| && d.tasks[i].pc.Ready?
    requires D.Share(cfg.server, d.tasks[i].req) == share && LastStarted(p, TaskOf(cfg, d.tasks[i].req))
    ensures Among(CallTasks(cfg, d.calls, share) + [TaskOf(cfg, d.tasks[i].req)], P.OfShare(p.started, share))
  {
    NotCalledYet(cfg, d, i);
    Uncalled(cfg, d.calls, share, d.tasks[i].req);
    AmongLast(CallTasks(cfg, d.calls, share), P.OfShare(p.started, share), TaskOf(cfg, d.tasks[i].req));
  }

  lemma AmongLast(a: seq<P.Task>, b: seq<P.Task>, x: P.Task)
    requires Among(a, b) && x !in a && b != [] && b[|b| - 1] == x
    ensures Among(a + [x], b)
  {
    assert a != [] ==> a[|a| - 1] in a;
    assert Among(a, b[..|b| - 1]);
    assert (a + [x])[..|a|] == a;
  }

  lemma PoolKeepsOrder(cfg: Config, d: D.State, p: P.State, y: P.Step, share: Bytes)
    requires InOrder(cfg, d, p, share)
    ensures InOrder(cfg, d, P.Do(cfg.pool, p, y), share)
  {
    var p1 := P.Do(cfg.pool, p, y);
    if y.Start? && P.CanStart(p, y.q) {
      var task := p.queues[y.q].chan[0];
      OfShareMore(p.started, task, share);
      AmongMore(CallTasks(cfg, d.calls, share), P.OfShare(p.started, share), task);
    } else {
      assert p1.started == p.started;
    }
  }

  lemma {:induction false} RunInOrder(cfg: Config, steps: seq<Step>, share: Bytes)
    requires cfg.server.pool && share != []
    requires P.CleanFor(cfg.pool, cfg.server.threads, Run(cfg, steps).ps, cfg.pool.key(share))
    ensures InOrder(cfg, Server(cfg, Run(cfg, steps)), Pool(cfg, Run(cfg, steps)), share)
  {
    if steps != [] {
      var before, step := steps[..|steps| - 1], steps[|steps| - 1];
      var s := Run(cfg, before);
      var d, p, s1 := Server(cfg, s), Pool(cfg, s), Run(cfg, steps);
      if s1.ps != s.ps { assert s1.ps[..|s1.ps| - 1] == s.ps; }
      RunInOrder(cfg, before, share);
      RunIsLinked(cfg, before);
      D.RunIsGood(cfg.server, s.ds);
      P.CleanKeepsInvariant(cfg.pool, cfg.server.threads, s.ps, cfg.pool.key(share));
      Parts(cfg, s, step);
      var x, y := ServerStep(cfg, d, p, step), PoolStep(cfg, d, p, step);
      if x.Some? { ServerKeepsOrder(cfg, d, p, x.value, share); }
      if y.Some? { PoolKeepsOrder(cfg, ServerAfter(cfg, d, p, step), p, y.value, share); }
    }
  }

  /** Server and pool together keep what a share ID is for. In every run of both, if the first Submits of the share's
      key did not overlap, no two requests of the share are processed at the same time, and the handler is called for
      them in the order in which they were submitted, leaving out those that came too late. */
  lemma ShareServedInOrder(cfg: Config, steps: seq<Step>, share: Bytes)
    requires cfg.server.pool && share != []
    requires P.CleanFor(cfg.pool, cfg.server.threads, Run(cfg, steps).ps, cfg.pool.key(share))
    ensures var d, p := Server(cfg, Run(cfg, steps)), Pool(cfg, Run(cfg, steps));
            && Among(CallTasks(cfg, d.calls, share), P.OfShare(p.submitted, share))
            && forall i, j :: 0 <= i < j < |d.tasks| && Active(d.tasks[i]) && Active(d.tasks[j]) ==>
                 !(D.Share(cfg.server, d.tasks[i].req) == share == D.Share(cfg.server, d.tasks[j].req))
  {
    var s := Run(cfg, steps);
    var d, p := Server(cfg, s), Pool(cfg, s);
    RunInOrder(cfg, steps, share);
    RunIsLinked(cfg, steps);
    D.RunIsGood(cfg.server, s.ds);
    P.CleanKeyIsOrdered(cfg.pool, cfg.server.threads, s.ps, share);
    AmongPrefix(CallTasks(cfg, d.calls, share), P.OfShare(p.started, share), P.OfShare(p.submitted, share));
    forall i, j | 0 <= i < j < |d.tasks| && Active(d.tasks[i]) && Active(d.tasks[j])
      ensures !(D.Share(cfg.server, d.tasks[i].req) == share == D.Share(cfg.server, d.tasks[j].req))
    {
      OneActive(cfg, d, p, share, i, j);
    }
  }

  lemma OneActive(cfg: Config, d: D.State, p: P.State, share: Bytes, i: nat, j: nat)
    requires D.WellPlaced(cfg.server, d) && Linked(cfg, d, p) && P.OrderedFor(p, share)
    requires i < j < |d.tasks| && Active(d.tasks[i]) && Active(d.tasks[j])
    ensures !(D.Share(cfg.server, d.tasks[i].req) == share == D.Share(cfg.server, d.tasks[j].req))
  {
    var a, b := d.tasks[i].req, d.tasks[j].req;
    assert a != b;
    assert Running(p, TaskOf(cfg, a)) && Running(p, TaskOf(cfg, b));
    var m :| 0 <= m < |p.queues| && p.queues[m].running == Some(TaskOf(cfg, a));
    var n :| 0 <= n < |p.queues| && p.queues[n].running == Some(TaskOf(cfg, b));
    assert m != n;
  }

  // ---------- every pool task is accounted for ----------

  ghost function JobIs(r: nat): P.Task -> bool { (task: P.Task) => task.job == r }

  ghost function WaitingFor(r: nat): P.Queue -> nat { (q: P.Queue) => HowMany(q.chan, JobIs(r)) }

  /** How often request r waits in the pool's channels, and how often it was submitted. */
  ghost function Waits(p: P.State, r: nat): nat { Sum(p.queues, WaitingFor(r)) }

  ghost function Submissions(p: P.State, r: nat): nat { HowMany(p.submitted, JobIs(r)) }

  ghost predicate PooledTask(d: D.State, r: nat) { D.HasTask(d, r) && d.tasks[d.places[r].i].pooled }

  ghost predicate PooledWaiting(d: D.State, r: nat) { PooledTask(d, r) && d.tasks[d.places[r].i].pc.Waiting? }

  /** A request is in the channels once from its hand-over to its start, and is submitted once. */
  ghost predicate Balanced(d: D.State, p: P.State, r: nat) {
    && Waits(p, r) == (if PooledWaiting(d, r) then 1 else 0)
    && Submissions(p, r) == (if PooledTask(d, r) then 1 else 0)
  }

  lemma ThreadKeepsPooled(cfg: Config, d: D.State, x: D.Step, r: nat)
    requires D.WellPlaced(cfg.server, d) && AsideOfPool(cfg, d, x) && (x.Take? || x.Reject? || x.HandOver?)
    ensures var d1 := D.DoThread(cfg.server, d, x);
            (PooledTask(d1, r) <==> PooledTask(d, r)) && (PooledWaiting(d1, r) <==> PooledWaiting(d, r))
  {
  }

  lemma TaskKeepsPooled(cfg: Config, d: D.State, x: D.Step, i: nat, r: nat)
    requires i < |d.tasks| && !x.StartPooled?
    ensures var d1 := D.DoTask(cfg.server, d, x, i);
            (PooledTask(d1, r) <==> PooledTask(d, r)) && (PooledWaiting(d1, r) <==> PooledWaiting(d, r))
  {
    D.TaskStepIsLocal(cfg.server, d, x, i);
  }

  lemma OwnKeepsPooled(cfg: Config, d: D.State, x: D.Step, r: nat)
    requires D.WellPlaced(cfg.server, d) && AsideOfPool(cfg, d, x)
    ensures var d1 := D.Do(cfg.server, d, x);
            (PooledTask(d1, r) <==> PooledTask(d, r)) && (PooledWaiting(d1, r) <==> PooledWaiting(d, r))
  {
    if x.Take? || x.Reject? || x.HandOver? {
      ThreadKeepsPooled(cfg, d, x, r);
    } else if x.i < |d.tasks| {
      TaskKeepsPooled(cfg, d, x, x.i, r);
    }
  }

  lemma HandOverPools(cfg: Config, d: D.State, t: nat, r: nat)
    requires D.WellPlaced(cfg.server, d) && HoldsPooled(cfg, d, t)
    ensures var d1, held := D.Do(cfg.server, d, D.HandOver(t)), d.threads[t].slot.value;
            && !PooledTask(d, held)
            && (PooledTask(d1, r) <==> PooledTask(d, r) || r == held)
            && (PooledWaiting(d1, r) <==> PooledWaiting(d, r) || r == held)
  {
  }

  lemma StartsOne(cfg: Config, d: D.State, job: nat, r: nat)
    requires D.WellPlaced(cfg.server, d) && PooledWaiting(d, job)
    ensures var d1 := D.Do(cfg.server, d, D.StartPooled(TaskIndex(d, job)));
            && (PooledTask(d1, r) <==> PooledTask(d, r))
            && (PooledWaiting(d1, r) <==> PooledWaiting(d, r) && r != job)
  {
    D.TaskStepIsLocal(cfg.server, d, D.StartPooled(TaskIndex(d, job)), TaskIndex(d, job));
  }

  lemma LookupWaits(cfg: Config, p: P.State, x: P.Step, r: nat)
    requires x.Load? || x.Create? || x.Count? || x.Finish?
    ensures var p1 := P.Do(cfg.pool, p, x); Waits(p1, r) == Waits(p, r) && Submissions(p1, r) == Submissions(p, r)
  {
    var p1 := P.Do(cfg.pool, p, x);
    if p1 != p {
      if x.Create? { SumAppend(p.queues, p1.queues[|p.queues|], WaitingFor(r)); }
      if x.Count? {
        var q := p.submitters[x.i].q;
        SumUpdate(p.queues, q, p1.queues[q], WaitingFor(r));
      }
      if x.Finish? { SumUpdate(p.queues, x.q, p1.queues[x.q], WaitingFor(r)); }
    }
  }

  lemma EnqueueWaits(cfg: Config, p: P.State, t: nat, r: nat)
    requires P.DoEnqueue(cfg.pool, p, t) != p
    ensures var p1, more := P.DoEnqueue(cfg.pool, p, t), if p.submitters[t].task.job == r then 1 else 0;
            Waits(p1, r) == Waits(p, r) + more && Submissions(p1, r) == Submissions(p, r) + more
  {
    var p1, q, task := P.DoEnqueue(cfg.pool, p, t), p.submitters[t].q, p.submitters[t].task;
    CountAppend(p.queues[q].chan, task, JobIs(r));
    SumUpdate(p.queues, q, p1.queues[q], WaitingFor(r));
    CountAppend(p.submitted, task, JobIs(r));
  }

  lemma StartWaits(p: P.State, q: nat, r: nat)
    requires P.CanStart(p, q)
    ensures var p1 := P.DoStart(p, q);
            && Waits(p1, r) == Waits(p, r) - (if p.queues[q].chan[0].job == r then 1 else 0)
            && Submissions(p1, r) == Submissions(p, r)
  {
    var p1, chan := P.DoStart(p, q), p.queues[q].chan;
    assert chan == [chan[0]] + chan[1..];
    CountConcat([chan[0]], chan[1..], JobIs(r));
    assert [chan[0]] == [] + [chan[0]];
    CountAppend([], chan[0], JobIs(r));
    SumUpdate(p.queues, q, p1.queues[q], WaitingFor(r));
  }

  /** What is in a channel is counted there. */
  lemma WaitsInChannel(p: P.State, q: nat, r: nat)
    requires q < |p.queues| && p.queues[q].chan != [] && p.queues[q].chan[0].job == r
    ensures Waits(p, r) >= 1
  {
    CountAtMost(p.queues[q].chan, JobIs(r));
    if Waits(p, r) == 0 { NoneIn(p.queues, r, q); }
  }

  lemma {:induction false} NoneIn(queues: seq<P.Queue>, r: nat, q: nat)
    requires q < |queues| && Sum(queues, WaitingFor(r)) == 0
    ensures HowMany(queues[q].chan, JobIs(r)) == 0
  {
    if q < |queues| - 1 { NoneIn(queues[..|queues| - 1], r, q); }
  }

  lemma EnqueueKeepsBalanced(cfg: Config, d: D.State, p: P.State, t: nat, r: nat)
    requires D.WellPlaced(cfg.server, d) && P.DoEnqueue(cfg.pool, p, t) != p && SubmitRight(cfg, d, p.submitters[t], t)
    requires Balanced(d, p, r)
    ensures Balanced(D.Do(cfg.server, d, D.HandOver(t)), P.DoEnqueue(cfg.pool, p, t), r)
  {
    EnqueueWaits(cfg, p, t, r);
    HandOverPools(cfg, d, t, r);
  }

  lemma StartKeepsBalanced(cfg: Config, d: D.State, p: P.State, q: nat, r: nat)
    requires D.WellPlaced(cfg.server, d) && P.CanStart(p, q)
    requires Balanced(d, p, r) && Balanced(d, p, p.queues[q].chan[0].job)
    ensures Balanced(D.Do(cfg.server, d, D.StartPooled(TaskIndex(d, p.queues[q].chan[0].job))), P.DoStart(p, q), r)
  {
    var job := p.queues[q].chan[0].job;
    WaitsInChannel(p, q, job);
    StartWaits(p, q, r);
    StartsOne(cfg, d, job, r);
  }

  lemma OwnStepKeepsBalanced(cfg: Config, d: D.State, p: P.State, x: D.Step, r: nat)
    requires D.WellPlaced(cfg.server, d) && Balanced(d, p, r)
    ensures Balanced(ServerAfter(cfg, d, p, Own(x)), PoolAfter(cfg, d, p, Own(x)), r)
  {
    if AsideOfPool(cfg, d, x) { OwnKeepsPooled(cfg, d, x, r); }
  }

  lemma EnqueueStepKeepsBalanced(cfg: Config, d: D.State, p: P.State, t: nat, r: nat)
    requires D.WellPlaced(cfg.server, d) && Linked(cfg, d, p) && Balanced(d, p, r)
    ensures Balanced(ServerAfter(cfg, d, p, Enqueue(t)), PoolAfter(cfg, d, p, Enqueue(t)), r)
  {
    if P.DoEnqueue(cfg.pool, p, t) != p {
      assert SubmitRight(cfg, d, p.submitters[t], t);
      EnqueueKeepsBalanced(cfg, d, p, t, r);
    }
  }

  lemma StartStepKeepsBalanced(cfg: Config, d: D.State, p: P.State, q: nat, r: nat)
    requires D.WellPlaced(cfg.server, d) && Balanced(d, p, r)
    requires P.CanStart(p, q) ==> Balanced(d, p, p.queues[q].chan[0].job)
    ensures Balanced(ServerAfter(cfg, d, p, Start(q)), PoolAfter(cfg, d, p, Start(q)), r)
  {
    if P.CanStart(p, q) { StartKeepsBalanced(cfg, d, p, q, r); }
  }

  lemma StepKeepsBalanced(cfg: Config, d: D.State, p: P.State, step: Step, r: nat)
    requires D.WellPlaced(cfg.server, d) && Linked(cfg, d, p) && Balanced(d, p, r)
    requires step.Start? && P.CanStart(p, step.q) ==> Balanced(d, p, p.queues[step.q].chan[0].job)
    ensures Balanced(ServerAfter(cfg, d, p, step), PoolAfter(cfg, d, p, step), r)
  {
    match step {
      case Own(x) => OwnStepKeepsBalanced(cfg, d, p, x, r);
      case Enqueue(t) => EnqueueStepKeepsBalanced(cfg, d, p, t, r);
      case Start(q) => StartStepKeepsBalanced(cfg, d, p, q, r);
      case _ => OthersKeepBalanced(cfg, d, p, step, r);
    }
  }

  lemma OthersKeepBalanced(cfg: Config, d: D.State, p: P.State, step: Step, r: nat)
    requires !step.Own? && !step.Enqueue? && !step.Start? && Balanced(d, p, r)
    ensures Balanced(ServerAfter(cfg, d, p, step), PoolAfter(cfg, d, p, step), r)
  {
    var y := PoolStep(cfg, d, p, step);
    if y.Some? { LookupWaits(cfg, p, y.value, r); }
  }

  lemma {:induction false} RunIsBalanced(cfg: Config, steps: seq<Step>, r: nat)
    ensures Balanced(Server(cfg, Run(cfg, steps)), Pool(cfg, Run(cfg, steps)), r)
  {
    if steps != [] {
      var before, step := steps[..|steps| - 1], steps[|steps| - 1];
      var s := Run(cfg, before);
      RunIsBalanced(cfg, before, r);
      if step.Start? && P.CanStart(Pool(cfg, s), step.q) {
        RunIsBalanced(cfg, before, Pool(cfg, s).queues[step.q].chan[0].job);
      }
      RunIsLinked(cfg, before);
      D.RunIsGood(cfg.server, s.ds);
      StepKeepsBalanced(cfg, Server(cfg, s), Pool(cfg, s), step, r);
      Parts(cfg, s, step);
    }
  }

  /** What the pool was given, and what it runs, are requests that were handed over to it; those it runs have
      started. */
  ghost predicate Genuine(cfg: Config, d: D.State, p: P.State) {
    && (forall j :: 0 <= j < |p.submitted| ==> Known(cfg, d, p.submitted[j]))
    && (forall q :: 0 <= q < |p.queues| && p.queues[q].running.Some? ==>
          Known(cfg, d, p.queues[q].running.value) && !PooledWaiting(d, p.queues[q].running.value.job))
  }

  lemma StaysStarted(cfg: Config, d: D.State, x: D.Step, r: nat)
    requires D.WellPlaced(cfg.server, d) && PooledTask(d, r) && !PooledWaiting(d, r)
    ensures !PooledWaiting(D.Do(cfg.server, d, x), r)
  {
    if !x.Take? && !x.Reject? && !x.HandOver? && x.i < |d.tasks| { D.TaskStepIsLocal(cfg.server, d, x, x.i); }
  }

  lemma ServerKeepsGenuine(cfg: Config, d: D.State, p: P.State, x: D.Step)
    requires D.WellPlaced(cfg.server, d) && Genuine(cfg, d, p)
    ensures Genuine(cfg, D.Do(cfg.server, d, x), p)
  {
    var d1 := D.Do(cfg.server, d, x);
    forall j | 0 <= j < |p.submitted| ensures Known(cfg, d1, p.submitted[j]) {
      StaysKnown(cfg, d, x, p.submitted[j]);
    }
    forall q | 0 <= q < |p.queues| && p.queues[q].running.Some?
      ensures Known(cfg, d1, p.queues[q].running.value) && !PooledWaiting(d1, p.queues[q].running.value.job)
    {
      RunningStays(cfg, d, x, p.queues[q].running.value);
    }
  }

  lemma RunningStays(cfg: Config, d: D.State, x: D.Step, task: P.Task)
    requires D.WellPlaced(cfg.server, d) && Known(cfg, d, task) && !PooledWaiting(d, task.job)
    ensures Known(cfg, D.Do(cfg.server, d, x), task) && !PooledWaiting(D.Do(cfg.server, d, x), task.job)
  {
    StaysKnown(cfg, d, x, task);
    StaysStarted(cfg, d, x, task.job);
  }

  /** A pool step that submits and starts nothing keeps what is genuine. */
  lemma PoolKeepsGenuine(cfg: Config, d: D.State, p: P.State, y: P.Step)
    requires Genuine(cfg, d, p) && !y.Enqueue? && !y.Start?
    ensures Genuine(cfg, d, P.Do(cfg.pool, p, y))
  {
    var p1 := P.Do(cfg.pool, p, y);
    assert p1.submitted == p.submitted;
  }

  lemma EnqueueKeepsGenuine(cfg: Config, d: D.State, p: P.State, t: nat)
    requires Genuine(cfg, d, p) && P.DoEnqueue(cfg.pool, p, t) != p && Known(cfg, d, p.submitters[t].task)
    ensures Genuine(cfg, d, P.DoEnqueue(cfg.pool, p, t))
  {
  }

  lemma StartKeepsGenuine(cfg: Config, d: D.State, p: P.State, q: nat)
    requires Genuine(cfg, d, p) && P.CanStart(p, q) && Known(cfg, d, p.queues[q].chan[0])
    requires !PooledWaiting(d, p.queues[q].chan[0].job)
    ensures Genuine(cfg, d, P.DoStart(p, q))
  {
  }

  lemma EnqueueStepKeepsGenuine(cfg: Config, d: D.State, p: P.State, t: nat)
    requires D.WellPlaced(cfg.server, d) && Linked(cfg, d, p) && Genuine(cfg, d, p)
    ensures Genuine(cfg, ServerAfter(cfg, d, p, Enqueue(t)), PoolAfter(cfg, d, p, Enqueue(t)))
  {
    if P.DoEnqueue(cfg.pool, p, t) != p {
      assert SubmitRight(cfg, d, p.submitters[t], t);
      ServerKeepsGenuine(cfg, d, p, D.HandOver(t));
      HandOverEffect(cfg, d, t);
      EnqueueKeepsGenuine(cfg, D.Do(cfg.server, d, D.HandOver(t)), p, t);
    }
  }

  lemma StartStepKeepsGenuine(cfg: Config, d: D.State, p: P.State, q: nat)
    requires D.WellPlaced(cfg.server, d) && Linked(cfg, d, p) && Genuine(cfg, d, p)
    requires P.CanStart(p, q) ==> Balanced(d, p, p.queues[q].chan[0].job)
    ensures Genuine(cfg, ServerAfter(cfg, d, p, Start(q)), PoolAfter(cfg, d, p, Start(q)))
  {
    if P.CanStart(p, q) {
      var task := p.queues[q].chan[0];
      var x := D.StartPooled(TaskIndex(d, task.job));
      WaitsInChannel(p, q, task.job);
      ServerKeepsGenuine(cfg, d, p, x);
      StartsOne(cfg, d, task.job, task.job);
      StaysKnown(cfg, d, x, task);
      StartKeepsGenuine(cfg, D.Do(cfg.server, d, x), p, q);
    }
  }

  lemma OtherStepKeepsGenuine(cfg: Config, d: D.State, p: P.State, step: Step)
    requires D.WellPlaced(cfg.server, d) && Genuine(cfg, d, p) && !step.Enqueue? && !step.Start?
    ensures Genuine(cfg, ServerAfter(cfg, d, p, step), PoolAfter(cfg, d, p, step))
  {
    var x, y := ServerStep(cfg, d, p, step), PoolStep(cfg, d, p, step);
    if x.Some? { ServerKeepsGenuine(cfg, d, p, x.value); }
    if y.Some? { PoolKeepsGenuine(cfg, d, p, y.value); }
  }

  lemma StepKeepsGenuine(cfg: Config, d: D.State, p: P.State, step: Step)
    requires D.WellPlaced(cfg.server, d) && Linked(cfg, d, p) && Genuine(cfg, d, p)
    requires step.Start? && P.CanStart(p, step.q) ==> Balanced(d, p, p.queues[step.q].chan[0].job)
    ensures Genuine(cfg, ServerAfter(cfg, d, p, step), PoolAfter(cfg, d, p, step))
  {
    match step {
      case Enqueue(t) => EnqueueStepKeepsGenuine(cfg, d, p, t);
      case Start(q) => StartStepKeepsGenuine(cfg, d, p, q);
      case _ => OtherStepKeepsGenuine(cfg, d, p, step);
    }
  }

  lemma {:induction false} RunIsGenuine(cfg: Config, steps: seq<Step>)
    ensures Genuine(cfg, Server(cfg, Run(cfg, steps)), Pool(cfg, Run(cfg, steps)))
  {
    if steps != [] {
      var before, step := steps[..|steps| - 1], steps[|steps| - 1];
      var s := Run(cfg, before);
      RunIsGenuine(cfg, before);
      if step.Start? && P.CanStart(Pool(cfg, s), step.q) {
        RunIsBalanced(cfg, before, Pool(cfg, s).queues[step.q].chan[0].job);
      }
      RunIsLinked(cfg, before);
      D.RunIsGood(cfg.server, s.ds);
      StepKeepsGenuine(cfg, Server(cfg, s), Pool(cfg, s), step);
      Parts(cfg, s, step);
    }
  }

  // ---------- every request of a share, in order ----------

  lemma {:induction false} OfShareIn(tasks: seq<P.Task>, share: Bytes, x: P.Task)
    ensures x in P.OfShare(tasks, share) <==> x in tasks && x.share == share
  {
    if tasks != [] {
      var n := |tasks| - 1;
      OfShareIn(tasks[..n], share, x);
      assert tasks == tasks[..n] + [tasks[n]];
    }
  }

  lemma {:induction false} CalledIn(cfg: Config, calls: seq<D.Call>, share: Bytes, r: nat)
    requires D.CallsFor(calls, r) >= 1 && D.Share(cfg.server, r) == share
    ensures TaskOf(cfg, r) in CallTasks(cfg, calls, share)
  {
    var n := |calls| - 1;
    if calls[n].req != r { CalledIn(cfg, calls[..n], share, r); }
  }

  ghost predicate Once(tasks: seq<P.Task>) { forall i, j :: 0 <= i < j < |tasks| ==> tasks[i] != tasks[j] }

  lemma {:induction false} OfShareOnce(tasks: seq<P.Task>, share: Bytes)
    requires forall r: nat :: HowMany(tasks, JobIs(r)) <= 1
    ensures Once(P.OfShare(tasks, share))
  {
    if tasks != [] {
      var n := |tasks| - 1;
      var last := tasks[n];
      assert tasks == tasks[..n] + [last];
      forall r: nat ensures HowMany(tasks[..n], JobIs(r)) <= 1 { CountAppend(tasks[..n], last, JobIs(r)); }
      OfShareOnce(tasks[..n], share);
      CountAppend(tasks[..n], last, JobIs(last.job));
      CountAtMost(tasks[..n], JobIs(last.job));
      OfShareIn(tasks[..n], share, last);
    }
  }

  lemma {:induction false} AmongAll(a: seq<P.Task>, b: seq<P.Task>)
    requires Among(a, b) && Once(b) && forall x :: x in b ==> x in a
    ensures a == b
    decreases |b|
  {
    if b != [] {
      var before, last := b[..|b| - 1], b[|b| - 1];
      assert last in a && b == before + [last];
      if Among(a, before) {
        AmongIn(a, before, last);
        assert false;
      }
      var rest := a[..|a| - 1];
      assert a == rest + [last];
      forall x | x in before ensures x in rest { assert x in b; }
      AmongAll(rest, before);
    }
  }

  lemma {:induction false} AmongIn(a: seq<P.Task>, b: seq<P.Task>, x: P.Task)
    requires Among(a, b) && x in a
    ensures x in b
    decreases |b|
  {
    var before := b[..|b| - 1];
    if Among(a, before) {
      AmongIn(a, before, x);
    } else if x != a[|a| - 1] {
      assert x in a[..|a| - 1];
      AmongIn(a[..|a| - 1], before, x);
    }
  }

  /** Once nothing is outstanding, and if none of the share's requests was found late, the handler has been called for
      exactly the requests of the share that were taken, once each and in the order of their submission. */
  lemma ShareServedExactly(cfg: Config, steps: seq<Step>, share: Bytes)
    requires cfg.server.pool && share != [] && D.Idle(Server(cfg, Run(cfg, steps)))
    requires P.CleanFor(cfg.pool, cfg.server.threads, Run(cfg, steps).ps, cfg.pool.key(share))
    requires forall r: nat :: D.Share(cfg.server, r) == share ==> !D.Waived(cfg.server, Run(cfg, steps).ds, r)
    ensures var d, p := Server(cfg, Run(cfg, steps)), Pool(cfg, Run(cfg, steps));
            && CallTasks(cfg, d.calls, share) == P.OfShare(p.submitted, share)
            && forall r :: 0 <= r < |d.places| && D.Share(cfg.server, r) == share ==>
                 TaskOf(cfg, r) in P.OfShare(p.submitted, share)
  {
    var d, p := Server(cfg, Run(cfg, steps)), Pool(cfg, Run(cfg, steps));
    ShareServedInOrder(cfg, steps, share);
    SubmittedOnce(cfg, steps, share);
    AllAreCalled(cfg, steps, share);
    AmongAll(CallTasks(cfg, d.calls, share), P.OfShare(p.submitted, share));
    forall r | 0 <= r < |d.places| && D.Share(cfg.server, r) == share
      ensures TaskOf(cfg, r) in P.OfShare(p.submitted, share)
    {
      TakenIsSubmitted(cfg, steps, r);
      OfShareIn(p.submitted, share, TaskOf(cfg, r));
    }
  }

  lemma SubmittedOnce(cfg: Config, steps: seq<Step>, share: Bytes)
    ensures Once(P.OfShare(Pool(cfg, Run(cfg, steps)).submitted, share))
  {
    var p := Pool(cfg, Run(cfg, steps));
    forall r: nat ensures HowMany(p.submitted, JobIs(r)) <= 1 { RunIsBalanced(cfg, steps, r); }
    OfShareOnce(p.submitted, share);
  }

  lemma AllAreCalled(cfg: Config, steps: seq<Step>, share: Bytes)
    requires share != [] && D.Idle(Server(cfg, Run(cfg, steps)))
    requires forall r: nat :: D.Share(cfg.server, r) == share ==> !D.Waived(cfg.server, Run(cfg, steps).ds, r)
    ensures var d, p := Server(cfg, Run(cfg, steps)), Pool(cfg, Run(cfg, steps));
            forall x :: x in P.OfShare(p.submitted, share) ==> x in CallTasks(cfg, d.calls, share)
  {
    var s := Run(cfg, steps);
    var p := Pool(cfg, s);
    RunIsGenuine(cfg, steps);
    forall x | x in P.OfShare(p.submitted, share) ensures x in CallTasks(cfg, Server(cfg, s).calls, share) {
      OfShareIn(p.submitted, share, x);
      var j :| 0 <= j < |p.submitted| && p.submitted[j] == x;
      assert Known(cfg, Server(cfg, s), x);
      SubmittedIsCalled(cfg, s, x, share);
    }
  }

  lemma SubmittedIsCalled(cfg: Config, s: State, x: P.Task, share: Bytes)
    requires Known(cfg, Server(cfg, s), x) && x.share == share && D.Idle(Server(cfg, s))
    requires share != [] && !D.Waived(cfg.server, s.ds, x.job)
    ensures x in CallTasks(cfg, Server(cfg, s).calls, share)
  {
    D.RunIsGood(cfg.server, s.ds);
    var d := Server(cfg, s);
    assert D.TaskRight(cfg.server, d.tasks[d.places[x.job].i]);
    D.ServedUnlessWaived(cfg.server, s.ds, x.job);
    CalledIn(cfg, d.calls, share, x.job);
  }

  lemma TakenIsSubmitted(cfg: Config, steps: seq<Step>, r: nat)
    requires cfg.server.pool && D.Idle(Server(cfg, Run(cfg, steps)))
    requires r < |Server(cfg, Run(cfg, steps)).places| && D.Share(cfg.server, r) != []
    ensures TaskOf(cfg, r) in Pool(cfg, Run(cfg, steps)).submitted
  {
    var s := Run(cfg, steps);
    var d, p := Server(cfg, s), Pool(cfg, s);
    D.RunIsGood(cfg.server, s.ds);
    RunIsGenuine(cfg, steps);
    RunIsBalanced(cfg, steps, r);
    assert D.HasTask(d, r);
    assert D.TaskRight(cfg.server, d.tasks[d.places[r].i]);
    CountAtMost(p.submitted, JobIs(r));
    var j :| 0 <= j < |p.submitted| && p.submitted[j].job == r;
    assert Known(cfg, d, p.submitted[j]);
  }

  // ---------- progress ----------

  ghost predicate Finished(cfg: Config, s: State) { D.Idle(Server(cfg, s)) && P.Finished(Pool(cfg, s)) }

  ghost predicate MovesOn(cfg: Config, s: State, step: Step) {
    Server(cfg, Do(cfg, s, step)) != Server(cfg, s) || Pool(cfg, Do(cfg, s, step)) != Pool(cfg, s)
  }

  /** A queue that runs a task can finish it, or its request can be processed further. */
  lemma RunningMoves(cfg: Config, s: State, q: nat) returns (step: Step)
    requires D.Good(cfg.server, Server(cfg, s)) && Genuine(cfg, Server(cfg, s), Pool(cfg, s))
    requires q < |Pool(cfg, s).queues| && Pool(cfg, s).queues[q].running.Some?
    ensures !(step.Own? && (step.step.Take? || step.step.Refuse?)) && MovesOn(cfg, s, step)
  {
    var d, p := Server(cfg, s), Pool(cfg, s);
    var r := p.queues[q].running.value.job;
    if IsDone(d, r) {
      step := Finish(q);
      Parts(cfg, s, step);
      assert P.DoFinish(p, q).queues[q].running != p.queues[q].running;
    } else {
      var i := d.places[r].i;
      var x := D.NextStep(d.tasks[i], i);
      D.TaskCanMove(cfg.server, d, i, x);
      step := Own(x);
      Parts(cfg, s, step);
    }
  }

  /** With nothing running, a waiting task can start. */
  lemma WaitingMoves(cfg: Config, s: State, q: nat) returns (step: Step)
    requires P.CanStart(Pool(cfg, s), q)
    ensures step == Start(q) && MovesOn(cfg, s, step)
  {
    var p := Pool(cfg, s);
    step := Start(q);
    Parts(cfg, s, step);
    assert P.DoStart(p, q).queues[q].running != p.queues[q].running;
  }

  /** With all queues empty, a Submit can go on. */
  lemma SubmitMoves(cfg: Config, s: State, t: nat) returns (step: Step)
    requires P.Labelled(cfg.pool, Pool(cfg, s))
    requires var p := Pool(cfg, s);
             && t < |p.submitters| && !p.submitters[t].Idle?
             && forall q :: 0 <= q < |p.queues| ==> p.queues[q].chan == [] && p.queues[q].running.None?
    ensures !step.Own? && MovesOn(cfg, s, step)
  {
    var p := Pool(cfg, s);
    assert P.Aimed(cfg.pool, p.queues, p.submitters[t]);
    step := if p.submitters[t].Missed? then Create(t) else if p.submitters[t].Found? then Count(t) else Enqueue(t);
    Parts(cfg, s, step);
    if step.Enqueue? { assert P.DoEnqueue(cfg.pool, p, t).submitters[t] != p.submitters[t]; }
    assert PoolAfter(cfg, Server(cfg, s), p, step).submitters[t] != p.submitters[t];
  }

  /** With the pool at rest, a thread that holds a request can go on. */
  lemma ThreadMoves(cfg: Config, s: State, t: nat) returns (step: Step)
    requires D.Good(cfg.server, Server(cfg, s)) && |Pool(cfg, s).submitters| == cfg.server.threads
    requires t < |Server(cfg, s).threads| && Server(cfg, s).threads[t].busy
    requires forall i :: 0 <= i < |Pool(cfg, s).submitters| ==> Pool(cfg, s).submitters[i].Idle?
    ensures !(step.Own? && (step.step.Take? || step.step.Refuse?)) && MovesOn(cfg, s, step)
  {
    var d, p := Server(cfg, s), Pool(cfg, s);
    var r := d.threads[t].slot.value;
    step := if HoldsPooled(cfg, d, t) then Load(t)
            else Own(if cfg.server.inbox[r].meta.Timed? then D.HandOver(t) else D.Reject(t));
    Parts(cfg, s, step);
    if step.Load? {
      assert PoolAfter(cfg, d, p, step).submitters[t] != p.submitters[t];
    } else {
      assert ServerAfter(cfg, d, p, step).threads[t] != d.threads[t];
    }
  }

  /** With the pool at rest, every request that went through it is done, and the others go on as without a pool. */
  lemma TaskMoves(cfg: Config, s: State, i: nat) returns (step: Step)
    requires D.Good(cfg.server, Server(cfg, s)) && Linked(cfg, Server(cfg, s), Pool(cfg, s)) && cfg.server.weight >= 1
    requires P.Finished(Pool(cfg, s)) && forall r: nat :: Balanced(Server(cfg, s), Pool(cfg, s), r)
    requires i < |Server(cfg, s).tasks| && !Server(cfg, s).tasks[i].pc.Done?
    ensures !(step.Own? && (step.step.Take? || step.step.Refuse?)) && MovesOn(cfg, s, step)
  {
    var d, p := Server(cfg, s), Pool(cfg, s);
    PoolIsDone(cfg, d, p, i);
    var k, x := D.SomeTaskCanMove(cfg.server, d, i);
    step := Own(x);
    Parts(cfg, s, step);
  }

  lemma PoolIsDone(cfg: Config, d: D.State, p: P.State, i: nat)
    requires D.WellPlaced(cfg.server, d) && Linked(cfg, d, p) && P.Finished(p) && forall r: nat :: Balanced(d, p, r)
    requires i < |d.tasks| && !d.tasks[i].pc.Done?
    ensures !d.tasks[i].pooled
  {
    var r := d.tasks[i].req;
    NoWaits(p.queues, r);
    assert Balanced(d, p, r);
    assert PooledWaiting(d, r) <==> d.tasks[i].pooled && d.tasks[i].pc.Waiting?;
    assert Active(d.tasks[i]) ==> Running(p, TaskOf(cfg, r));
  }

  lemma {:induction false} NoWaits(queues: seq<P.Queue>, r: nat)
    requires forall q :: 0 <= q < |queues| ==> queues[q].chan == []
    ensures Sum(queues, WaitingFor(r)) == 0
  {
    if queues != [] { NoWaits(queues[..|queues| - 1], r); }
  }

  /** Everything that does not involve the pool goes on as without it; in particular a free thread takes the next
      request. */
  lemma AsideOfPoolAsBefore(cfg: Config, s: State, x: D.Step)
    requires !x.StartPooled?
    requires var d := Server(cfg, s);
             x.HandOver? && D.ThreadHolds(cfg.server, d, x.t) && cfg.server.pool ==>
               var meta := cfg.server.inbox[d.threads[x.t].slot.value].meta; meta.Timed? ==> meta.share == []
    ensures Server(cfg, Do(cfg, s, Own(x))) == D.Do(cfg.server, Server(cfg, s), x)
    ensures Pool(cfg, Do(cfg, s, Own(x))) == Pool(cfg, s)
  {
    Parts(cfg, s, Own(x));
  }

  /** What holds of server and pool in every run. */
  ghost predicate Healthy(cfg: Config, s: State) {
    var d, p := Server(cfg, s), Pool(cfg, s);
    && D.Good(cfg.server, d) && Linked(cfg, d, p) && Genuine(cfg, d, p) && P.Labelled(cfg.pool, p)
    && |p.submitters| == cfg.server.threads && forall r: nat :: Balanced(d, p, r)
  }

  lemma RunIsHealthy(cfg: Config, steps: seq<Step>)
    ensures Healthy(cfg, Run(cfg, steps))
  {
    var s := Run(cfg, steps);
    D.RunIsGood(cfg.server, s.ds);
    RunIsLinked(cfg, steps);
    RunIsGenuine(cfg, steps);
    P.RunKeepsLabels(cfg.pool, cfg.server.threads, s.ps);
    P.QueuesPerKey(cfg.pool, cfg.server.threads, s.ps, []);
    forall r: nat ensures Balanced(Server(cfg, s), Pool(cfg, s), r) { RunIsBalanced(cfg, steps, r); }
  }

  lemma PoolMoves(cfg: Config, s: State) returns (step: Step)
    requires Healthy(cfg, s) && !P.Finished(Pool(cfg, s))
    ensures !(step.Own? && (step.step.Take? || step.step.Refuse?)) && MovesOn(cfg, s, step)
  {
    var p := Pool(cfg, s);
    if q :| 0 <= q < |p.queues| && p.queues[q].running.Some? {
      step := RunningMoves(cfg, s, q);
    } else if q :| 0 <= q < |p.queues| && p.queues[q].chan != [] {
      step := WaitingMoves(cfg, s, q);
    } else {
      var t :| 0 <= t < |p.submitters| && !p.submitters[t].Idle?;
      step := SubmitMoves(cfg, s, t);
    }
  }

  lemma ServerMoves(cfg: Config, s: State) returns (step: Step)
    requires Healthy(cfg, s) && P.Finished(Pool(cfg, s)) && !D.Idle(Server(cfg, s)) && cfg.server.weight >= 1
    ensures !(step.Own? && (step.step.Take? || step.step.Refuse?)) && MovesOn(cfg, s, step)
  {
    var d := Server(cfg, s);
    if t :| 0 <= t < |d.threads| && d.threads[t].busy {
      step := ThreadMoves(cfg, s, t);
    } else {
      var i :| 0 <= i < |d.tasks| && !d.tasks[i].pc.Done?;
      step := TaskMoves(cfg, s, i);
    }
  }

  /** Server and pool together never get stuck: after every run, as long as anything is outstanding in either, some step
      that takes no new request moves one of them on, even if no acquire runs out of time. */
  lemma NeverStuck(cfg: Config, steps: seq<Step>) returns (step: Step)
    requires cfg.server.weight >= 1 && !Finished(cfg, Run(cfg, steps))
    ensures !(step.Own? && (step.step.Take? || step.step.Refuse?)) && MovesOn(cfg, Run(cfg, steps), step)
  {
    RunIsHealthy(cfg, steps);
    if P.Finished(Pool(cfg, Run(cfg, steps))) {
      step := ServerMoves(cfg, Run(cfg, steps));
    } else {
      step := PoolMoves(cfg, Run(cfg, steps));
    }
  }
}
