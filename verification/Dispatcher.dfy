/** The request dispatcher of cluster/nats_rpc_server.go as a step machine: worker threads take requests off the
    unhandled channel and answer, hand over to the worker pool, or start a goroutine that runs under the semaphore. */
module Dispatcher {
  import opened Base

  /** What a request's metadata gives: no usable context, no usable start time or timeout, or all of it with the share
      ID (empty when there is none). */
  datatype Meta = BadContext | BadTiming | Timed(start: int, timeout: int, share: Bytes)

  datatype Request = Request(reply: string, notify: bool, meta: Meta)

  /** The requests that arrive, in order; the number of threads; the weight of the semaphore; whether a pool is
      configured. */
  datatype Config = Config(inbox: seq<Request>, threads: nat, weight: nat, pool: bool)

  datatype Answer = Internal | TooManyRequests | RequestTimeout | Handled(result: int)

  /** A published response. `req` is the request it was made for; the subject is what the connection is given. */
  datatype Reply = Reply(req: nat, subject: string, answer: Answer)

  /** A handler call and the clock reading of the start-time check before it. */
  datatype Call = Call(req: nat, now: int)

  /** A thread and its entry of the `requests` array. */
  datatype Thread = Thread(slot: Option<nat>, busy: bool)

  datatype Pc = Waiting | Ready | Calling | Replying(answer: Answer) | Refusing | Releasing | Done

  /** What was decided about a request: its acquire was refused, it was found to be late, the handler was called, or the
      handler returned. */
  datatype Fate = Open | Refused(now: int) | Late(now: int, fired: bool) | Called | Returned(result: int)

  /** A pool task or a semaphore goroutine; both hold the request they captured. */
  datatype Task = Task(req: nat, pooled: bool, pc: Pc, fate: Fate)

  /** Where a request that was taken is. */
  datatype Place = AtThread(t: nat) | InTask(i: nat) | Closed

  datatype State = State(threads: seq<Thread>, tasks: seq<Task>, free: int, published: seq<Reply>, calls: seq<Call>,
                         places: seq<Place>)

  datatype Step =
    | Take(t: nat)                                  // receive from the unhandled channel
    | Reject(t: nat)                                // bad context or timing: answer at once
    | HandOver(t: nat)                              // submit to the pool or start a goroutine
    | Acquire(i: nat)
    | Refuse(i: nat, now: int)                      // the acquire's context ran out
    | StartPooled(i: nat)
    | Check(i: nat, now: int, fired: bool)          // processRequest up to the handler call
    | Return(i: nat, result: int)                   // the handler returns
    | Send(i: nat)                                  // processResponse
    | Release(i: nat)

  /** Go's reqTimeout / 2, which truncates toward zero. */
  function Half(timeout: int): int { if timeout >= 0 then timeout / 2 else -((-timeout) / 2) }

  ghost function Share(cfg: Config, r: nat): Bytes {
    if r < |cfg.inbox| && cfg.inbox[r].meta.Timed? then cfg.inbox[r].meta.share else []
  }

  ghost function Publish(cfg: Config, s: State, r: nat, a: Answer): State
    requires r < |cfg.inbox|
  {
    if cfg.inbox[r].notify then s else s.(published := s.published + [Reply(r, cfg.inbox[r].reply, a)])
  }

  ghost function SetTask(s: State, i: nat, pc: Pc, fate: Fate): State
    requires i < |s.tasks|
  {
    s.(tasks := s.tasks[i := s.tasks[i].(pc := pc, fate := fate)])
  }

  ghost predicate ThreadHolds(cfg: Config, s: State, t: nat) {
    t < |s.threads| && s.threads[t].busy && s.threads[t].slot.Some? && s.threads[t].slot.value < |cfg.inbox|
    && s.threads[t].slot.value < |s.places|
  }

  ghost function DoThread(cfg: Config, s: State, step: Step): State {
    match step
    case Take(t) =>
      if t < |s.threads| && !s.threads[t].busy && |s.places| < |cfg.inbox| then
        s.(threads := s.threads[t := Thread(Some(|s.places|), true)], places := s.places + [AtThread(t)])
      else s
    case Reject(t) =>
      if ThreadHolds(cfg, s, t) && !cfg.inbox[s.threads[t].slot.value].meta.Timed? then
        var r := s.threads[t].slot.value;
        Publish(cfg, s, r, Internal).(threads := s.threads[t := s.threads[t].(busy := false)],
                                      places := s.places[r := Closed])
      else s
    case HandOver(t) =>
      if ThreadHolds(cfg, s, t) && cfg.inbox[s.threads[t].slot.value].meta.Timed? then
        var r := s.threads[t].slot.value;
        s.(threads := s.threads[t := s.threads[t].(busy := false)], places := s.places[r := InTask(|s.tasks|)],
           tasks := s.tasks + [Task(r, cfg.pool && Share(cfg, r) != [], Waiting, Open)])
      else s
    case _ => s
  }

  /** The time since the request was sent. */
  ghost function Elapsed(meta: Meta, now: int): int
    requires meta.Timed?
  {
    now - meta.start
  }

  /** One step of task i. A pool task may start at any time: the pool alone decides which of its tasks run together. The
      context of an acquire lasts until the request's timeout. */
  ghost function DoTask(cfg: Config, s: State, step: Step, i: nat): State
    requires i < |s.tasks|
  {
    var task := s.tasks[i];
    if task.req >= |cfg.inbox| || !cfg.inbox[task.req].meta.Timed? then s
    else
      var meta := cfg.inbox[task.req].meta;
      match step
      case Acquire(_) =>
        if !task.pooled && task.pc.Waiting? && s.free > 0 then SetTask(s, i, Ready, Open).(free := s.free - 1) else s
      case Refuse(_, now) =>
        if !task.pooled && task.pc.Waiting? && Elapsed(meta, now) >= meta.timeout then
          SetTask(s, i, Refusing, Refused(now))
        else s
      case StartPooled(_) => if task.pooled && task.pc.Waiting? then SetTask(s, i, Ready, Open) else s
      case Check(_, now, fired) =>
        if !task.pc.Ready? then s
        else if Elapsed(meta, now) > Half(meta.timeout) || fired then
          SetTask(s, i, Replying(RequestTimeout), Late(now, fired))
        else SetTask(s, i, Calling, Called).(calls := s.calls + [Call(task.req, now)])
      case Return(_, result) =>
        if task.pc.Calling? then SetTask(s, i, Replying(Handled(result)), Returned(result)) else s
      case Send(_) =>
        if task.pc.Replying? then
          SetTask(Publish(cfg, s, task.req, task.pc.answer), i, if task.pooled then Done else Releasing, task.fate)
        else if task.pc.Refusing? then SetTask(Publish(cfg, s, task.req, TooManyRequests), i, Done, task.fate)
        else s
      case Release(_) => if task.pc.Releasing? then SetTask(s, i, Done, task.fate).(free := s.free + 1) else s
      case _ => s
  }

  ghost function Do(cfg: Config, s: State, step: Step): State {
    match step
    case Take(_) => DoThread(cfg, s, step)
    case Reject(_) => DoThread(cfg, s, step)
    case HandOver(_) => DoThread(cfg, s, step)
    case _ => if step.i < |s.tasks| then DoTask(cfg, s, step, step.i) else s
  }

  ghost function Run(cfg: Config, steps: seq<Step>): State {
    if steps == [] then State(seq(cfg.threads, _ => Thread(None, false)), [], cfg.weight, [], [], [])
    else Do(cfg, Run(cfg, steps[..|steps| - 1]), steps[|steps| - 1])
  }

  // ---------- every request is in exactly one place ----------

  ghost predicate WellPlaced(cfg: Config, s: State) {
    && |s.places| <= |cfg.inbox|
    && (forall t :: 0 <= t < |s.threads| && s.threads[t].busy ==>
          && s.threads[t].slot.Some? && s.threads[t].slot.value < |s.places|
          && s.places[s.threads[t].slot.value] == AtThread(t))
    && (forall i :: 0 <= i < |s.tasks| ==>
          s.tasks[i].req < |s.places| && s.places[s.tasks[i].req] == InTask(i) && cfg.inbox[s.tasks[i].req].meta.Timed?)
    && (forall r :: 0 <= r < |s.places| ==>
          match s.places[r]
          case AtThread(t) => t < |s.threads| && s.threads[t].busy && s.threads[t].slot == Some(r)
          case InTask(i) => i < |s.tasks| && s.tasks[i].req == r
          case Closed => !cfg.inbox[r].meta.Timed?)
  }

  /** A task step moves one task on and leaves threads and places alone. */
  ghost predicate OnlyTask(s: State, s1: State, i: nat) {
    && s1.threads == s.threads && s1.places == s.places && i < |s.tasks| == |s1.tasks|
    && s1.tasks == s.tasks[i := s.tasks[i].(pc := s1.tasks[i].pc, fate := s1.tasks[i].fate)]
  }

  lemma TaskStepIsLocal(cfg: Config, s: State, step: Step, i: nat)
    requires i < |s.tasks|
    ensures OnlyTask(s, DoTask(cfg, s, step, i), i)
  {
    assert s.tasks == s.tasks[i := s.tasks[i].(pc := s.tasks[i].pc, fate := s.tasks[i].fate)];
  }

  lemma TaskKeepsPlaces(cfg: Config, s: State, s1: State, i: nat)
    requires WellPlaced(cfg, s) && OnlyTask(s, s1, i)
    ensures WellPlaced(cfg, s1)
  {
    assert forall j :: 0 <= j < |s.tasks| ==> s1.tasks[j].req == s.tasks[j].req;
  }

  lemma TakeKeepsPlaces(cfg: Config, s: State, t: nat)
    requires WellPlaced(cfg, s)
    ensures WellPlaced(cfg, DoThread(cfg, s, Take(t)))
  {
  }

  lemma RejectKeepsPlaces(cfg: Config, s: State, t: nat)
    requires WellPlaced(cfg, s)
    ensures WellPlaced(cfg, DoThread(cfg, s, Reject(t)))
  {
  }

  lemma HandOverKeepsPlaces(cfg: Config, s: State, t: nat)
    requires WellPlaced(cfg, s)
    ensures WellPlaced(cfg, DoThread(cfg, s, HandOver(t)))
  {
  }

  lemma ThreadKeepsPlaces(cfg: Config, s: State, step: Step)
    requires WellPlaced(cfg, s)
    ensures WellPlaced(cfg, DoThread(cfg, s, step))
  {
    if step.Take? {
      TakeKeepsPlaces(cfg, s, step.t);
    } else if step.Reject? {
      RejectKeepsPlaces(cfg, s, step.t);
    } else if step.HandOver? {
      HandOverKeepsPlaces(cfg, s, step.t);
    }
  }

  lemma DoKeepsPlaces(cfg: Config, s: State, step: Step)
    requires WellPlaced(cfg, s)
    ensures WellPlaced(cfg, Do(cfg, s, step))
  {
    if step.Take? || step.Reject? || step.HandOver? {
      ThreadKeepsPlaces(cfg, s, step);
    } else if step.i < |s.tasks| {
      TaskStepIsLocal(cfg, s, step, step.i);
      TaskKeepsPlaces(cfg, s, DoTask(cfg, s, step, step.i), step.i);
    }
  }

  // ---------- what was decided fits where a task is ----------

  ghost predicate TaskRight(cfg: Config, task: Task) {
    && task.req < |cfg.inbox| && cfg.inbox[task.req].meta.Timed?
    && (task.pooled <==> cfg.pool && Share(cfg, task.req) != [])
    && (match task.pc
        case Waiting => task.fate.Open?
        case Ready => task.fate.Open?
        case Calling => task.fate.Called?
        case Refusing => task.fate.Refused? && !task.pooled
        case Replying(answer) =>
          (task.fate.Late? && answer == RequestTimeout) || (task.fate.Returned? && answer == Handled(task.fate.result))
        case Releasing => (task.fate.Late? || task.fate.Returned?) && !task.pooled
        case Done => task.fate.Late? || task.fate.Returned? || (task.fate.Refused? && !task.pooled))
    && var meta := cfg.inbox[task.req].meta;
       match task.fate
       case Refused(now) => Elapsed(meta, now) >= meta.timeout
       case Late(now, fired) => fired || Elapsed(meta, now) > Half(meta.timeout)
       case _ => true
  }

  ghost predicate TasksRight(cfg: Config, s: State) { forall i :: 0 <= i < |s.tasks| ==> TaskRight(cfg, s.tasks[i]) }

  lemma DoKeepsTasks(cfg: Config, s: State, step: Step)
    requires TasksRight(cfg, s)
    ensures TasksRight(cfg, Do(cfg, s, step))
  {
    if !step.Take? && !step.Reject? && !step.HandOver? && step.i < |s.tasks| {
      TaskStepIsLocal(cfg, s, step, step.i);
      assert TaskRight(cfg, s.tasks[step.i]);
      assert TaskRight(cfg, Do(cfg, s, step).tasks[step.i]);
    }
  }

  // ---------- replies ----------

  ghost function ReplyTo(r: nat): Reply -> bool { (x: Reply) => x.req == r }

  ghost function RepliesTo(published: seq<Reply>, r: nat): nat { HowMany(published, ReplyTo(r)) }

  lemma AppendReply(published: seq<Reply>, x: Reply)
    ensures forall r :: RepliesTo(published + [x], r) == RepliesTo(published, r) + if x.req == r then 1 else 0
  {
    forall r { CountAppend(published, x, ReplyTo(r)); }
  }

  /** The request has been answered, or would have been if it were not a notify. */
  ghost predicate Answered(s: State, r: nat) {
    r < |s.places| && match s.places[r]
                      case AtThread(_) => false
                      case InTask(i) => i < |s.tasks| && (s.tasks[i].pc.Releasing? || s.tasks[i].pc.Done?)
                      case Closed => true
  }

  ghost function Due(cfg: Config, s: State, r: nat): nat {
    if r < |cfg.inbox| && Answered(s, r) && !cfg.inbox[r].notify then 1 else 0
  }

  ghost predicate RepliesRight(cfg: Config, s: State) {
    && (forall r: nat :: RepliesTo(s.published, r) == Due(cfg, s, r))
    && (forall j :: 0 <= j < |s.published| ==>
          s.published[j].req < |cfg.inbox| && s.published[j].subject == cfg.inbox[s.published[j].req].reply)
  }

  /** Publishing for `r` keeps the replies right if nothing but the due of `r` changes, from 0 to 1. */
  lemma PublishKeepsReplies(cfg: Config, s: State, s1: State, r: nat, a: Answer)
    requires r < |cfg.inbox| && RepliesRight(cfg, s) && s1.published == Publish(cfg, s, r, a).published
    requires !Answered(s, r) && Answered(s1, r) && forall q: nat :: q != r ==> (Answered(s1, q) <==> Answered(s, q))
    ensures RepliesRight(cfg, s1)
  {
    AppendReply(s.published, Reply(r, cfg.inbox[r].reply, a));
    assert Due(cfg, s, r) == 0;
  }

  lemma SilentKeepsReplies(cfg: Config, s: State, s1: State)
    requires RepliesRight(cfg, s) && s1.published == s.published && forall q: nat :: Answered(s1, q) <==> Answered(s, q)
    ensures RepliesRight(cfg, s1)
  {
    forall r: nat ensures RepliesTo(s1.published, r) == Due(cfg, s1, r) {
      assert Answered(s1, r) <==> Answered(s, r);
    }
  }

  lemma ThreadAnswered(cfg: Config, s: State, step: Step, q: nat)
    requires WellPlaced(cfg, s) && (step.Take? || step.Reject? || step.HandOver?)
    ensures var s1 := DoThread(cfg, s, step);
            Answered(s1, q) <==>
            || Answered(s, q)
            || (step.Reject? && s1 != s && ThreadHolds(cfg, s, step.t) && s.threads[step.t].slot == Some(q))
  {
  }

  lemma TaskAnswered(cfg: Config, s: State, step: Step, i: nat, q: nat)
    requires WellPlaced(cfg, s) && i < |s.tasks|
    ensures var s1 := DoTask(cfg, s, step, i);
            Answered(s1, q) <==>
            || Answered(s, q)
            || (step.Send? && (s.tasks[i].pc.Replying? || s.tasks[i].pc.Refusing?) && s.tasks[i].req == q)
  {
    TaskStepIsLocal(cfg, s, step, i);
  }

  lemma DoKeepsReplies(cfg: Config, s: State, step: Step)
    requires WellPlaced(cfg, s) && RepliesRight(cfg, s)
    ensures RepliesRight(cfg, Do(cfg, s, step))
  {
    var s1 := Do(cfg, s, step);
    if step.Take? || step.Reject? || step.HandOver? {
      forall q: nat { ThreadAnswered(cfg, s, step, q); }
      if step.Reject? && s1 != s {
        PublishKeepsReplies(cfg, s, s1, s.threads[step.t].slot.value, Internal);
      } else {
        SilentKeepsReplies(cfg, s, s1);
      }
    } else if step.i < |s.tasks| {
      var task := s.tasks[step.i];
      forall q: nat { TaskAnswered(cfg, s, step, step.i, q); }
      if step.Send? && (task.pc.Replying? || task.pc.Refusing?) {
        PublishKeepsReplies(cfg, s, s1, task.req, if task.pc.Replying? then task.pc.answer else TooManyRequests);
      } else {
        SilentKeepsReplies(cfg, s, s1);
      }
    }
  }

  // ---------- handler calls ----------

  ghost function CallFor(r: nat): Call -> bool { (x: Call) => x.req == r }

  ghost function CallsFor(calls: seq<Call>, r: nat): nat { HowMany(calls, CallFor(r)) }

  /** The handler has been called for this request. */
  ghost predicate WasCalled(s: State, r: nat) {
    r < |s.places| && s.places[r].InTask? && s.places[r].i < |s.tasks|
    && (s.tasks[s.places[r].i].fate.Called? || s.tasks[s.places[r].i].fate.Returned?)
  }

  ghost predicate CallInTime(cfg: Config, x: Call) {
    && x.req < |cfg.inbox| && cfg.inbox[x.req].meta.Timed?
    && Elapsed(cfg.inbox[x.req].meta, x.now) <= Half(cfg.inbox[x.req].meta.timeout)
  }

  ghost predicate CallsRight(cfg: Config, s: State) {
    && (forall r: nat :: CallsFor(s.calls, r) == if WasCalled(s, r) then 1 else 0)
    && (forall j :: 0 <= j < |s.calls| ==> CallInTime(cfg, s.calls[j]))
  }

  lemma AppendCall(calls: seq<Call>, x: Call)
    ensures forall r :: CallsFor(calls + [x], r) == CallsFor(calls, r) + if x.req == r then 1 else 0
  {
    forall r { CountAppend(calls, x, CallFor(r)); }
  }

  /** Between them the steps that leave the calls alone and the one that adds one. */
  ghost predicate CallsMove(cfg: Config, s: State, s1: State, x: Call) {
    || (s1.calls == s.calls && forall r: nat :: WasCalled(s1, r) <==> WasCalled(s, r))
    || (&& s1.calls == s.calls + [x] && CallInTime(cfg, x) && !WasCalled(s, x.req)
        && forall r: nat :: WasCalled(s1, r) <==> WasCalled(s, r) || r == x.req)
  }

  lemma CallsKept(cfg: Config, s: State, s1: State, x: Call)
    requires CallsRight(cfg, s) && CallsMove(cfg, s, s1, x)
    ensures CallsRight(cfg, s1)
  {
    AppendCall(s.calls, x);
  }

  lemma ThreadCalls(cfg: Config, s: State, step: Step, r: nat)
    requires WellPlaced(cfg, s)
    ensures DoThread(cfg, s, step).calls == s.calls && (WasCalled(DoThread(cfg, s, step), r) <==> WasCalled(s, r))
  {
  }

  lemma TaskCalls(cfg: Config, s: State, step: Step, i: nat)
    requires WellPlaced(cfg, s) && TasksRight(cfg, s) && i < |s.tasks|
    ensures CallsMove(cfg, s, DoTask(cfg, s, step, i), Call(s.tasks[i].req, if step.Check? then step.now else 0))
  {
    var s1 := DoTask(cfg, s, step, i);
    TaskStepIsLocal(cfg, s, step, i);
    assert TaskRight(cfg, s.tasks[i]);
    forall r: nat ensures WasCalled(s1, r) <==> WasCalled(s, r) || (s1.calls != s.calls && r == s.tasks[i].req) {
      if r < |s.places| && s.places[r] == InTask(i) { assert r == s.tasks[i].req; }
    }
  }

  lemma DoKeepsCalls(cfg: Config, s: State, step: Step)
    requires WellPlaced(cfg, s) && TasksRight(cfg, s) && CallsRight(cfg, s)
    ensures CallsRight(cfg, Do(cfg, s, step))
  {
    if step.Take? || step.Reject? || step.HandOver? {
      forall r: nat { ThreadCalls(cfg, s, step, r); }
      CallsKept(cfg, s, DoThread(cfg, s, step), Call(0, 0));
    } else if step.i < |s.tasks| {
      TaskCalls(cfg, s, step, step.i);
      CallsKept(cfg, s, DoTask(cfg, s, step, step.i), Call(s.tasks[step.i].req, if step.Check? then step.now else 0));
    }
  }

  // ---------- which answer ----------

  /** The answer that what was decided about a request calls for. */
  ghost function AnswerTo(s: State, r: nat): Answer {
    if r < |s.places| && s.places[r].InTask? && s.places[r].i < |s.tasks| then
      match s.tasks[s.places[r].i].fate
      case Refused(_) => TooManyRequests
      case Late(_, _) => RequestTimeout
      case Returned(x) => Handled(x)
      case _ => Internal
    else Internal
  }

  ghost predicate AnswersRight(s: State) {
    forall j :: 0 <= j < |s.published| ==>
      Answered(s, s.published[j].req) && s.published[j].answer == AnswerTo(s, s.published[j].req)
  }

  lemma ThreadAnswers(cfg: Config, s: State, step: Step)
    requires WellPlaced(cfg, s) && AnswersRight(s) && (step.Take? || step.Reject? || step.HandOver?)
    ensures AnswersRight(DoThread(cfg, s, step))
  {
    var s1 := DoThread(cfg, s, step);
    forall j | 0 <= j < |s1.published|
      ensures Answered(s1, s1.published[j].req) && s1.published[j].answer == AnswerTo(s1, s1.published[j].req)
    {
      var q := s1.published[j].req;
      if j < |s.published| { assert s1.published[j] == s.published[j] && Answered(s, q); }
      ThreadAnswered(cfg, s, step, q);
    }
  }

  /** A request that was answered keeps its answer. */
  lemma AnswerStays(cfg: Config, s: State, step: Step, i: nat, q: nat)
    requires WellPlaced(cfg, s) && i < |s.tasks| && Answered(s, q)
    ensures AnswerTo(DoTask(cfg, s, step, i), q) == AnswerTo(s, q)
  {
    TaskStepIsLocal(cfg, s, step, i);
  }

  lemma TaskAnswers(cfg: Config, s: State, step: Step, i: nat)
    requires WellPlaced(cfg, s) && TasksRight(cfg, s) && AnswersRight(s) && i < |s.tasks|
    ensures AnswersRight(DoTask(cfg, s, step, i))
  {
    var s1 := DoTask(cfg, s, step, i);
    TaskStepIsLocal(cfg, s, step, i);
    assert TaskRight(cfg, s.tasks[i]);
    forall j | 0 <= j < |s1.published|
      ensures Answered(s1, s1.published[j].req) && s1.published[j].answer == AnswerTo(s1, s1.published[j].req)
    {
      var q := s1.published[j].req;
      TaskAnswered(cfg, s, step, i, q);
      if j < |s.published| {
        assert s1.published[j] == s.published[j] && Answered(s, q);
        AnswerStays(cfg, s, step, i, q);
      }
    }
  }

  lemma DoKeepsAnswers(cfg: Config, s: State, step: Step)
    requires WellPlaced(cfg, s) && TasksRight(cfg, s) && AnswersRight(s)
    ensures AnswersRight(Do(cfg, s, step))
  {
    if step.Take? || step.Reject? || step.HandOver? {
      ThreadAnswers(cfg, s, step);
    } else if step.i < |s.tasks| {
      TaskAnswers(cfg, s, step, step.i);
    }
  }

  // ---------- the semaphore ----------

  ghost predicate Holding(task: Task) {
    !task.pooled && (task.pc.Ready? || task.pc.Calling? || task.pc.Replying? || task.pc.Releasing?)
  }

  ghost function Holders(tasks: seq<Task>): set<nat> { set i: nat | i < |tasks| && Holding(tasks[i]) }

  ghost predicate PermitsRight(cfg: Config, s: State) {
    s.free >= 0 && s.free + |Holders(s.tasks)| == cfg.weight
  }

  lemma HoldersUpdate(tasks: seq<Task>, i: nat, task: Task)
    requires i < |tasks|
    ensures Holders(tasks[i := task]) == if Holding(task) then Holders(tasks) + {i} else Holders(tasks) - {i}
  {
  }

  /** Free permits change opposite to whether the one task that moves holds one. */
  ghost predicate Balanced(s: State, s1: State, i: nat) {
    && OnlyTask(s, s1, i)
    && s1.free - s.free == (if Holding(s.tasks[i]) then 1 else 0) - (if Holding(s1.tasks[i]) then 1 else 0)
    && s1.free >= 0
  }

  lemma BalancedKeepsPermits(cfg: Config, s: State, s1: State, i: nat)
    requires PermitsRight(cfg, s) && Balanced(s, s1, i)
    ensures PermitsRight(cfg, s1)
  {
    HoldersUpdate(s.tasks, i, s1.tasks[i]);
  }

  lemma TaskStepIsBalanced(cfg: Config, s: State, step: Step, i: nat)
    requires i < |s.tasks| && s.free >= 0 && TaskRight(cfg, s.tasks[i])
    ensures Balanced(s, DoTask(cfg, s, step, i), i)
  {
    TaskStepIsLocal(cfg, s, step, i);
  }

  lemma HandOverKeepsPermits(cfg: Config, s: State, t: nat)
    requires PermitsRight(cfg, s)
    ensures PermitsRight(cfg, DoThread(cfg, s, HandOver(t)))
  {
    assert Holders(DoThread(cfg, s, HandOver(t)).tasks) == Holders(s.tasks);
  }

  lemma DoKeepsPermits(cfg: Config, s: State, step: Step)
    requires TasksRight(cfg, s) && PermitsRight(cfg, s)
    ensures PermitsRight(cfg, Do(cfg, s, step))
  {
    match step {
      case Take(_) =>
      case Reject(_) =>
      case HandOver(t) => HandOverKeepsPermits(cfg, s, t);
      case _ =>
        if step.i < |s.tasks| {
          TaskStepIsBalanced(cfg, s, step, step.i);
          BalancedKeepsPermits(cfg, s, DoTask(cfg, s, step, step.i), step.i);
        }
    }
  }

  /** How many steps of the run acquire, or release, a permit for task i. */
  ghost function Acquires(cfg: Config, steps: seq<Step>, i: nat): nat {
    if steps == [] then 0
    else
      var n := |steps| - 1;
      var s := Run(cfg, steps[..n]);
      Acquires(cfg, steps[..n], i) + if steps[n] == Acquire(i) && Do(cfg, s, steps[n]).free == s.free - 1 then 1 else 0
  }

  ghost function Releases(cfg: Config, steps: seq<Step>, i: nat): nat {
    if steps == [] then 0
    else
      var n := |steps| - 1;
      var s := Run(cfg, steps[..n]);
      Releases(cfg, steps[..n], i) + if steps[n] == Release(i) && Do(cfg, s, steps[n]).free == s.free + 1 then 1 else 0
  }

  ghost predicate HasAcquired(s: State, i: nat) {
    i < |s.tasks| && !s.tasks[i].pooled && !s.tasks[i].pc.Waiting? && !s.tasks[i].fate.Refused?
  }

  ghost predicate HasReleased(s: State, i: nat) {
    i < |s.tasks| && !s.tasks[i].pooled && s.tasks[i].pc.Done? && !s.tasks[i].fate.Refused?
  }

  lemma PermitStep(cfg: Config, s: State, step: Step, i: nat)
    requires TasksRight(cfg, s)
    ensures var s1 := Do(cfg, s, step);
            && (step == Acquire(i) && s1.free == s.free - 1 <==> !HasAcquired(s, i) && HasAcquired(s1, i))
            && (step == Release(i) && s1.free == s.free + 1 <==> !HasReleased(s, i) && HasReleased(s1, i))
            && (HasAcquired(s, i) ==> HasAcquired(s1, i)) && (HasReleased(s, i) ==> HasReleased(s1, i))
  {
    if i < |s.tasks| { assert TaskRight(cfg, s.tasks[i]); }
    if !step.Take? && !step.Reject? && !step.HandOver? && step.i < |s.tasks| {
      TaskStepIsLocal(cfg, s, step, step.i);
    }
  }

  lemma {:induction false} PermitCounts(cfg: Config, steps: seq<Step>, i: nat)
    ensures var s := Run(cfg, steps);
            && TasksRight(cfg, s)
            && Acquires(cfg, steps, i) == (if HasAcquired(s, i) then 1 else 0)
            && Releases(cfg, steps, i) == (if HasReleased(s, i) then 1 else 0)
  {
    if steps != [] {
      var n := |steps| - 1;
      PermitCounts(cfg, steps[..n], i);
      PermitStep(cfg, Run(cfg, steps[..n]), steps[n], i);
      DoKeepsTasks(cfg, Run(cfg, steps[..n]), steps[n]);
    }
  }

  // ---------- every run ----------

  ghost predicate Good(cfg: Config, s: State) {
    && |s.threads| == cfg.threads && WellPlaced(cfg, s) && TasksRight(cfg, s)
    && RepliesRight(cfg, s) && AnswersRight(s) && CallsRight(cfg, s) && PermitsRight(cfg, s)
  }

  lemma StartIsGood(cfg: Config)
    ensures Good(cfg, Run(cfg, []))
  {
    assert Holders([]) == {};
  }

  lemma DoKeepsGood(cfg: Config, s: State, step: Step)
    requires Good(cfg, s)
    ensures Good(cfg, Do(cfg, s, step))
  {
    DoKeepsPlaces(cfg, s, step);
    DoKeepsTasks(cfg, s, step);
    DoKeepsReplies(cfg, s, step);
    DoKeepsAnswers(cfg, s, step);
    DoKeepsCalls(cfg, s, step);
    DoKeepsPermits(cfg, s, step);
  }

  lemma {:induction false} RunIsGood(cfg: Config, steps: seq<Step>)
    ensures Good(cfg, Run(cfg, steps))
  {
    if steps == [] {
      StartIsGood(cfg);
    } else {
      RunIsGood(cfg, steps[..|steps| - 1]);
      DoKeepsGood(cfg, Run(cfg, steps[..|steps| - 1]), steps[|steps| - 1]);
    }
  }

  /** No thread and no task has anything left to do. */
  ghost predicate Idle(s: State) {
    (forall t :: 0 <= t < |s.threads| ==> !s.threads[t].busy) && forall i :: 0 <= i < |s.tasks| ==> s.tasks[i].pc.Done?
  }

  /** In every run a request gets at most one reply, on its own reply subject, a notify gets none, and once nothing is
      outstanding every other request that was taken has exactly one. */
  lemma ExactlyOneReply(cfg: Config, steps: seq<Step>, r: nat)
    requires r < |cfg.inbox|
    ensures var s := Run(cfg, steps);
            && RepliesTo(s.published, r) <= (if cfg.inbox[r].notify then 0 else 1)
            && (forall j :: 0 <= j < |s.published| && s.published[j].req == r ==>
                  s.published[j].subject == cfg.inbox[r].reply)
            && (Idle(s) && r < |s.places| && !cfg.inbox[r].notify ==> RepliesTo(s.published, r) == 1)
  {
    RunIsGood(cfg, steps);
    var s := Run(cfg, steps);
    assert RepliesTo(s.published, r) == Due(cfg, s, r);
  }

  /** In every run a published reply says what happened to its request: Internal exactly when its metadata is unusable;
      TooManyRequests only when its acquire was refused after the timeout; RequestTimeout only when the start-time check
      found it late or its timer fired; a handler result only when the handler, called once and in time, returned it. In
      the other cases the handler was never called. */
  lemma ReplySaysWhatHappened(cfg: Config, steps: seq<Step>, j: nat)
    requires j < |Run(cfg, steps).published|
    ensures var s := Run(cfg, steps);
            var r, answer := s.published[j].req, s.published[j].answer;
            && r < |cfg.inbox| && (answer.Internal? <==> !cfg.inbox[r].meta.Timed?)
            && CallsFor(s.calls, r) == (if answer.Handled? then 1 else 0)
            && (!answer.Internal? ==>
                  exists task :: task in s.tasks && task.req == r && Explains(cfg.inbox[r].meta, task.fate, answer))
  {
    RunIsGood(cfg, steps);
    var s := Run(cfg, steps);
    var r := s.published[j].req;
    assert Answered(s, r) && s.published[j].answer == AnswerTo(s, r);
    if s.places[r].InTask? {
      var task := s.tasks[s.places[r].i];
      assert TaskRight(cfg, task) && task in s.tasks;
    } else {
      assert !cfg.inbox[r].meta.Timed?;
    }
  }

  ghost predicate Explains(meta: Meta, fate: Fate, answer: Answer) {
    meta.Timed?
    && match answer
       case Internal => false
       case TooManyRequests => fate.Refused? && Elapsed(meta, fate.now) >= meta.timeout
       case RequestTimeout => fate.Late? && (fate.fired || Elapsed(meta, fate.now) > Half(meta.timeout))
       case Handled(x) => fate == Returned(x)
  }

  /** In every run the handler runs at most once for a request, and never when more than half of its timeout had passed
      since its start time. */
  lemma HandlerAtMostOnceInTime(cfg: Config, steps: seq<Step>, r: nat)
    ensures var s := Run(cfg, steps);
            && CallsFor(s.calls, r) <= 1
            && forall j :: 0 <= j < |s.calls| ==>
                 && CallInTime(cfg, s.calls[j])
                 && var meta := cfg.inbox[s.calls[j].req].meta;
                    meta.timeout >= 0 ==> 2 * (s.calls[j].now - meta.start) <= meta.timeout
  {
    RunIsGood(cfg, steps);
  }

  /** In every run a task acquires and releases at most one permit each, it holds one exactly between the two, and once
      it is done it has released what it acquired. */
  lemma OneReleasePerAcquire(cfg: Config, steps: seq<Step>, i: nat)
    ensures var s, a, r := Run(cfg, steps), Acquires(cfg, steps, i), Releases(cfg, steps, i);
            && r <= a <= 1
            && (a - r == 1 <==> i < |s.tasks| && Holding(s.tasks[i]))
            && (i < |s.tasks| && s.tasks[i].pc.Done? ==> a == r)
            && (i < |s.tasks| && (s.tasks[i].pooled || s.tasks[i].fate.Refused?) ==> a == 0)
  {
    PermitCounts(cfg, steps, i);
    var s := Run(cfg, steps);
    if i < |s.tasks| { assert TaskRight(cfg, s.tasks[i]); }
  }

  /** In every run free and held permits add up to the weight, so no more than that many handler calls outside the pool
      are under way at a time. */
  lemma SemaphoreConserved(cfg: Config, steps: seq<Step>)
    ensures var s := Run(cfg, steps);
            && s.free + |Holders(s.tasks)| == cfg.weight
            && |set i: nat | i < |s.tasks| && !s.tasks[i].pooled && s.tasks[i].pc.Calling?| <= cfg.weight
            && (Idle(s) ==> s.free == cfg.weight)
  {
    RunIsGood(cfg, steps);
    var s := Run(cfg, steps);
    var calling := set i: nat | i < |s.tasks| && !s.tasks[i].pooled && s.tasks[i].pc.Calling?;
    SubsetSize(calling, Holders(s.tasks));
    if Idle(s) { assert Holders(s.tasks) == {}; }
  }

  // ---------- what every request comes to ----------

  ghost function After(cfg: Config, s: State, more: seq<Step>): State
    decreases |more|
  {
    if more == [] then s else After(cfg, Do(cfg, s, more[0]), more[1..])
  }

  /** At most half of the timeout has passed since the start time; a negative timeout is halved toward zero. */
  ghost predicate InTime(meta: Meta, now: int)
    requires meta.Timed?
  {
    var elapsed := now - meta.start;
    2 * elapsed <= meta.timeout || (meta.timeout < 0 && 2 * elapsed == meta.timeout + 1)
  }

  lemma HalfIsInTime(meta: Meta, now: int)
    requires meta.Timed?
    ensures Elapsed(meta, now) <= Half(meta.timeout) <==> InTime(meta, now)
  {
  }

  /** What the client of request r is sent when the answer is `a`: nothing if it sent a notify. */
  ghost predicate Sent(cfg: Config, s: State, s1: State, r: nat, a: Answer)
    requires r < |cfg.inbox|
  {
    if cfg.inbox[r].notify then s1.published == s.published
    else s1.published == s.published + [Reply(r, cfg.inbox[r].reply, a)]
  }

  /** A request that is looked at in time is handed to the handler, once, and the client gets what that returns. */
  lemma InTimeIsHandled(cfg: Config, s: State, i: nat, now: int, x: int)
    requires Good(cfg, s) && i < |s.tasks| && s.tasks[i].pc.Ready?
    requires TaskRight(cfg, s.tasks[i]) && InTime(cfg.inbox[s.tasks[i].req].meta, now)
    ensures var r := s.tasks[i].req;
            var s1 := After(cfg, s, [Check(i, now, false), Return(i, x), Send(i)]);
            && s1.calls == s.calls + [Call(r, now)] && CallsFor(s1.calls, r) == 1
            && Sent(cfg, s, s1, r, Handled(x)) && |s1.tasks| == |s.tasks|
            && s1.tasks[i].pc == if s.tasks[i].pooled then Done else Releasing
  {
    var r := s.tasks[i].req;
    HalfIsInTime(cfg.inbox[r].meta, now);
    var s1 := Do(cfg, s, Check(i, now, false));
    var s2 := Do(cfg, s1, Return(i, x));
    var s3 := Do(cfg, s2, Send(i));
    AfterThree(cfg, s, Check(i, now, false), Return(i, x), Send(i));
    AppendCall(s.calls, Call(r, now));
    assert !WasCalled(s, r);
  }

  lemma AfterTwo(cfg: Config, s: State, a: Step, b: Step)
    ensures After(cfg, s, [a, b]) == Do(cfg, Do(cfg, s, a), b)
  {
    assert [a, b][1..] == [b] && [b][1..] == [];
    assert After(cfg, Do(cfg, s, a), [b]) == After(cfg, Do(cfg, Do(cfg, s, a), b), []);
  }

  lemma AfterThree(cfg: Config, s: State, a: Step, b: Step, c: Step)
    ensures After(cfg, s, [a, b, c]) == Do(cfg, Do(cfg, Do(cfg, s, a), b), c)
  {
    assert [a, b, c][1..] == [b, c];
    AfterTwo(cfg, Do(cfg, s, a), b, c);
  }

  /** One that is looked at too late, or whose timer fires, is answered with a timeout and never handed over. */
  lemma LateIsTimedOut(cfg: Config, s: State, i: nat, now: int, fired: bool)
    requires i < |s.tasks| && s.tasks[i].pc.Ready? && TaskRight(cfg, s.tasks[i])
    requires fired || !InTime(cfg.inbox[s.tasks[i].req].meta, now)
    ensures var s1 := After(cfg, s, [Check(i, now, fired), Send(i)]);
            && s1.calls == s.calls && Sent(cfg, s, s1, s.tasks[i].req, RequestTimeout) && |s1.tasks| == |s.tasks|
            && s1.tasks[i].pc == if s.tasks[i].pooled then Done else Releasing
  {
    HalfIsInTime(cfg.inbox[s.tasks[i].req].meta, now);
    AfterTwo(cfg, s, Check(i, now, fired), Send(i));
  }

  /** One that waits for a permit until its timeout can be refused, is then told so, and holds no permit. */
  lemma RefusedIsAnswered(cfg: Config, s: State, i: nat, now: int)
    requires i < |s.tasks| && s.tasks[i].pc.Waiting? && !s.tasks[i].pooled && TaskRight(cfg, s.tasks[i])
    requires var meta := cfg.inbox[s.tasks[i].req].meta; now - meta.start >= meta.timeout
    ensures var s1 := After(cfg, s, [Refuse(i, now), Send(i)]);
            && s1.calls == s.calls && Sent(cfg, s, s1, s.tasks[i].req, TooManyRequests) && s1.free == s.free
            && |s1.tasks| == |s.tasks| && s1.tasks[i].pc.Done?
  {
    AfterTwo(cfg, s, Refuse(i, now), Send(i));
  }

  /** A free thread takes the next request; with unusable metadata that is answered at once. */
  lemma UnusableIsAnswered(cfg: Config, s: State, t: nat)
    requires t < |s.threads| && !s.threads[t].busy && |s.places| < |cfg.inbox|
    requires !cfg.inbox[|s.places|].meta.Timed?
    ensures var s1 := After(cfg, s, [Take(t), Reject(t)]);
            && Sent(cfg, s, s1, |s.places|, Internal) && s1.calls == s.calls && s1.tasks == s.tasks
            && s1.places == s.places + [Closed] && t < |s1.threads| && !s1.threads[t].busy
  {
    AfterTwo(cfg, s, Take(t), Reject(t));
  }

  /** Otherwise it becomes a pool task exactly if there is a pool and the request names a share, and else a
      goroutine. */
  lemma UsableIsHandedOver(cfg: Config, s: State, t: nat)
    requires t < |s.threads| && !s.threads[t].busy && |s.places| < |cfg.inbox|
    requires cfg.inbox[|s.places|].meta.Timed?
    ensures var s1 := After(cfg, s, [Take(t), HandOver(t)]);
            && s1.published == s.published && s1.calls == s.calls && s1.places == s.places + [InTask(|s.tasks|)]
            && |s1.tasks| == |s.tasks| + 1 && s1.tasks[..|s.tasks|] == s.tasks
            && t < |s1.threads| && !s1.threads[t].busy
            && var task := s1.tasks[|s.tasks|];
               && task.req == |s.places| && task.pc.Waiting?
               && (task.pooled <==> cfg.pool && |cfg.inbox[|s.places|].meta.share| > 0)
  {
    AfterTwo(cfg, s, Take(t), HandOver(t));
  }

  // ---------- over runs ----------

  /** The step refuses request r, or finds it late. */
  ghost predicate Waives(cfg: Config, s: State, step: Step, r: nat) {
    && r < |cfg.inbox| && cfg.inbox[r].meta.Timed? && (step.Refuse? || step.Check?)
    && step.i < |s.tasks| && s.tasks[step.i].req == r && Do(cfg, s, step) != s
    && (step.Check? ==> step.fired || !InTime(cfg.inbox[r].meta, step.now))
  }

  /** Some step of the run did. */
  ghost predicate Waived(cfg: Config, steps: seq<Step>, r: nat) {
    steps != [] && (var n := |steps| - 1;
                    Waived(cfg, steps[..n], r) || Waives(cfg, Run(cfg, steps[..n]), steps[n], r))
  }

  /** In some step of the run the handler, called for r, returned x. */
  ghost predicate HandlerReturned(cfg: Config, steps: seq<Step>, r: nat, x: int) {
    steps != [] && (var n := |steps| - 1;
                    var s := Run(cfg, steps[..n]);
                    || HandlerReturned(cfg, steps[..n], r, x)
                    || (&& steps[n].Return? && steps[n].result == x && steps[n].i < |s.tasks|
                        && s.tasks[steps[n].i].req == r && s.tasks[steps[n].i].pc.Calling?))
  }

  ghost predicate Bad(fate: Fate) { fate.Refused? || fate.Late? }

  ghost predicate HasTask(s: State, r: nat) { r < |s.places| && s.places[r].InTask? && s.places[r].i < |s.tasks| }

  ghost function FateOf(s: State, r: nat): Fate { if HasTask(s, r) then s.tasks[s.places[r].i].fate else Open }

  lemma TaskFate(cfg: Config, s: State, step: Step, r: nat)
    requires WellPlaced(cfg, s) && TasksRight(cfg, s) && HasTask(s, r)
    requires !step.Take? && !step.Reject? && !step.HandOver? && step.i < |s.tasks|
    ensures var s1 := Do(cfg, s, step);
            && (Bad(FateOf(s1, r)) <==> Bad(FateOf(s, r)) || Waives(cfg, s, step, r))
            && (FateOf(s1, r).Returned? ==>
                  || FateOf(s, r) == FateOf(s1, r)
                  || (step == Return(s.places[r].i, FateOf(s1, r).result) && s.tasks[step.i].pc.Calling?))
  {
    TaskStepIsLocal(cfg, s, step, step.i);
    assert TaskRight(cfg, s.tasks[step.i]) && TaskRight(cfg, s.tasks[s.places[r].i]);
    if step.Check? { HalfIsInTime(cfg.inbox[s.tasks[step.i].req].meta, step.now); }
  }

  lemma ThreadFate(cfg: Config, s: State, step: Step, r: nat)
    requires WellPlaced(cfg, s) && (step.Take? || step.Reject? || step.HandOver?)
    ensures FateOf(Do(cfg, s, step), r) == FateOf(s, r)
  {
  }

  lemma NoTaskFate(cfg: Config, s: State, step: Step, r: nat)
    requires WellPlaced(cfg, s) && !HasTask(s, r) && !step.Take? && !step.Reject? && !step.HandOver?
    ensures FateOf(Do(cfg, s, step), r) == Open && !Waives(cfg, s, step, r)
  {
    if step.i < |s.tasks| { TaskStepIsLocal(cfg, s, step, step.i); }
  }

  lemma {:induction false} RunFate(cfg: Config, steps: seq<Step>, r: nat)
    ensures var fate := FateOf(Run(cfg, steps), r);
            && (Waived(cfg, steps, r) <==> Bad(fate))
            && (fate.Returned? ==> HandlerReturned(cfg, steps, r, fate.result))
  {
    if steps != [] {
      var s, step := Run(cfg, steps[..|steps| - 1]), steps[|steps| - 1];
      RunFate(cfg, steps[..|steps| - 1], r);
      RunIsGood(cfg, steps[..|steps| - 1]);
      if step.Take? || step.Reject? || step.HandOver? {
        ThreadFate(cfg, s, step, r);
      } else if !HasTask(s, r) {
        NoTaskFate(cfg, s, step, r);
      } else if step.i < |s.tasks| {
        TaskFate(cfg, s, step, r);
      }
    }
  }

  /** Once nothing is outstanding, every usable request that was taken has had its handler called exactly once, and was
      answered with what the handler returned, if and only if no step of the run refused it or found it late; otherwise
      the handler was never called for it. */
  lemma ServedUnlessWaived(cfg: Config, steps: seq<Step>, r: nat)
    requires r < |cfg.inbox| && cfg.inbox[r].meta.Timed? && r < |Run(cfg, steps).places| && Idle(Run(cfg, steps))
    ensures var s := Run(cfg, steps);
            && CallsFor(s.calls, r) == (if Waived(cfg, steps, r) then 0 else 1)
            && (!Waived(cfg, steps, r) ==>
                  exists x :: HandlerReturned(cfg, steps, r, x)
                              && (cfg.inbox[r].notify || Reply(r, cfg.inbox[r].reply, Handled(x)) in s.published))
  {
    RunIsGood(cfg, steps);
    RunFate(cfg, steps, r);
    var s := Run(cfg, steps);
    assert HasTask(s, r);
    var task := s.tasks[s.places[r].i];
    assert TaskRight(cfg, task) && task.pc.Done?;
    if !Waived(cfg, steps, r) && !cfg.inbox[r].notify {
      var j := ReplyExists(cfg, steps, r);
      assert s.published[j].answer == AnswerTo(s, r);
    }
  }

  lemma ReplyExists(cfg: Config, steps: seq<Step>, r: nat) returns (j: nat)
    requires r < |cfg.inbox| && !cfg.inbox[r].notify && r < |Run(cfg, steps).places| && Idle(Run(cfg, steps))
    ensures var s := Run(cfg, steps);
            j < |s.published| && s.published[j].req == r && s.published[j].subject == cfg.inbox[r].reply
  {
    ExactlyOneReply(cfg, steps, r);
    var s := Run(cfg, steps);
    CountAtMost(s.published, ReplyTo(r));
    j :| 0 <= j < |s.published| && s.published[j].req == r;
  }

  // ---------- draining ----------

  ghost function Rank(pc: Pc): nat {
    match pc
    case Waiting => 5
    case Ready => 4
    case Calling => 3
    case Replying(_) => 2
    case Refusing => 1
    case Releasing => 1
    case Done => 0
  }

  ghost function TaskRank(): Task -> nat { (task: Task) => Rank(task.pc) }

  ghost function ThreadRank(): Thread -> nat { (thread: Thread) => if thread.busy then 6 else 0 }

  /** An upper bound on the steps until everything taken so far is finished. */
  ghost function Outstanding(s: State): nat { Sum(s.tasks, TaskRank()) + Sum(s.threads, ThreadRank()) }

  lemma ThreadStepsDrain(cfg: Config, s: State, step: Step)
    requires step.Reject? || step.HandOver?
    ensures var s1 := DoThread(cfg, s, step);
            |s1.places| == |s.places| && (s1 == s || Outstanding(s1) < Outstanding(s))
  {
    var s1 := DoThread(cfg, s, step);
    if s1 != s {
      SumUpdate(s.threads, step.t, s.threads[step.t].(busy := false), ThreadRank());
      if step.HandOver? {
        SumAppend(s.tasks, s1.tasks[|s.tasks|], TaskRank());
      }
    }
  }

  lemma TaskStepsDrain(cfg: Config, s: State, step: Step, i: nat)
    requires i < |s.tasks|
    ensures var s1 := DoTask(cfg, s, step, i); s1 == s || Outstanding(s1) < Outstanding(s)
  {
    TaskStepIsLocal(cfg, s, step, i);
    SumUpdate(s.tasks, i, DoTask(cfg, s, step, i).tasks[i], TaskRank());
  }

  /** Every step except taking a new request either does nothing or leaves less to do. */
  lemma StepsDrain(cfg: Config, s: State, step: Step)
    requires !step.Take?
    ensures Do(cfg, s, step) == s || Outstanding(Do(cfg, s, step)) < Outstanding(s)
    ensures |Do(cfg, s, step).places| == |s.places|
  {
    if step.Reject? || step.HandOver? {
      ThreadStepsDrain(cfg, s, step);
    } else if step.i < |s.tasks| {
      TaskStepsDrain(cfg, s, step, step.i);
      TaskStepIsLocal(cfg, s, step, step.i);
    }
  }

  /** The step a task that is past waiting takes next. */
  ghost function NextStep(task: Task, i: nat): Step {
    match task.pc
    case Ready => Check(i, 0, false)
    case Calling => Return(i, 0)
    case Releasing => Release(i)
    case _ => Send(i)
  }

  /** A task that is not done, and not waiting for a permit, can move on. */
  lemma TaskCanMove(cfg: Config, s: State, k: nat, step: Step)
    requires TasksRight(cfg, s) && k < |s.tasks| && !s.tasks[k].pc.Done?
    requires step == if !s.tasks[k].pc.Waiting? then NextStep(s.tasks[k], k)
                     else if s.tasks[k].pooled then StartPooled(k) else Acquire(k)
    requires s.tasks[k].pc.Waiting? && !s.tasks[k].pooled ==> s.free > 0
    ensures DoTask(cfg, s, step, k).tasks[k].pc != s.tasks[k].pc
  {
  }

  /** Some unfinished task can move on: any of the pool, one that holds a permit, or one that finds a free permit. */
  lemma SomeTaskCanMove(cfg: Config, s: State, i: nat) returns (k: nat, step: Step)
    requires Good(cfg, s) && cfg.weight >= 1 && i < |s.tasks| && !s.tasks[i].pc.Done?
    ensures k < |s.tasks| && !step.Take? && !step.Reject? && !step.HandOver? && !step.Refuse? && step.i == k
    ensures !(step.Check? && step.fired)
    ensures step.StartPooled? ==> s.tasks[i].pooled
    ensures DoTask(cfg, s, step, k) != s
  {
    k := i;
    if !s.tasks[i].pooled && s.tasks[i].pc.Waiting? && s.free == 0 {
      k :| k in Holders(s.tasks);
    }
    step := if !s.tasks[k].pc.Waiting? then NextStep(s.tasks[k], k)
            else if s.tasks[k].pooled then StartPooled(k) else Acquire(k);
    TaskCanMove(cfg, s, k, step);
  }

  /** No run gets stuck: while anything is outstanding some step other than taking a request makes progress, even if no
      acquire ever runs out of time and no timer fires. */
  lemma NeverStuck(cfg: Config, s: State) returns (step: Step)
    requires Good(cfg, s) && cfg.weight >= 1 && !Idle(s)
    ensures !step.Take? && !step.Refuse? && !(step.Check? && step.fired) && Do(cfg, s, step) != s
  {
    if t :| 0 <= t < |s.threads| && s.threads[t].busy {
      step := if cfg.inbox[s.threads[t].slot.value].meta.Timed? then HandOver(t) else Reject(t);
      assert DoThread(cfg, s, step).threads[t] != s.threads[t];
    } else {
      var i :| 0 <= i < |s.tasks| && !s.tasks[i].pc.Done?;
      var k;
      k, step := SomeTaskCanMove(cfg, s, i);
    }
  }

  /** A run of steps that each do something and take no new request. */
  ghost predicate Effective(cfg: Config, s: State, more: seq<Step>)
    decreases |more|
  {
    more == [] || (!more[0].Take? && Do(cfg, s, more[0]) != s && Effective(cfg, Do(cfg, s, more[0]), more[1..]))
  }

  /** Draining: from every reachable state, each run of effective steps without new requests is bounded by the work
      outstanding, and as long as it has not finished everything it can be continued. With ExactlyOneReply: every
      request taken is answered. */
  lemma {:induction false} EveryDrainFinishes(cfg: Config, s: State, more: seq<Step>)
    requires Good(cfg, s) && cfg.weight >= 1 && Effective(cfg, s, more)
    ensures |more| + Outstanding(After(cfg, s, more)) <= Outstanding(s)
    ensures |After(cfg, s, more).places| == |s.places|
    ensures var s1 := After(cfg, s, more); Idle(s1) || exists step: Step :: !step.Take? && Do(cfg, s1, step) != s1
    decreases |more|
  {
    if more == [] {
      if !Idle(s) {
        var step := NeverStuck(cfg, s);
      }
    } else {
      StepsDrain(cfg, s, more[0]);
      DoKeepsGood(cfg, s, more[0]);
      EveryDrainFinishes(cfg, Do(cfg, s, more[0]), more[1..]);
    }
  }

  /** The steps until everything in the inbox is served. */
  ghost function Work(cfg: Config, s: State): int { Outstanding(s) + 7 * (|cfg.inbox| - |s.places|) }

  lemma AllStepsDrain(cfg: Config, s: State, step: Step)
    ensures Do(cfg, s, step) == s || Work(cfg, Do(cfg, s, step)) < Work(cfg, s)
  {
    if step.Take? {
      if Do(cfg, s, step) != s { SumUpdate(s.threads, step.t, Thread(Some(|s.places|), true), ThreadRank()); }
    } else {
      StepsDrain(cfg, s, step);
    }
  }

  /** A run of steps that each do something. */
  ghost predicate Moving(cfg: Config, s: State, more: seq<Step>)
    decreases |more|
  {
    more == [] || (Do(cfg, s, more[0]) != s && Moving(cfg, Do(cfg, s, more[0]), more[1..]))
  }

  /** Serving everything: from every reachable state every run is bounded, and it can be continued until all the
      requests in the inbox have been taken and are finished. */
  lemma {:induction false} EverythingIsServed(cfg: Config, s: State, more: seq<Step>)
    requires Good(cfg, s) && cfg.weight >= 1 && cfg.threads >= 1 && Moving(cfg, s, more)
    ensures var s1 := After(cfg, s, more);
            && 0 <= Work(cfg, s1) && |more| + Work(cfg, s1) <= Work(cfg, s)
            && ((Idle(s1) && |s1.places| == |cfg.inbox|) || exists step: Step :: Do(cfg, s1, step) != s1)
    decreases |more|
  {
    if more == [] {
      if !Idle(s) {
        var step := NeverStuck(cfg, s);
      } else if |s.places| < |cfg.inbox| {
        assert Do(cfg, s, Take(0)).places != s.places;
      }
    } else {
      AllStepsDrain(cfg, s, more[0]);
      DoKeepsGood(cfg, s, more[0]);
      EverythingIsServed(cfg, Do(cfg, s, more[0]), more[1..]);
    }
  }
}
