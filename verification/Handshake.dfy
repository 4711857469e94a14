/** The rendezvous on syncServersRunning that keeps syncs and the watcher apart (cluster/etcd_service_discovery.go), as
    a step machine. addServer and deleteServer are split at every point where another goroutine can get in between: the
    by-ID half, the by-type half and the notification. `Slots` many syncs may be in flight at once. */
module Handshake {
  import opened Base
  import opened Replicas

  /** How far a goroutine is inside addServer or deleteServer. */
  datatype Phase =
    | Resting
    | AddStored(sv: Server)       // stored by ID
    | AddIndexed(sv: Server)      // and by type
    | DelLoaded(sv: Server)       // found by ID
    | DelRemoved(sv: Server)      // removed by ID
    | DelUnindexed(sv: Server)    // and by type

  /** A sync queries etcd, adds what it fetched, and then ranges over the by-ID map to delete what it does not keep.
      `todo` holds the IDs that were known when the range began, are not kept, and have not been visited yet. */
  datatype SyncPc =
    | Idle
    | Asking                                                          // blocked sending true
    | Querying
    | Adding(adds: seq<Server>, job: Job, phase: Phase)
    | Deleting(job: Job, todo: set<string>, phase: Phase)
    | Closing                                                         // blocked sending false

  /** All that a sync is to add and to keep, and what had been completed when it began. */
  datatype Job = Job(adds: seq<Server>, keep: set<string>, before: seq<Op>)

  datatype WatcherPc =
    | Selecting
    | Blocked                                                         // in the inner loop, waiting for false
    | Handling(todo: seq<Op>, phase: Phase, response: Response)       // working through a watch response

  /** All the operations of a watch response, and what had been completed when it came. */
  datatype Response = Response(ops: seq<Op>, before: seq<Op>)

  /** `done` lists the operations completed so far, in the order of their completion. */
  datatype State = State(cache: Cache, syncs: seq<SyncPc>, watcher: WatcherPc, done: seq<Op>)

  datatype Step =
    | BeginSync(i: nat)
    | SendTrue(i: nat)
    | QueryOk(i: nat, adds: seq<Server>, keep: set<string>)
    | QueryFail(i: nat)
    | SyncAdd(i: nat)
    | SyncContinue(i: nat)
    | BeginRange(i: nat)
    | SyncDelete(i: nat, id: string)
    | SyncSkip(i: nat, id: string)                                    // the range finds the ID gone
    | EndRange(i: nat)
    | SendFalse(i: nat)
    | Receive(todo: seq<Op>)
    | WatchStart
    | WatchContinue
    | WatchEnd

  // ---------- one goroutine inside an operation ----------

  /** The cache and phase after a micro-step, and the operation it completes. */
  datatype Micro = Micro(cache: Cache, phase: Phase, done: seq<Op>)

  /** The first micro-step: LoadOrStore of an add, Load of a delete. */
  ghost function Enter(c: Cache, op: Op): Micro {
    match op
    case Add(sv) => if sv.id in c.byId then Micro(c, Resting, [op]) else Micro(Store(c, sv), AddStored(sv), [])
    case Delete(id) => if id !in c.byId then Micro(c, Resting, [op]) else Micro(c, DelLoaded(c.byId[id]), [])
  }

  ghost function Advance(own: string, c: Cache, phase: Phase): Micro {
    match phase
    case Resting => Micro(c, Resting, [])
    case AddStored(sv) => Micro(Index(c, sv), AddIndexed(sv), [])
    case AddIndexed(sv) => Micro(Announce(own, c, sv), Resting, [Add(sv)])
    case DelLoaded(sv) => Micro(Unstore(c, sv), DelRemoved(sv), [])
    case DelRemoved(sv) => Micro(Unindex(c, sv), DelUnindexed(sv), [])
    case DelUnindexed(sv) => Micro(Notify(c, Removed(sv)), Resting, [Delete(sv.id)])
  }

  // ---------- the machine ----------

  /** Between the two sends. */
  ghost predicate Critical(pc: SyncPc) { pc.Querying? || pc.Adding? || pc.Deleting? }

  ghost function PhaseOf(pc: SyncPc): Phase { if pc.Adding? || pc.Deleting? then pc.phase else Resting }

  ghost function SetSync(s: State, i: nat, pc: SyncPc): State
    requires i < |s.syncs|
  {
    s.(syncs := s.syncs[i := pc])
  }

  /** One step of sync i; a step that is not possible changes nothing. Ranging over the map visits every ID that stays
      in it; one that is stored while the range goes on may be visited or not. */
  ghost function DoSync(own: string, s: State, step: Step, i: nat): (s1: State)
    requires i < |s.syncs|
    ensures |s1.syncs| == |s.syncs|
  {
    var pc := s.syncs[i];
    match step
    case BeginSync(_) => if pc.Idle? then SetSync(s, i, Asking) else s
    case SendTrue(_) => if pc.Asking? && !s.watcher.Handling? then SetSync(s, i, Querying).(watcher := Blocked) else s
    case QueryOk(_, adds, keep) =>
      if pc.Querying? then SetSync(s, i, Adding(adds, Job(adds, keep, s.done), Resting)) else s
    case QueryFail(_) => if pc.Querying? then SetSync(s, i, Closing) else s
    case SyncAdd(_) =>
      if pc.Adding? && pc.phase.Resting? && pc.adds != [] then
        var m := Enter(s.cache, Add(pc.adds[0]));
        SetSync(s, i, Adding(pc.adds[1..], pc.job, m.phase)).(cache := m.cache, done := s.done + m.done)
      else s
    case SyncContinue(_) =>
      if pc.Adding? || pc.Deleting? then
        var m := Advance(own, s.cache, pc.phase);
        SetSync(s, i, pc.(phase := m.phase)).(cache := m.cache, done := s.done + m.done)
      else s
    case BeginRange(_) =>
      if pc.Adding? && pc.phase.Resting? && pc.adds == [] then
        SetSync(s, i, Deleting(pc.job, s.cache.byId.Keys - pc.job.keep, Resting))
      else s
    case SyncDelete(_, id) =>
      if pc.Deleting? && pc.phase.Resting? && id in s.cache.byId && id !in pc.job.keep then
        var m := Enter(s.cache, Delete(id));
        SetSync(s, i, Deleting(pc.job, pc.todo - {id}, m.phase)).(cache := m.cache, done := s.done + m.done)
      else s
    case SyncSkip(_, id) =>
      if pc.Deleting? && pc.phase.Resting? && id !in s.cache.byId then
        SetSync(s, i, Deleting(pc.job, pc.todo - {id}, Resting))
      else s
    case EndRange(_) => if pc.Deleting? && pc.phase.Resting? && pc.todo == {} then SetSync(s, i, Closing) else s
    case SendFalse(_) => if pc.Closing? && !s.watcher.Handling? then SetSync(s, i, Idle).(watcher := Selecting) else s
    case _ => s
  }

  ghost function DoWatch(own: string, s: State, step: Step): State {
    var w := s.watcher;
    match step
    case Receive(todo) => if w.Selecting? then s.(watcher := Handling(todo, Resting, Response(todo, s.done))) else s
    case WatchStart =>
      if w.Handling? && w.phase.Resting? && w.todo != [] then
        var m := Enter(s.cache, w.todo[0]);
        s.(watcher := w.(todo := w.todo[1..], phase := m.phase), cache := m.cache, done := s.done + m.done)
      else s
    case WatchContinue =>
      if w.Handling? then
        var m := Advance(own, s.cache, w.phase);
        s.(watcher := w.(phase := m.phase), cache := m.cache, done := s.done + m.done)
      else s
    case WatchEnd => if w.Handling? && w.phase.Resting? && w.todo == [] then s.(watcher := Selecting) else s
    case _ => s
  }

  ghost function Do(own: string, s: State, step: Step): State {
    match step
    case Receive(_) => DoWatch(own, s, step)
    case WatchStart => DoWatch(own, s, step)
    case WatchContinue => DoWatch(own, s, step)
    case WatchEnd => DoWatch(own, s, step)
    case _ => if step.i < |s.syncs| then DoSync(own, s, step, step.i) else s
  }

  ghost function Run(own: string, s: State, steps: seq<Step>): State {
    if steps == [] then s else Do(own, Run(own, s, steps[..|steps| - 1]), steps[|steps| - 1])
  }

  /** An empty cache with some listeners, and `slots` syncs that may be in flight together. */
  ghost function Empty(listeners: nat): Cache { Cache(map[], map[], seq(listeners, _ => [])) }

  ghost function Init(listeners: nat, slots: nat): State {
    State(Empty(listeners), seq(slots, _ => Idle), Selecting, [])
  }

  // ---------- safety ----------

  /** Nobody is in the middle of an operation. */
  ghost predicate Quiet(s: State) {
    && (s.watcher.Handling? ==> s.watcher.phase.Resting?)
    && forall i :: 0 <= i < |s.syncs| ==> PhaseOf(s.syncs[i]).Resting?
  }

  /** The watcher handles no event while a sync is between its two sends. */
  ghost predicate Apart(s: State) {
    s.watcher.Handling? ==> forall i :: 0 <= i < |s.syncs| ==> !Critical(s.syncs[i])
  }

  /** Whenever nobody is in the middle of an operation the cache is what the completed operations, done one after the
      other, would have made of it. */
  ghost predicate Serial(own: string, listeners: nat, s: State) {
    Quiet(s) ==> s.cache == Replay(own, Empty(listeners), s.done)
  }

  /** The cache in the middle of an operation, compared with the cache `c0` before it. */
  ghost predicate Tied(c0: Cache, c: Cache, phase: Phase) {
    match phase
    case Resting => c == c0
    case AddStored(sv) => sv.id !in c0.byId && c == Store(c0, sv)
    case AddIndexed(sv) => sv.id !in c0.byId && c == Index(Store(c0, sv), sv)
    case DelLoaded(sv) => sv.id in c0.byId && c0.byId[sv.id] == sv && c == c0
    case DelRemoved(sv) => sv.id in c0.byId && c0.byId[sv.id] == sv && c == Unstore(c0, sv)
    case DelUnindexed(sv) => sv.id in c0.byId && c0.byId[sv.id] == sv && c == Unindex(Unstore(c0, sv), sv)
  }

  /** `c` is tied to the replay of the completed operations. */
  ghost predicate Follows(own: string, listeners: nat, done: seq<Op>, c: Cache, phase: Phase) {
    Tied(Replay(own, Empty(listeners), done), c, phase)
  }

  lemma ReplayMore(own: string, c: Cache, done: seq<Op>, op: Op)
    ensures Replay(own, c, done + [op]) == Apply(own, Replay(own, c, done), op)
    ensures Replay(own, c, done + []) == Replay(own, c, done)
  {
    assert (done + [op])[..|done|] == done && done + [] == done;
  }

  lemma EnterFollows(own: string, listeners: nat, done: seq<Op>, c: Cache, op: Op)
    requires Follows(own, listeners, done, c, Resting)
    ensures var m := Enter(c, op); Follows(own, listeners, done + m.done, m.cache, m.phase)
  {
    ReplayMore(own, Empty(listeners), done, op);
    ReplayKeepsConsistent(own, Empty(listeners), done);
    assert op.Delete? && op.id in c.byId ==> c.byId[op.id].id == op.id;
  }

  lemma AdvanceFollows(own: string, listeners: nat, done: seq<Op>, c: Cache, phase: Phase)
    requires Follows(own, listeners, done, c, phase)
    ensures var m := Advance(own, c, phase); Follows(own, listeners, done + m.done, m.cache, m.phase)
  {
    ReplayMore(own, Empty(listeners), done,
               if phase.AddIndexed? then Add(phase.sv)
               else if phase.DelUnindexed? then Delete(phase.sv.id)
               else Delete(""));
  }

  /** Between receiving its true and receiving its false. */
  ghost predicate Owing(pc: SyncPc) { Critical(pc) || pc.Closing? }

  /** A sync whose true reaches the watcher while that is still waiting for the false of another. */
  ghost predicate Overlaps(s: State, step: Step) {
    step.SendTrue? && step.i < |s.syncs| && s.syncs[step.i].Asking? && s.watcher.Blocked?
  }

  /** No sync of the run got in while another was inside. */
  ghost predicate NoOverlap(own: string, s: State, steps: seq<Step>) {
    steps == [] || (var m := |steps| - 1;
                    NoOverlap(own, s, steps[..m]) && !Overlaps(Run(own, s, steps[..m]), steps[m]))
  }

  /** At most one sync owes a false, and exactly while the watcher is blocked. */
  ghost predicate OneOwing(s: State) {
    && (forall i, j :: 0 <= i < |s.syncs| && 0 <= j < |s.syncs| && Owing(s.syncs[i]) && Owing(s.syncs[j]) ==> i == j)
    && (!s.watcher.Blocked? ==> forall i :: 0 <= i < |s.syncs| ==> !Owing(s.syncs[i]))
    && (s.watcher.Blocked? ==> exists i :: 0 <= i < |s.syncs| && Owing(s.syncs[i]))
  }

  /** And the cache follows the completed operations up to the phase of whoever is inside. */
  ghost predicate Invariant(own: string, listeners: nat, s: State) {
    && OneOwing(s)
    && (s.watcher.Handling? ==> Follows(own, listeners, s.done, s.cache, s.watcher.phase))
    && (s.watcher.Selecting? ==> Follows(own, listeners, s.done, s.cache, Resting))
    && (forall i :: 0 <= i < |s.syncs| && Owing(s.syncs[i]) ==>
          Follows(own, listeners, s.done, s.cache, PhaseOf(s.syncs[i])))
  }

  lemma SyncAddFollows(own: string, listeners: nat, s: State, i: nat)
    requires i < |s.syncs| && Follows(own, listeners, s.done, s.cache, PhaseOf(s.syncs[i]))
    ensures var s1 := DoSync(own, s, SyncAdd(i), i);
            Follows(own, listeners, s1.done, s1.cache, PhaseOf(s1.syncs[i]))
  {
    var pc := s.syncs[i];
    if pc.Adding? && pc.phase.Resting? && pc.adds != [] {
      EnterFollows(own, listeners, s.done, s.cache, Add(pc.adds[0]));
    } else {
      assert DoSync(own, s, SyncAdd(i), i) == s;
    }
  }

  lemma SyncDeleteFollows(own: string, listeners: nat, s: State, i: nat, id: string)
    requires i < |s.syncs| && Follows(own, listeners, s.done, s.cache, PhaseOf(s.syncs[i]))
    ensures var s1 := DoSync(own, s, SyncDelete(i, id), i);
            Follows(own, listeners, s1.done, s1.cache, PhaseOf(s1.syncs[i]))
  {
    var pc := s.syncs[i];
    if pc.Deleting? && pc.phase.Resting? && id in s.cache.byId && id !in pc.job.keep {
      EnterFollows(own, listeners, s.done, s.cache, Delete(id));
    } else {
      assert DoSync(own, s, SyncDelete(i, id), i) == s;
    }
  }

  lemma SyncContinuesFollow(own: string, listeners: nat, s: State, i: nat)
    requires i < |s.syncs| && Follows(own, listeners, s.done, s.cache, PhaseOf(s.syncs[i]))
    ensures var s1 := DoSync(own, s, SyncContinue(i), i);
            Follows(own, listeners, s1.done, s1.cache, PhaseOf(s1.syncs[i]))
  {
    AdvanceFollows(own, listeners, s.done, s.cache, PhaseOf(s.syncs[i]));
  }

  lemma SyncFollows(own: string, listeners: nat, s: State, step: Step, i: nat)
    requires i < |s.syncs| && Owing(s.syncs[i]) && Follows(own, listeners, s.done, s.cache, PhaseOf(s.syncs[i]))
    ensures var s1 := DoSync(own, s, step, i); Follows(own, listeners, s1.done, s1.cache, PhaseOf(s1.syncs[i]))
  {
    if step.SyncAdd? {
      SyncAddFollows(own, listeners, s, i);
    } else if step.SyncDelete? {
      SyncDeleteFollows(own, listeners, s, i, step.id);
    } else if step.SyncContinue? {
      SyncContinuesFollow(own, listeners, s, i);
    } else {
      var s1 := DoSync(own, s, step, i);
      assert s1.done == s.done && s1.cache == s.cache && PhaseOf(s1.syncs[i]) == PhaseOf(s.syncs[i]);
    }
  }

  lemma SyncKeepsOneOwing(own: string, s: State, step: Step, i: nat)
    requires OneOwing(s) && i < |s.syncs| && !(step.SendTrue? && s.syncs[i].Asking? && s.watcher.Blocked?)
    ensures OneOwing(DoSync(own, s, step, i))
  {
    var s1 := DoSync(own, s, step, i);
    assert forall j :: 0 <= j < |s.syncs| && j != i ==> s1.syncs[j] == s.syncs[j];
    if s1.watcher.Blocked? {
      if s.watcher.Blocked? {
        var j :| 0 <= j < |s.syncs| && Owing(s.syncs[j]);
        assert Owing(s1.syncs[j]);
      } else {
        assert Owing(s1.syncs[i]);
      }
    }
  }

  lemma SyncKeepsInvariant(own: string, listeners: nat, s: State, step: Step, i: nat)
    requires Invariant(own, listeners, s) && i < |s.syncs|
    requires !(step.SendTrue? && s.syncs[i].Asking? && s.watcher.Blocked?)
    ensures Invariant(own, listeners, DoSync(own, s, step, i))
  {
    SyncKeepsOneOwing(own, s, step, i);
    if Owing(s.syncs[i]) { SyncFollows(own, listeners, s, step, i); }
  }

  lemma WatchKeepsInvariant(own: string, listeners: nat, s: State, step: Step)
    requires Invariant(own, listeners, s)
    ensures Invariant(own, listeners, DoWatch(own, s, step))
  {
    var w := s.watcher;
    if step.WatchStart? && w.Handling? && w.phase.Resting? && w.todo != [] {
      EnterFollows(own, listeners, s.done, s.cache, w.todo[0]);
    } else if step.WatchContinue? && w.Handling? {
      AdvanceFollows(own, listeners, s.done, s.cache, w.phase);
    }
  }

  ghost predicate ByWatcher(step: Step) { step.Receive? || step.WatchStart? || step.WatchContinue? || step.WatchEnd? }

  lemma DoKeepsInvariant(own: string, listeners: nat, s: State, step: Step)
    requires Invariant(own, listeners, s) && !Overlaps(s, step)
    ensures Invariant(own, listeners, Do(own, s, step))
  {
    if ByWatcher(step) {
      WatchKeepsInvariant(own, listeners, s, step);
    } else if step.i < |s.syncs| {
      SyncKeepsInvariant(own, listeners, s, step, step.i);
    }
  }

  lemma {:induction false} RunKeepsInvariant(own: string, listeners: nat, slots: nat, steps: seq<Step>)
    requires NoOverlap(own, Init(listeners, slots), steps)
    ensures Invariant(own, listeners, Run(own, Init(listeners, slots), steps))
  {
    if steps != [] {
      RunKeepsInvariant(own, listeners, slots, steps[..|steps| - 1]);
      DoKeepsInvariant(own, listeners, Run(own, Init(listeners, slots), steps[..|steps| - 1]), steps[|steps| - 1]);
    }
  }

  /** With any number of syncs, the handshake does what it is for in every run in which no two of them overlap. */
  lemma NoOverlapIsSafe(own: string, listeners: nat, slots: nat, steps: seq<Step>)
    requires NoOverlap(own, Init(listeners, slots), steps)
    ensures var s := Run(own, Init(listeners, slots), steps); Apart(s) && Serial(own, listeners, s)
  {
    RunKeepsInvariant(own, listeners, slots, steps);
  }

  lemma ReplayAgrees(own: string, listeners: nat, done: seq<Op>, k: nat)
    requires k < listeners
    ensures var c := Replay(own, Empty(listeners), done);
            Consistent(Empty(listeners)) && Consistent(c) && Followed(own, Empty(listeners), c, k)
  {
    ReplayKeepsConsistent(own, Empty(listeners), done);
    ListenerRebuilds(own, Empty(listeners), done, k);
  }

  /** Consequences in every quiet state of such a run: the indexes agree and every listener has been told exactly what
      is in the by-ID map. */
  lemma QuietAgrees(own: string, listeners: nat, slots: nat, steps: seq<Step>, k: nat)
    requires NoOverlap(own, Init(listeners, slots), steps) && k < listeners
    requires Quiet(Run(own, Init(listeners, slots), steps))
    ensures var s := Run(own, Init(listeners, slots), steps);
            Consistent(s.cache) && Followed(own, Empty(listeners), s.cache, k)
  {
    NoOverlapIsSafe(own, listeners, slots, steps);
    ReplayAgrees(own, listeners, Run(own, Init(listeners, slots), steps).done, k);
  }

  // ---------- a sync and a response do all their work ----------

  ghost predicate Adds1(phase: Phase, sv: Server) { phase == AddStored(sv) || phase == AddIndexed(sv) }

  ghost predicate Deletes1(phase: Phase, id: string) {
    (phase.DelLoaded? || phase.DelRemoved? || phase.DelUnindexed?) && phase.sv.id == id
  }

  ghost function BeingDeleted(phase: Phase): set<string> {
    if phase.DelLoaded? || phase.DelRemoved? || phase.DelUnindexed? then {phase.sv.id} else {}
  }

  /** Since it began, a sync that is adding has completed the adds before the next one, in order; but for the one under
      way. */
  ghost predicate AddsDone(done: seq<Op>, job: Job, left: nat, phase: Phase) {
    && left <= |job.adds|
    && var k := |job.adds| - left;
       if phase.Resting? then done == job.before + Adds(job.adds[..k])
       else k >= 1 && Adds1(phase, job.adds[k - 1]) && done == job.before + Adds(job.adds[..k - 1])
  }

  /** A sync that is deleting has completed all its adds and deleted `removed`; what it had to delete is that, what it
      has yet to visit, and the one it is at. */
  ghost predicate DeletesDone(own: string, listeners: nat, done: seq<Op>, pc: SyncPc, removed: seq<string>)
    requires pc.Deleting?
  {
    && done == pc.job.before + Adds(pc.job.adds) + Deletes(removed)
    && Replay(own, Empty(listeners), pc.job.before + Adds(pc.job.adds)).byId.Keys - pc.job.keep
       == Elems(removed) + pc.todo + BeingDeleted(pc.phase)
    && !pc.phase.AddStored? && !pc.phase.AddIndexed?
  }

  ghost predicate SyncWorks(own: string, listeners: nat, done: seq<Op>, pc: SyncPc) {
    && (pc.Adding? ==> && AddsDone(done, pc.job, |pc.adds|, pc.phase)
                       && pc.adds == pc.job.adds[|pc.job.adds| - |pc.adds|..])
    && (pc.Deleting? ==> exists removed :: DeletesDone(own, listeners, done, pc, removed))
  }

  ghost predicate PhaseFits(phase: Phase, op: Op) {
    match op
    case Add(sv) => Adds1(phase, sv)
    case Delete(id) => Deletes1(phase, id)
  }

  /** The watcher has completed the operations of the response before the next one, in order; but for the one under
      way. */
  ghost predicate OpsDone(done: seq<Op>, r: Response, left: nat, phase: Phase) {
    && left <= |r.ops|
    && var k := |r.ops| - left;
       if phase.Resting? then done == r.before + r.ops[..k]
       else k >= 1 && PhaseFits(phase, r.ops[k - 1]) && done == r.before + r.ops[..k - 1]
  }

  ghost predicate IsSuffix(todo: seq<Op>, ops: seq<Op>) { |todo| <= |ops| && todo == ops[|ops| - |todo|..] }

  ghost predicate WatchWorks(done: seq<Op>, w: WatcherPc) {
    w.Handling? ==> OpsDone(done, w.response, |w.todo|, w.phase) && IsSuffix(w.todo, w.response.ops)
  }

  ghost predicate AllWork(own: string, listeners: nat, s: State) {
    && WatchWorks(s.done, s.watcher)
    && forall i :: 0 <= i < |s.syncs| && Owing(s.syncs[i]) ==> SyncWorks(own, listeners, s.done, s.syncs[i])
  }

  lemma AddsMore(svs: seq<Server>, k: nat)
    requires k < |svs|
    ensures Adds(svs[..k + 1]) == Adds(svs[..k]) + [Add(svs[k])]
  {
  }

  lemma SyncAddWorks(own: string, listeners: nat, s: State, i: nat)
    requires i < |s.syncs| && SyncWorks(own, listeners, s.done, s.syncs[i])
    ensures var s1 := DoSync(own, s, SyncAdd(i), i); SyncWorks(own, listeners, s1.done, s1.syncs[i])
  {
    var pc := s.syncs[i];
    if pc.Adding? && pc.phase.Resting? && pc.adds != [] {
      var k := |pc.job.adds| - |pc.adds|;
      AddsMore(pc.job.adds, k);
      assert pc.adds[0] == pc.job.adds[k] && pc.adds[1..] == pc.job.adds[k + 1..];
      assert s.done + [] == s.done;
    }
  }

  lemma AddsAdvance(own: string, c: Cache, done: seq<Op>, job: Job, left: nat, phase: Phase)
    requires AddsDone(done, job, left, phase)
    ensures var m := Advance(own, c, phase); AddsDone(done + m.done, job, left, m.phase)
  {
    assert done + [] == done;
    if phase.AddIndexed? {
      var k := |job.adds| - left;
      var sv := job.adds[k - 1];
      AddsMore(job.adds, k - 1);
      assert done + [Add(sv)] == job.before + (Adds(job.adds[..k - 1]) + [Add(sv)]);
    }
  }

  lemma AddingContinues(own: string, listeners: nat, s: State, i: nat)
    requires i < |s.syncs| && s.syncs[i].Adding? && SyncWorks(own, listeners, s.done, s.syncs[i])
    ensures var s1 := DoSync(own, s, SyncContinue(i), i); SyncWorks(own, listeners, s1.done, s1.syncs[i])
  {
    var pc := s.syncs[i];
    AddsAdvance(own, s.cache, s.done, pc.job, |pc.adds|, pc.phase);
  }

  lemma DeletesMore(ids: seq<string>, id: string)
    ensures Deletes(ids + [id]) == Deletes(ids) + [Delete(id)] && Elems(ids + [id]) == Elems(ids) + {id}
  {
    ElemsAppend(ids, id);
  }

  lemma DeletingContinues(own: string, listeners: nat, s: State, i: nat, removed: seq<string>)
    requires i < |s.syncs| && s.syncs[i].Deleting? && DeletesDone(own, listeners, s.done, s.syncs[i], removed)
    ensures var s1 := DoSync(own, s, SyncContinue(i), i); SyncWorks(own, listeners, s1.done, s1.syncs[i])
  {
    var pc, s1 := s.syncs[i], DoSync(own, s, SyncContinue(i), i);
    if pc.phase.DelUnindexed? {
      var id := pc.phase.sv.id;
      DeletesMore(removed, id);
      assert s1.done == pc.job.before + Adds(pc.job.adds) + Deletes(removed + [id]);
      assert DeletesDone(own, listeners, s1.done, s1.syncs[i], removed + [id]);
    } else {
      assert s.done + [] == s.done;
      assert DeletesDone(own, listeners, s1.done, s1.syncs[i], removed);
    }
  }

  lemma BeginRangeWorks(own: string, listeners: nat, s: State, i: nat)
    requires i < |s.syncs| && SyncWorks(own, listeners, s.done, s.syncs[i])
    requires Follows(own, listeners, s.done, s.cache, PhaseOf(s.syncs[i]))
    ensures var s1 := DoSync(own, s, BeginRange(i), i); SyncWorks(own, listeners, s1.done, s1.syncs[i])
  {
    var pc, s1 := s.syncs[i], DoSync(own, s, BeginRange(i), i);
    if pc.Adding? && pc.phase.Resting? && pc.adds == [] {
      RangeBegins(own, listeners, s.cache, s.done, pc.job);
      assert DeletesDone(own, listeners, s1.done, s1.syncs[i], []);
    } else {
      assert s1 == s;
    }
  }

  lemma RangeBegins(own: string, listeners: nat, c: Cache, done: seq<Op>, job: Job)
    requires AddsDone(done, job, 0, Resting) && Follows(own, listeners, done, c, Resting)
    ensures DeletesDone(own, listeners, done, Deleting(job, c.byId.Keys - job.keep, Resting), [])
  {
    assert job.adds[..|job.adds|] == job.adds;
    assert done == done + Deletes([]);
  }

  /** While a sync is deleting the map holds what it held before, without what has been deleted. */
  lemma KnownWhileDeleting(own: string, listeners: nat, c: Cache, done: seq<Op>, pc: SyncPc, removed: seq<string>)
    requires pc.Deleting? && pc.phase.Resting? && DeletesDone(own, listeners, done, pc, removed)
    requires Follows(own, listeners, done, c, Resting)
    ensures c.byId == Replay(own, Empty(listeners), pc.job.before + Adds(pc.job.adds)).byId - Elems(removed)
    ensures Consistent(c)
  {
    var start := pc.job.before + Adds(pc.job.adds);
    ReplayConcat(own, Empty(listeners), start, Deletes(removed));
    ReplayKeepsConsistent(own, Empty(listeners), start);
    ReplayKeepsConsistent(own, Empty(listeners), done);
    DeletesById(own, Replay(own, Empty(listeners), start), removed);
  }

  lemma VisitWorks(own: string, listeners: nat, s: State, step: Step, i: nat, removed: seq<string>)
    requires i < |s.syncs| && s.syncs[i].Deleting? && DeletesDone(own, listeners, s.done, s.syncs[i], removed)
    requires Follows(own, listeners, s.done, s.cache, PhaseOf(s.syncs[i])) && (step.SyncDelete? || step.SyncSkip?)
    ensures var s1 := DoSync(own, s, step, i); SyncWorks(own, listeners, s1.done, s1.syncs[i])
  {
    var pc, s1 := s.syncs[i], DoSync(own, s, step, i);
    if pc.phase.Resting? { KnownWhileDeleting(own, listeners, s.cache, s.done, pc, removed); }
    assert s.done + [] == s.done;
    assert DeletesDone(own, listeners, s1.done, s1.syncs[i], removed);
  }

  /** Every step of the sync that is inside goes on with its work. */
  lemma SyncStepWorks(own: string, listeners: nat, s: State, step: Step, i: nat)
    requires i < |s.syncs| && Owing(s.syncs[i]) && SyncWorks(own, listeners, s.done, s.syncs[i])
    requires Follows(own, listeners, s.done, s.cache, PhaseOf(s.syncs[i]))
    ensures var s1 := DoSync(own, s, step, i); SyncWorks(own, listeners, s1.done, s1.syncs[i])
  {
    var pc := s.syncs[i];
    if step.SyncAdd? {
      SyncAddWorks(own, listeners, s, i);
    } else if step.SyncContinue? && pc.Adding? {
      AddingContinues(own, listeners, s, i);
    } else if step.SyncContinue? && pc.Deleting? {
      var removed :| DeletesDone(own, listeners, s.done, pc, removed);
      DeletingContinues(own, listeners, s, i, removed);
    } else if step.BeginRange? {
      BeginRangeWorks(own, listeners, s, i);
    } else if (step.SyncDelete? || step.SyncSkip?) && pc.Deleting? {
      var removed :| DeletesDone(own, listeners, s.done, pc, removed);
      VisitWorks(own, listeners, s, step, i, removed);
    } else {
      QueryWorks(own, listeners, s, step, i);
    }
  }

  lemma QueryWorks(own: string, listeners: nat, s: State, step: Step, i: nat)
    requires i < |s.syncs| && SyncWorks(own, listeners, s.done, s.syncs[i])
    requires !step.SyncAdd? && !step.BeginRange?
    requires !(step.SyncContinue? && (s.syncs[i].Adding? || s.syncs[i].Deleting?))
    requires !((step.SyncDelete? || step.SyncSkip?) && s.syncs[i].Deleting?)
    ensures var s1 := DoSync(own, s, step, i); SyncWorks(own, listeners, s1.done, s1.syncs[i])
  {
    var s1 := DoSync(own, s, step, i);
    assert s1.done == s.done;
    if step.QueryOk? && s.syncs[i].Querying? {
      assert step.adds[0..] == step.adds && s.done + Adds(step.adds[..0]) == s.done;
    }
  }

  lemma SuffixStep(todo: seq<Op>, ops: seq<Op>)
    requires IsSuffix(todo, ops) && todo != []
    ensures IsSuffix(todo[1..], ops) && todo[0] == ops[|ops| - |todo|]
  {
  }

  lemma StartWorks(c: Cache, done: seq<Op>, r: Response, left: nat)
    requires left >= 1 && OpsDone(done, r, left, Resting) && OwnIds(c)
    ensures var m := Enter(c, r.ops[|r.ops| - left]); OpsDone(done + m.done, r, left - 1, m.phase)
  {
    var k := |r.ops| - left;
    assert r.ops[..k + 1] == r.ops[..k] + [r.ops[k]];
    assert done + [] == done && done + [r.ops[k]] == r.before + r.ops[..k + 1];
  }

  lemma ContinueWorks(own: string, c: Cache, done: seq<Op>, r: Response, left: nat, phase: Phase)
    requires OpsDone(done, r, left, phase)
    ensures var m := Advance(own, c, phase); OpsDone(done + m.done, r, left, m.phase)
  {
    var k := |r.ops| - left;
    assert done + [] == done;
    if !phase.Resting? {
      assert r.ops[..k] == r.ops[..k - 1] + [r.ops[k - 1]];
      assert done + [r.ops[k - 1]] == r.before + r.ops[..k];
    }
  }

  lemma ReceiveWorks(done: seq<Op>, todo: seq<Op>)
    ensures OpsDone(done, Response(todo, done), |todo|, Resting) && IsSuffix(todo, todo)
  {
    assert todo[0..] == todo && todo[..0] == [] && done + [] == done;
  }

  lemma WatchStartWorks(own: string, s: State)
    requires WatchWorks(s.done, s.watcher) && OwnIds(s.cache)
    ensures WatchWorks(DoWatch(own, s, WatchStart).done, DoWatch(own, s, WatchStart).watcher)
  {
    var w := s.watcher;
    if w.Handling? && w.phase.Resting? && w.todo != [] {
      SuffixStep(w.todo, w.response.ops);
      StartWorks(s.cache, s.done, w.response, |w.todo|);
    }
  }

  lemma WatchContinueWorks(own: string, s: State)
    requires WatchWorks(s.done, s.watcher)
    ensures WatchWorks(DoWatch(own, s, WatchContinue).done, DoWatch(own, s, WatchContinue).watcher)
  {
    var w := s.watcher;
    if w.Handling? { ContinueWorks(own, s.cache, s.done, w.response, |w.todo|, w.phase); }
  }

  lemma WatchStepWorks(own: string, s: State, step: Step)
    requires WatchWorks(s.done, s.watcher) && ByWatcher(step) && OwnIds(s.cache)
    ensures WatchWorks(DoWatch(own, s, step).done, DoWatch(own, s, step).watcher)
  {
    match step {
      case Receive(todo) => ReceiveWorks(s.done, todo);
      case WatchStart => WatchStartWorks(own, s);
      case WatchContinue => WatchContinueWorks(own, s);
      case WatchEnd =>
    }
  }

  lemma DoKeepsWork(own: string, listeners: nat, s: State, step: Step)
    requires Invariant(own, listeners, s) && AllWork(own, listeners, s) && !Overlaps(s, step) && OwnIds(s.cache)
    ensures AllWork(own, listeners, Do(own, s, step))
  {
    if ByWatcher(step) {
      WatchStepWorks(own, s, step);
      WatchLeavesSyncs(own, listeners, s, step);
    } else if step.i < |s.syncs| {
      SyncKeepsWork(own, listeners, s, step, step.i);
    }
  }

  lemma WatchLeavesSyncs(own: string, listeners: nat, s: State, step: Step)
    requires Invariant(own, listeners, s) && AllWork(own, listeners, s) && ByWatcher(step)
    ensures var s1 := DoWatch(own, s, step);
            forall i :: 0 <= i < |s1.syncs| && Owing(s1.syncs[i]) ==> SyncWorks(own, listeners, s1.done, s1.syncs[i])
  {
    assert s.watcher.Blocked? ==> DoWatch(own, s, step) == s;
  }

  lemma SyncLeavesWatch(own: string, s: State, step: Step, i: nat)
    requires OneOwing(s) && WatchWorks(s.done, s.watcher) && i < |s.syncs|
    ensures var s1 := DoSync(own, s, step, i); WatchWorks(s1.done, s1.watcher)
  {
    var s1 := DoSync(own, s, step, i);
    if !Owing(s.syncs[i]) { assert s1.done == s.done; }
  }

  lemma SyncLeavesOthers(own: string, s: State, step: Step, i: nat, j: nat)
    requires OneOwing(s) && i < |s.syncs| && j < |s.syncs| && j != i && Owing(s.syncs[j])
    ensures var s1 := DoSync(own, s, step, i); s1.syncs[j] == s.syncs[j] && s1.done == s.done
  {
    assert !Owing(s.syncs[i]);
  }

  lemma SyncKeepsWork(own: string, listeners: nat, s: State, step: Step, i: nat)
    requires Invariant(own, listeners, s) && AllWork(own, listeners, s) && i < |s.syncs|
    ensures AllWork(own, listeners, DoSync(own, s, step, i))
  {
    var s1 := DoSync(own, s, step, i);
    SyncLeavesWatch(own, s, step, i);
    forall j | 0 <= j < |s1.syncs| && Owing(s1.syncs[j]) ensures SyncWorks(own, listeners, s1.done, s1.syncs[j]) {
      if j != i {
        SyncLeavesOthers(own, s, step, i, j);
      } else if Owing(s.syncs[i]) {
        SyncStepWorks(own, listeners, s, step, i);
      } else {
        assert s1.syncs[i].Querying?;
      }
    }
  }

  lemma {:induction false} RunWorks(own: string, listeners: nat, slots: nat, steps: seq<Step>)
    requires NoOverlap(own, Init(listeners, slots), steps)
    ensures AllWork(own, listeners, Run(own, Init(listeners, slots), steps))
  {
    if steps != [] {
      var s := Run(own, Init(listeners, slots), steps[..|steps| - 1]);
      RunWorks(own, listeners, slots, steps[..|steps| - 1]);
      RunKeepsInvariant(own, listeners, slots, steps[..|steps| - 1]);
      RunKeepsOwnIds(own, listeners, slots, steps[..|steps| - 1]);
      DoKeepsWork(own, listeners, s, steps[|steps| - 1]);
    }
  }

  /** In some step of the run sync i, querying, was told to add and keep what the job says. */
  ghost predicate Queried(own: string, s0: State, steps: seq<Step>, i: nat, job: Job) {
    steps != [] && (var n := |steps| - 1;
                    var s := Run(own, s0, steps[..n]);
                    || Queried(own, s0, steps[..n], i, job)
                    || (&& i < |s.syncs| && s.syncs[i].Querying? && s.done == job.before
                        && steps[n] == QueryOk(i, job.adds, job.keep)))
  }

  /** In some step of the run the watcher, selecting, received the response. */
  ghost predicate Received(own: string, s0: State, steps: seq<Step>, r: Response) {
    steps != [] && (var n := |steps| - 1;
                    var s := Run(own, s0, steps[..n]);
                    || Received(own, s0, steps[..n], r)
                    || (s.watcher.Selecting? && s.done == r.before && steps[n] == Receive(r.ops)))
  }

  lemma {:induction false} JobWasQueried(own: string, s0: State, steps: seq<Step>, i: nat)
    requires s0.watcher.Selecting? && forall j :: 0 <= j < |s0.syncs| ==> s0.syncs[j].Idle?
    requires var s := Run(own, s0, steps); i < |s.syncs| && (s.syncs[i].Adding? || s.syncs[i].Deleting?)
    ensures Queried(own, s0, steps, i, Run(own, s0, steps).syncs[i].job)
  {
    if steps != [] {
      var s, step := Run(own, s0, steps[..|steps| - 1]), steps[|steps| - 1];
      if i < |s.syncs| && (s.syncs[i].Adding? || s.syncs[i].Deleting?) {
        JobWasQueried(own, s0, steps[..|steps| - 1], i);
        JobStays(own, s, step, i);
      }
    }
  }

  lemma JobStays(own: string, s: State, step: Step, i: nat)
    requires i < |s.syncs| && (s.syncs[i].Adding? || s.syncs[i].Deleting?)
    ensures var s1 := Do(own, s, step);
            && |s1.syncs| == |s.syncs|
            && (s1.syncs[i].Adding? || s1.syncs[i].Deleting? ==> s1.syncs[i].job == s.syncs[i].job)
  {
  }

  lemma {:induction false} ResponseWasReceived(own: string, s0: State, steps: seq<Step>)
    requires s0.watcher.Selecting? && Run(own, s0, steps).watcher.Handling?
    ensures Received(own, s0, steps, Run(own, s0, steps).watcher.response)
  {
    var s, step := Run(own, s0, steps[..|steps| - 1]), steps[|steps| - 1];
    if s.watcher.Handling? { ResponseWasReceived(own, s0, steps[..|steps| - 1]); }
  }

  /** The job was done as one course: exactly what was fetched was added, in order, and then exactly the known IDs that
      are not kept were deleted, with nothing in between. */
  ghost predicate IsCourse(own: string, listeners: nat, c: Cache, done: seq<Op>, job: Job) {
    var added := Replay(own, Empty(listeners), job.before + Adds(job.adds));
    && (exists removed :: Elems(removed) == added.byId.Keys - job.keep
                          && done == job.before + Adds(job.adds) + Deletes(removed))
    && c == Replay(own, Empty(listeners), done) && c.byId.Keys == added.byId.Keys * job.keep
  }

  lemma CourseDone(own: string, listeners: nat, c: Cache, done: seq<Op>, pc: SyncPc)
    requires pc.Deleting? && pc.phase.Resting? && pc.todo == {} && SyncWorks(own, listeners, done, pc)
    requires Follows(own, listeners, done, c, Resting)
    ensures IsCourse(own, listeners, c, done, pc.job)
  {
    var removed :| DeletesDone(own, listeners, done, pc, removed);
    KnownWhileDeleting(own, listeners, c, done, pc, removed);
    assert Elems(removed) == Replay(own, Empty(listeners), pc.job.before + Adds(pc.job.adds)).byId.Keys - pc.job.keep;
  }

  lemma SyncEnds(own: string, listeners: nat, s: State, i: nat)
    requires Invariant(own, listeners, s) && AllWork(own, listeners, s)
    requires i < |s.syncs| && s.syncs[i].Deleting? && Do(own, s, EndRange(i)) != s
    ensures IsCourse(own, listeners, s.cache, s.done, s.syncs[i].job)
  {
    assert SyncWorks(own, listeners, s.done, s.syncs[i]);
    CourseDone(own, listeners, s.cache, s.done, s.syncs[i]);
  }

  /** In every run without overlap, with any number of syncs, a sync that is about to send false after a query has done
      what that query gave it as one course: what the atomic model of a sync does. */
  lemma SyncIsOneCourse(own: string, listeners: nat, slots: nat, steps: seq<Step>, i: nat)
    requires NoOverlap(own, Init(listeners, slots), steps)
    requires var s := Run(own, Init(listeners, slots), steps);
             i < |s.syncs| && s.syncs[i].Deleting? && Do(own, s, EndRange(i)) != s
    ensures var s := Run(own, Init(listeners, slots), steps);
            && Queried(own, Init(listeners, slots), steps, i, s.syncs[i].job)
            && IsCourse(own, listeners, s.cache, s.done, s.syncs[i].job)
  {
    JobWasQueried(own, Init(listeners, slots), steps, i);
    RunWorks(own, listeners, slots, steps);
    RunKeepsInvariant(own, listeners, slots, steps);
    SyncEnds(own, listeners, Run(own, Init(listeners, slots), steps), i);
  }

  /** And a watcher that is about to select again has done exactly the operations of its response, in order. */
  lemma ResponseIsHandled(own: string, listeners: nat, slots: nat, steps: seq<Step>)
    requires NoOverlap(own, Init(listeners, slots), steps)
    requires var s := Run(own, Init(listeners, slots), steps); s.watcher.Handling? && Do(own, s, WatchEnd) != s
    ensures var s := Run(own, Init(listeners, slots), steps);
            && Received(own, Init(listeners, slots), steps, s.watcher.response)
            && s.done == s.watcher.response.before + s.watcher.response.ops
            && s.cache == Replay(own, Empty(listeners), s.done)
  {
    ResponseWasReceived(own, Init(listeners, slots), steps);
    RunWorks(own, listeners, slots, steps);
    RunKeepsInvariant(own, listeners, slots, steps);
    ResponseEnds(own, listeners, Run(own, Init(listeners, slots), steps));
  }

  lemma AllOpsDone(done: seq<Op>, r: Response)
    requires OpsDone(done, r, 0, Resting)
    ensures done == r.before + r.ops
  {
    assert r.ops[..|r.ops|] == r.ops;
  }

  lemma ResponseEnds(own: string, listeners: nat, s: State)
    requires s.watcher.Handling? && WatchWorks(s.done, s.watcher) && Do(own, s, WatchEnd) != s
    requires Follows(own, listeners, s.done, s.cache, s.watcher.phase)
    ensures s.done == s.watcher.response.before + s.watcher.response.ops
    ensures s.cache == Replay(own, Empty(listeners), s.done)
  {
    var w := s.watcher;
    assert w.phase.Resting? && w.todo == [];
    AllOpsDone(s.done, w.response);
  }

  // ---------- filing ----------

  lemma IndexKeepsFiled(c: Cache, sv: Server)
    requires Filed(c)
    ensures Filed(Index(c, sv)) && Filed(Unindex(c, sv))
  {
    assert forall t :: Bucket(Index(c, sv), t) == if t == sv.typ then Bucket(c, t)[sv.id := sv] else Bucket(c, t);
    assert forall t :: Bucket(Unindex(c, sv), t) == if t == sv.typ then Bucket(c, t) - {sv.id} else Bucket(c, t);
  }

  lemma SameBuckets(c: Cache, c1: Cache)
    requires Filed(c) && c1.byType == c.byType
    ensures Filed(c1)
  {
    assert forall t :: Bucket(c1, t) == Bucket(c, t);
  }

  lemma MicroKeepsFiled(own: string, c: Cache, op: Op, phase: Phase)
    requires Filed(c)
    ensures Filed(Enter(c, op).cache) && Filed(Advance(own, c, phase).cache)
  {
    SameBuckets(c, Enter(c, op).cache);
    match phase {
      case AddStored(sv) => IndexKeepsFiled(c, sv);
      case DelRemoved(sv) => IndexKeepsFiled(c, sv);
      case _ => SameBuckets(c, Advance(own, c, phase).cache);
    }
  }

  lemma DoKeepsFiled(own: string, s: State, step: Step)
    requires Filed(s.cache)
    ensures Filed(Do(own, s, step).cache)
  {
    var s1 := Do(own, s, step);
    if s1.cache != s.cache {
      var phase := if ByWatcher(step) then s.watcher.phase else PhaseOf(s.syncs[step.i]);
      var op := if step.SyncAdd? then Add(s.syncs[step.i].adds[0])
                else if step.WatchStart? then s.watcher.todo[0]
                else Delete("");
      MicroKeepsFiled(own, s.cache, op, phase);
    }
  }

  /** In every state of every run, with any number of syncs and in the middle of operations, whatever is found under a
      type has that type and its own ID. */
  lemma {:induction false} AlwaysFiled(own: string, listeners: nat, slots: nat, steps: seq<Step>)
    ensures Filed(Run(own, Init(listeners, slots), steps).cache)
  {
    if steps != [] {
      AlwaysFiled(own, listeners, slots, steps[..|steps| - 1]);
      DoKeepsFiled(own, Run(own, Init(listeners, slots), steps[..|steps| - 1]), steps[|steps| - 1]);
    }
  }

  // ---------- nobody waits forever ----------

  /** In every run, with any number of syncs in flight, the watcher is blocked only while some sync is still going to
      send it false. */
  lemma {:induction false} BlockedIsAwaited(own: string, listeners: nat, slots: nat, steps: seq<Step>)
    ensures var s := Run(own, Init(listeners, slots), steps);
            s.watcher.Blocked? ==> exists i :: 0 <= i < |s.syncs| && Owing(s.syncs[i])
  {
    if steps != [] {
      var s, step := Run(own, Init(listeners, slots), steps[..|steps| - 1]), steps[|steps| - 1];
      BlockedIsAwaited(own, listeners, slots, steps[..|steps| - 1]);
      StaysAwaited(own, s, step);
    }
  }

  lemma StaysAwaited(own: string, s: State, step: Step)
    requires s.watcher.Blocked? ==> exists i :: 0 <= i < |s.syncs| && Owing(s.syncs[i])
    ensures var s1 := Do(own, s, step); s1.watcher.Blocked? ==> exists i :: 0 <= i < |s1.syncs| && Owing(s1.syncs[i])
  {
    var s1 := Do(own, s, step);
    if s1.watcher.Blocked? {
      if s.watcher.Blocked? {
        var i :| 0 <= i < |s.syncs| && Owing(s.syncs[i]);
        assert Owing(s1.syncs[i]);
      } else {
        assert Owing(s1.syncs[step.i]);
      }
    }
  }

  ghost function WatcherMove(w: WatcherPc): Step
    requires w.Handling?
  {
    if !w.phase.Resting? then WatchContinue else if w.todo != [] then WatchStart else WatchEnd
  }

  /** The next step of the sync in slot i; the range visits `id`. */
  ghost function SyncMove(c: Cache, pc: SyncPc, i: nat, id: string): Step {
    match pc
    case Closing => SendFalse(i)
    case Querying => QueryFail(i)
    case Adding(adds, _, phase) =>
      if !phase.Resting? then SyncContinue(i) else if adds != [] then SyncAdd(i) else BeginRange(i)
    case Deleting(_, todo, phase) =>
      if !phase.Resting? then SyncContinue(i)
      else if todo == {} then EndRange(i)
      else if id in c.byId then SyncDelete(i, id)
      else SyncSkip(i, id)
    case _ => SendTrue(i)
  }

  /** What a range still has to visit is not kept. */
  ghost predicate TodosRight(s: State) {
    forall i :: 0 <= i < |s.syncs| && s.syncs[i].Deleting? ==> s.syncs[i].todo !! s.syncs[i].job.keep
  }

  lemma DoKeepsTodos(own: string, s: State, step: Step)
    requires TodosRight(s)
    ensures TodosRight(Do(own, s, step))
  {
  }

  lemma {:induction false} RunKeepsTodos(own: string, listeners: nat, slots: nat, steps: seq<Step>)
    ensures TodosRight(Run(own, Init(listeners, slots), steps))
  {
    if steps != [] {
      RunKeepsTodos(own, listeners, slots, steps[..|steps| - 1]);
      DoKeepsTodos(own, Run(own, Init(listeners, slots), steps[..|steps| - 1]), steps[|steps| - 1]);
    }
  }

  /** While the watcher is not in the middle of a response, every sync that has begun can move on. */
  lemma SyncCanMove(own: string, s: State, i: nat) returns (step: Step)
    requires i < |s.syncs| && !s.syncs[i].Idle? && !s.watcher.Handling? && TodosRight(s)
    ensures !step.BeginSync? && !step.Receive? && !step.QueryOk?
    ensures Do(own, s, step) != s
  {
    var pc, id := s.syncs[i], "";
    if pc.Deleting? && pc.todo != {} { id :| id in pc.todo; }
    step := SyncMove(s.cache, pc, i, id);
    assert DoSync(own, s, step, i).syncs[i] != pc;
  }

  /** Sync and watcher never wait for each other forever. In every run, with any number of syncs in flight: as long as a
      sync or a watch response is under way, or the watcher is blocked, a step of one of them is possible, and none
      that begins a sync, receives a response or needs the query to succeed. */
  lemma NeverDeadlocked(own: string, listeners: nat, slots: nat, steps: seq<Step>) returns (step: Step)
    requires !Run(own, Init(listeners, slots), steps).watcher.Selecting?
             || exists pc :: pc in Run(own, Init(listeners, slots), steps).syncs && !pc.Idle?
    ensures !step.BeginSync? && !step.Receive? && !step.QueryOk?
    ensures var s := Run(own, Init(listeners, slots), steps); Do(own, s, step) != s
  {
    BlockedIsAwaited(own, listeners, slots, steps);
    RunKeepsTodos(own, listeners, slots, steps);
    var s := Run(own, Init(listeners, slots), steps);
    if s.watcher.Handling? {
      step := WatcherMove(s.watcher);
      assert Do(own, s, step).watcher != s.watcher;
    } else {
      var i :| 0 <= i < |s.syncs| && !s.syncs[i].Idle?;
      step := SyncCanMove(own, s, i);
    }
  }

  // ---------- everything that has begun ends ----------

  ghost function PhaseRank(phase: Phase): nat {
    match phase
    case Resting => 0
    case AddStored(_) => 2
    case AddIndexed(_) => 1
    case DelLoaded(_) => 3
    case DelRemoved(_) => 2
    case DelUnindexed(_) => 1
  }

  /** The known IDs that a sync may still begin to delete: not the one that it has just loaded. */
  ghost function Deletable(known: set<string>, phase: Phase): set<string> {
    if phase.DelLoaded? then known - {phase.sv.id} else known
  }

  /** An add takes three steps and gives each sync one more ID to visit and to delete. */
  ghost function Cost(slots: nat): nat { 4 + 5 * slots }

  /** An upper bound on the steps of a sync, and on what its adds make others do, if its query brings at most `most`
      servers. */
  ghost function SyncRank(known: set<string>, cost: nat, most: nat): SyncPc -> nat {
    (pc: SyncPc) =>
      match pc
      case Idle => 0
      case Asking => 5 + cost * most + 5 * |known|
      case Querying => 4 + cost * most + 5 * |known|
      case Adding(adds, _, phase) => 3 + cost * |adds| + PhaseRank(phase) + 5 * |known|
      case Deleting(_, todo, phase) => 2 + |todo| + PhaseRank(phase) + 4 * |Deletable(known, phase)|
      case Closing => 1
  }

  ghost function WatchRank(w: WatcherPc, cost: nat): nat {
    if w.Handling? then 1 + cost * |w.todo| + PhaseRank(w.phase) else 0
  }

  ghost function Outstanding(s: State, most: nat): nat {
    var cost := Cost(|s.syncs|);
    Sum(s.syncs, SyncRank(s.cache.byId.Keys, cost, most)) + WatchRank(s.watcher, cost)
  }

  lemma RankGrows(known: set<string>, id: string, cost: nat, most: nat, pc: SyncPc)
    ensures SyncRank(known + {id}, cost, most)(pc) <= SyncRank(known, cost, most)(pc) + 5
  {
    if pc.Deleting? {
      SubsetSize(Deletable(known + {id}, pc.phase), Deletable(known, pc.phase) + {id});
    }
  }

  lemma RankShrinks(known: set<string>, fewer: set<string>, cost: nat, most: nat, pc: SyncPc)
    requires fewer <= known
    ensures SyncRank(fewer, cost, most)(pc) <= SyncRank(known, cost, most)(pc)
  {
    SubsetSize(fewer, known);
    if pc.Deleting? { SubsetSize(Deletable(fewer, pc.phase), Deletable(known, pc.phase)); }
  }

  /** A step of sync i that adds no ID and lowers its own rank lowers the whole. */
  lemma SyncRankFalls(s: State, s1: State, i: nat, most: nat)
    requires i < |s.syncs| == |s1.syncs| && s1.syncs == s.syncs[i := s1.syncs[i]]
    requires s1.cache.byId.Keys <= s.cache.byId.Keys
    requires WatchRank(s1.watcher, Cost(|s.syncs|)) == WatchRank(s.watcher, Cost(|s.syncs|))
    requires SyncRank(s1.cache.byId.Keys, Cost(|s.syncs|), most)(s1.syncs[i])
             < SyncRank(s.cache.byId.Keys, Cost(|s.syncs|), most)(s.syncs[i])
    ensures Outstanding(s1, most) < Outstanding(s, most)
  {
    var cost := Cost(|s.syncs|);
    var f, g := SyncRank(s.cache.byId.Keys, cost, most), SyncRank(s1.cache.byId.Keys, cost, most);
    forall j | 0 <= j < |s.syncs| ensures g(s1.syncs[j]) <= f(s.syncs[j]) {
      if j != i { RankShrinks(s.cache.byId.Keys, s1.cache.byId.Keys, cost, most, s.syncs[j]); }
    }
    SumLoses(s.syncs, s1.syncs, f, g, 0, i, 1);
  }

  /** Every server is stored under its own ID. */
  ghost predicate OwnIds(c: Cache) { forall id :: id in c.byId ==> c.byId[id].id == id }

  lemma {:induction false} RunKeepsOwnIds(own: string, listeners: nat, slots: nat, steps: seq<Step>)
    ensures OwnIds(Run(own, Init(listeners, slots), steps).cache)
  {
    if steps != [] {
      RunKeepsOwnIds(own, listeners, slots, steps[..|steps| - 1]);
      DoKeepsOwnIds(own, Run(own, Init(listeners, slots), steps[..|steps| - 1]), steps[|steps| - 1]);
    }
  }

  lemma DoKeepsOwnIds(own: string, s: State, step: Step)
    requires OwnIds(s.cache)
    ensures OwnIds(Do(own, s, step).cache)
  {
  }

  /** The query brings no more than `most` servers. */
  ghost predicate Brings(step: Step, most: nat) { step.QueryOk? ==> |step.adds| <= most }

  lemma StoreDrains(s: State, s1: State, i: nat, sv: Server, most: nat)
    requires i < |s.syncs| && s.syncs[i].Adding? && s.syncs[i].phase.Resting? && s.syncs[i].adds != []
    requires s1.syncs == s.syncs[i := Adding(s.syncs[i].adds[1..], s.syncs[i].job, AddStored(sv))]
    requires s1.watcher == s.watcher && s1.cache.byId.Keys == s.cache.byId.Keys + {sv.id}
    ensures Outstanding(s1, most) < Outstanding(s, most)
  {
    var cost, known, adds := Cost(|s.syncs|), s.cache.byId.Keys, s.syncs[i].adds;
    var f, g := SyncRank(known, cost, most), SyncRank(known + {sv.id}, cost, most);
    assert cost * |adds| == cost * (|adds| - 1) + cost;
    forall j | 0 <= j < |s.syncs| ensures g(s1.syncs[j]) <= f(s.syncs[j]) + 5 {
      RankGrows(known, sv.id, cost, most, s.syncs[j]);
    }
    RankGrows(known, sv.id, cost, most, s.syncs[i]);
    SumLoses(s.syncs, s1.syncs, f, g, 5, i, cost - 2);
  }

  lemma AddDrains(own: string, s: State, i: nat, most: nat)
    requires i < |s.syncs| && DoSync(own, s, SyncAdd(i), i) != s
    ensures Outstanding(DoSync(own, s, SyncAdd(i), i), most) < Outstanding(s, most)
  {
    var s1, cost, pc := DoSync(own, s, SyncAdd(i), i), Cost(|s.syncs|), s.syncs[i];
    if pc.adds[0].id in s.cache.byId {
      assert cost * |pc.adds| == cost * (|pc.adds| - 1) + cost;
      SyncRankFalls(s, s1, i, most);
    } else {
      StoreDrains(s, s1, i, pc.adds[0], most);
    }
  }

  lemma ContinueDrains(own: string, s: State, i: nat, most: nat)
    requires i < |s.syncs|
    ensures var s1 := DoSync(own, s, SyncContinue(i), i); s1 == s || Outstanding(s1, most) < Outstanding(s, most)
  {
    var s1, pc := DoSync(own, s, SyncContinue(i), i), s.syncs[i];
    if PhaseOf(pc).Resting? {
      assert s.done + [] == s.done && s.syncs[i := pc] == s.syncs;
      assert s1 == s;
    } else {
      SubsetSize(s1.cache.byId.Keys, s.cache.byId.Keys);
      SyncRankFalls(s, s1, i, most);
    }
  }

  lemma DeleteDrains(own: string, s: State, i: nat, id: string, most: nat)
    requires i < |s.syncs| && OwnIds(s.cache)
    ensures var s1 := DoSync(own, s, SyncDelete(i, id), i); s1 == s || Outstanding(s1, most) < Outstanding(s, most)
  {
    var s1, pc, known := DoSync(own, s, SyncDelete(i, id), i), s.syncs[i], s.cache.byId.Keys;
    if s1 != s {
      SubsetSize(pc.todo - {id}, pc.todo);
      assert |known - {id}| == |known| - 1;
      SyncRankFalls(s, s1, i, most);
    }
  }

  lemma SkipDrains(own: string, s: State, i: nat, id: string, most: nat)
    requires i < |s.syncs|
    ensures var s1 := DoSync(own, s, SyncSkip(i, id), i); s1 == s || Outstanding(s1, most) < Outstanding(s, most)
  {
    var s1, pc := DoSync(own, s, SyncSkip(i, id), i), s.syncs[i];
    if pc.Deleting? && pc.phase.Resting? && id !in s.cache.byId {
      if id in pc.todo {
        assert |pc.todo - {id}| == |pc.todo| - 1;
        SyncRankFalls(s, s1, i, most);
      } else {
        assert pc.todo - {id} == pc.todo;
        assert s.syncs[i := pc] == s.syncs;
      }
    }
  }

  lemma QueryDrains(own: string, s: State, step: Step, i: nat, most: nat)
    requires i < |s.syncs| && Brings(step, most) && (step.QueryOk? || step.QueryFail?)
    ensures var s1 := DoSync(own, s, step, i); s1 == s || Outstanding(s1, most) < Outstanding(s, most)
  {
    if s.syncs[i].Querying? {
      if step.QueryOk? { TimesGrows(Cost(|s.syncs|), |step.adds|, most); }
      SyncRankFalls(s, DoSync(own, s, step, i), i, most);
    }
  }

  lemma OtherDrains(own: string, s: State, step: Step, i: nat, most: nat)
    requires i < |s.syncs| && (step.SendTrue? || step.BeginRange? || step.EndRange? || step.SendFalse?)
    ensures var s1 := DoSync(own, s, step, i); s1 == s || Outstanding(s1, most) < Outstanding(s, most)
  {
    var s1, pc, known := DoSync(own, s, step, i), s.syncs[i], s.cache.byId.Keys;
    if s1 != s {
      if step.BeginRange? { SubsetSize(known - pc.job.keep, known); }
      SyncRankFalls(s, s1, i, most);
    }
  }

  lemma SyncDrains(own: string, s: State, step: Step, i: nat, most: nat)
    requires i < |s.syncs| && OwnIds(s.cache) && !step.BeginSync? && Brings(step, most)
    ensures var s1 := DoSync(own, s, step, i); s1 == s || Outstanding(s1, most) < Outstanding(s, most)
  {
    if step.SyncAdd? {
      if DoSync(own, s, step, i) != s { AddDrains(own, s, i, most); }
    } else if step.SyncContinue? {
      ContinueDrains(own, s, i, most);
    } else if step.SyncDelete? {
      DeleteDrains(own, s, i, step.id, most);
    } else if step.SyncSkip? {
      SkipDrains(own, s, i, step.id, most);
    } else if step.QueryOk? || step.QueryFail? {
      QueryDrains(own, s, step, i, most);
    } else if !ByWatcher(step) {
      OtherDrains(own, s, step, i, most);
    }
  }

  /** A step of the watcher that adds at most one ID, and less than pays for it. */
  lemma WatchRankFalls(s: State, s1: State, most: nat)
    requires s1.syncs == s.syncs
    requires var cost, known, known1 := Cost(|s.syncs|), s.cache.byId.Keys, s1.cache.byId.Keys;
             || (known1 <= known && WatchRank(s1.watcher, cost) < WatchRank(s.watcher, cost))
             || (&& (exists id :: known1 == known + {id})
                 && WatchRank(s1.watcher, cost) + 5 * |s.syncs| < WatchRank(s.watcher, cost))
    ensures Outstanding(s1, most) < Outstanding(s, most)
  {
    var cost, known, known1 := Cost(|s.syncs|), s.cache.byId.Keys, s1.cache.byId.Keys;
    var f, g := SyncRank(known, cost, most), SyncRank(known1, cost, most);
    if known1 <= known {
      forall j | 0 <= j < |s.syncs| ensures g(s.syncs[j]) <= f(s.syncs[j]) {
        RankShrinks(known, known1, cost, most, s.syncs[j]);
      }
      SumGains(s.syncs, s.syncs, f, g, 0);
    } else {
      var id :| known1 == known + {id};
      forall j | 0 <= j < |s.syncs| ensures g(s.syncs[j]) <= f(s.syncs[j]) + 5 {
        RankGrows(known, id, cost, most, s.syncs[j]);
      }
      SumGains(s.syncs, s.syncs, f, g, 5);
    }
  }

  lemma WatchDrains(own: string, s: State, step: Step, most: nat)
    requires ByWatcher(step) && !step.Receive?
    ensures var s1 := DoWatch(own, s, step); s1 == s || Outstanding(s1, most) < Outstanding(s, most)
  {
    var s1, w, cost := DoWatch(own, s, step), s.watcher, Cost(|s.syncs|);
    assert s.done + [] == s.done;
    if s1 != s {
      if step.WatchStart? {
        assert cost * |w.todo| == cost * (|w.todo| - 1) + cost;
        var op := w.todo[0];
        if op.Add? && op.sv.id !in s.cache.byId {
          assert s1.cache.byId.Keys == s.cache.byId.Keys + {op.sv.id};
        }
      }
      WatchRankFalls(s, s1, most);
    }
  }

  lemma StepsDrain(own: string, s: State, step: Step, most: nat)
    requires OwnIds(s.cache) && !step.BeginSync? && !step.Receive? && Brings(step, most)
    ensures Do(own, s, step) == s || Outstanding(Do(own, s, step), most) < Outstanding(s, most)
  {
    if ByWatcher(step) {
      WatchDrains(own, s, step, most);
    } else if step.i < |s.syncs| {
      SyncDrains(own, s, step, step.i, most);
    }
  }

  /** Nothing is under way. */
  ghost predicate Settled(s: State) {
    s.watcher.Selecting? && forall i :: 0 <= i < |s.syncs| ==> s.syncs[i].Idle?
  }

  /** After the run `steps`, the steps of `more` each do something, begin no sync and receive no response, and no query
      brings more than `most` servers. */
  ghost predicate Effective(own: string, s0: State, steps: seq<Step>, more: seq<Step>, most: nat) {
    more == [] || (var m := |more| - 1;
                   var s := Run(own, s0, steps + more[..m]);
                   && Effective(own, s0, steps, more[..m], most) && !more[m].BeginSync? && !more[m].Receive?
                   && Brings(more[m], most) && Do(own, s, more[m]) != s)
  }

  lemma {:induction false} DrainsAreBounded(
    own: string, listeners: nat, slots: nat, steps: seq<Step>, more: seq<Step>, most: nat)
    requires Effective(own, Init(listeners, slots), steps, more, most)
    ensures var s0 := Init(listeners, slots);
            |more| + Outstanding(Run(own, s0, steps + more), most) <= Outstanding(Run(own, s0, steps), most)
  {
    var s0 := Init(listeners, slots);
    if more == [] {
      assert steps + more == steps;
    } else {
      var m := |more| - 1;
      var all, s := steps + more, Run(own, s0, steps + more[..m]);
      assert all[..|all| - 1] == steps + more[..m] && all[|all| - 1] == more[m];
      assert Run(own, s0, all) == Do(own, s, more[m]);
      DrainsAreBounded(own, listeners, slots, steps, more[..m], most);
      RunKeepsOwnIds(own, listeners, slots, steps + more[..m]);
      StepsDrain(own, s, more[m], most);
    }
  }

  /** Draining: after every run, with any number of syncs in flight, each way of going on without beginning a sync or
      receiving a response is bounded, and as long as something is under way it can be continued. So every sync and
      every response that has begun ends. */
  lemma EveryDrainFinishes(own: string, listeners: nat, slots: nat, steps: seq<Step>, more: seq<Step>, most: nat)
    requires Effective(own, Init(listeners, slots), steps, more, most)
    ensures var s0 := Init(listeners, slots);
            var s := Run(own, s0, steps + more);
            && |more| + Outstanding(s, most) <= Outstanding(Run(own, s0, steps), most)
            && (Settled(s) || exists step: Step ::
                                !step.BeginSync? && !step.Receive? && Brings(step, most) && Do(own, s, step) != s)
  {
    DrainsAreBounded(own, listeners, slots, steps, more, most);
    if !Settled(Run(own, Init(listeners, slots), steps + more)) {
      var step := NeverDeadlocked(own, listeners, slots, steps + more);
    }
  }

  // ---------- two syncs at once ----------

  lemma Extend(own: string, s0: State, run0: seq<Step>, s: State, step: Step) returns (run: seq<Step>, s1: State)
    requires s == Run(own, s0, run0)
    ensures run == run0 + [step] && s1 == Do(own, s, step) && s1 == Run(own, s0, run)
  {
    run := run0 + [step];
    assert run[..|run| - 1] == run0;
    s1 := Do(own, s, step);
  }

  /** Two syncs get in together. */
  lemma BothEnter(own: string, listeners: nat, slots: nat) returns (run: seq<Step>, s: State)
    requires slots >= 2
    ensures s == Run(own, Init(listeners, slots), run)
    ensures var s0 := Init(listeners, slots);
            s == s0.(syncs := s0.syncs[0 := Querying][1 := Querying], watcher := Blocked)
  {
    var s0 := Init(listeners, slots);
    run, s := Extend(own, s0, [], s0, BeginSync(0));
    run, s := Extend(own, s0, run, s, BeginSync(1));
    run, s := Extend(own, s0, run, s, SendTrue(0));
    run, s := Extend(own, s0, run, s, SendTrue(1));
  }

  /** The first sync to send false lets the watcher go on while the other is still inside. */
  lemma OverlapLetsWatcherIn(own: string, listeners: nat, slots: nat) returns (run: seq<Step>, s: State)
    requires slots >= 2
    ensures s == Run(own, Init(listeners, slots), run)
    ensures s.watcher.Handling? && |s.syncs| == slots && Critical(s.syncs[0])
  {
    var s0 := Init(listeners, slots);
    run, s := BothEnter(own, listeners, slots);
    run, s := Extend(own, s0, run, s, QueryFail(1));
    run, s := Extend(own, s0, run, s, SendFalse(1));
    run, s := Extend(own, s0, run, s, Receive([]));
  }

  /** One sync has stored server x by ID while the other, whose snapshot lacks x, begins its range. */
  lemma BothInside(own: string, listeners: nat, slots: nat, x: Server) returns (run: seq<Step>, s: State)
    requires slots >= 2
    ensures s == Run(own, Init(listeners, slots), run)
    ensures s.cache == Store(Empty(listeners), x) && s.done == [] && |s.syncs| == slots && s.watcher == Blocked
    ensures s.syncs[0] == Adding([], Job([x], {x.id}, []), AddStored(x))
    ensures s.syncs[1] == Deleting(Job([], {}, []), {x.id}, Resting)
    ensures forall i :: 2 <= i < slots ==> s.syncs[i] == Idle
  {
    var s0 := Init(listeners, slots);
    run, s := BothEnter(own, listeners, slots);
    run, s := Extend(own, s0, run, s, QueryOk(0, [x], {x.id}));
    run, s := Extend(own, s0, run, s, QueryOk(1, [], {}));
    run, s := Extend(own, s0, run, s, SyncAdd(0));
    run, s := Extend(own, s0, run, s, BeginRange(1));
  }

  /** The second sync removes x by ID while the first is still about to index it by type. */
  lemma SecondRemoves(own: string, listeners: nat, slots: nat, x: Server) returns (run: seq<Step>, s: State)
    requires slots >= 2
    ensures s == Run(own, Init(listeners, slots), run) && |s.syncs| == slots
    ensures s.cache == Empty(listeners) && s.done == []
    ensures s.syncs[0] == Adding([], Job([x], {x.id}, []), AddStored(x))
    ensures s.syncs[1] == Deleting(Job([], {}, []), {}, DelRemoved(x))
    ensures s.watcher == Blocked && forall i :: 2 <= i < slots ==> s.syncs[i] == Idle
  {
    var s0 := Init(listeners, slots);
    run, s := BothInside(own, listeners, slots, x);
    run, s := Extend(own, s0, run, s, SyncDelete(1, x.id));
    run, s := Extend(own, s0, run, s, SyncContinue(1));
    assert s.cache.byId == map[];
  }

  /** And completes the delete. */
  lemma SecondDeletes(own: string, listeners: nat, slots: nat, x: Server) returns (run: seq<Step>, s: State)
    requires slots >= 2
    ensures s == Run(own, Init(listeners, slots), run) && |s.syncs| == slots
    ensures s.cache.byId == map[] && s.done == [Delete(x.id)]
    ensures s.syncs[0] == Adding([], Job([x], {x.id}, []), AddStored(x))
    ensures s.syncs[1] == Deleting(Job([], {}, []), {}, Resting)
    ensures s.watcher == Blocked && forall i :: 2 <= i < slots ==> s.syncs[i] == Idle
  {
    var s0 := Init(listeners, slots);
    run, s := SecondRemoves(own, listeners, slots, x);
    run, s := Extend(own, s0, run, s, SyncContinue(1));
    run, s := Extend(own, s0, run, s, SyncContinue(1));
  }

  /** Afterwards nobody is busy, x is found by type, and it is not found by ID. */
  lemma OverlapBreaksIndexes(own: string, listeners: nat, slots: nat, x: Server) returns (run: seq<Step>, s: State)
    requires slots >= 2
    ensures s == Run(own, Init(listeners, slots), run) && Quiet(s)
    ensures x.id in Bucket(s.cache, x.typ) && x.id !in s.cache.byId && s.done == [Delete(x.id), Add(x)]
  {
    var s0 := Init(listeners, slots);
    run, s := SecondDeletes(own, listeners, slots, x);
    run, s := Extend(own, s0, run, s, SyncContinue(0));
    run, s := Extend(own, s0, run, s, SyncContinue(0));
  }

  /** With one slot no two syncs can overlap. */
  lemma {:induction false} OneSlotNeverOverlaps(own: string, listeners: nat, slots: nat, steps: seq<Step>)
    requires slots <= 1
    ensures NoOverlap(own, Init(listeners, slots), steps)
  {
    if steps != [] {
      var s := Run(own, Init(listeners, slots), steps[..|steps| - 1]);
      OneSlotNeverOverlaps(own, listeners, slots, steps[..|steps| - 1]);
      BlockedIsAwaited(own, listeners, slots, steps[..|steps| - 1]);
      SlotsStay(own, listeners, slots, steps[..|steps| - 1]);
    }
  }

  lemma {:induction false} SlotsStay(own: string, listeners: nat, slots: nat, steps: seq<Step>)
    ensures |Run(own, Init(listeners, slots), steps).syncs| == slots
  {
    if steps != [] { SlotsStay(own, listeners, slots, steps[..|steps| - 1]); }
  }

  /** Overlapping is exactly what goes wrong: wherever a run has got to, a sync that overlaps can be followed by at most
      three steps after which the watcher handles events while a sync is inside. */
  lemma OverlapBreaksApart(own: string, listeners: nat, slots: nat, steps: seq<Step>, j: nat) returns (run: seq<Step>)
    requires Overlaps(Run(own, Init(listeners, slots), steps), SendTrue(j))
    ensures steps + [SendTrue(j)] <= run && |run| <= |steps| + 4
    ensures !Apart(Run(own, Init(listeners, slots), run))
  {
    var s0 := Init(listeners, slots);
    var s := Run(own, s0, steps);
    BlockedIsAwaited(own, listeners, slots, steps);
    var i :| 0 <= i < |s.syncs| && Owing(s.syncs[i]);
    run, s := Extend(own, s0, steps, s, SendTrue(j));
    if s.syncs[i].Closing? {
      run := LeaveAndReceive(own, s0, run, s, i, j);
    } else {
      run, s := Extend(own, s0, run, s, QueryFail(j));
      run := LeaveAndReceive(own, s0, run, s, j, i);
    }
  }

  /** One of two syncs sends false and the watcher goes on to an event while the other is inside. */
  lemma LeaveAndReceive(own: string, s0: State, run0: seq<Step>, s: State, i: nat, j: nat) returns (run: seq<Step>)
    requires s == Run(own, s0, run0) && s.watcher.Blocked? && i < |s.syncs| && j < |s.syncs| && i != j
    requires s.syncs[i].Closing? && Critical(s.syncs[j])
    ensures run == run0 + [SendFalse(i), Receive([])] && !Apart(Run(own, s0, run))
  {
    var s1;
    run, s1 := Extend(own, s0, run0, s, SendFalse(i));
    run, s1 := Extend(own, s0, run, s1, Receive([]));
    assert s1.syncs[j] == s.syncs[j];
  }

  /** Over every interleaving the watcher is kept apart from the syncs exactly when at most one sync can be in flight,
      and quiet caches are serial exactly then. */
  lemma SafeIffOneSync(own: string, listeners: nat, slots: nat)
    ensures (forall steps :: Apart(Run(own, Init(listeners, slots), steps))) <==> slots <= 1
    ensures (forall steps :: Serial(own, listeners, Run(own, Init(listeners, slots), steps))) <==> slots <= 1
  {
    if slots <= 1 {
      forall steps
        ensures Apart(Run(own, Init(listeners, slots), steps))
        ensures Serial(own, listeners, Run(own, Init(listeners, slots), steps))
      {
        OneSlotNeverOverlaps(own, listeners, slots, steps);
        NoOverlapIsSafe(own, listeners, slots, steps);
      }
    } else {
      var run1, s1 := OverlapLetsWatcherIn(own, listeners, slots);
      assert !Apart(Run(own, Init(listeners, slots), run1));
      SerialBreaks(own, listeners, slots);
    }
  }

  lemma SerialBreaks(own: string, listeners: nat, slots: nat)
    requires slots >= 2
    ensures exists steps :: !Serial(own, listeners, Run(own, Init(listeners, slots), steps))
  {
    var x := Server("", "", map[], "");
    var run, s := OverlapBreaksIndexes(own, listeners, slots, x);
    ReplayKeepsConsistent(own, Empty(listeners), s.done);
    assert !Consistent(s.cache);
    assert !Serial(own, listeners, Run(own, Init(listeners, slots), run));
  }
}
