/** The sharded worker pool of cluster/worker_pool.go as a step machine. A Submit looks its queue up, creates and stores
    one if it finds none, counts the task in the wait group and sends it; `submitters` many Submits may be under way at
    once. Each queue has one goroutine that runs its tasks. */
module WorkerPool {
  import opened Base

  /** How share IDs are mapped to queue keys, and the capacity of a queue's channel. */
  datatype Config = Config(key: Bytes -> Bytes, queueSize: nat)

  datatype Task = Task(share: Bytes, job: nat)

  /** A queue, labelled with the key it was created for. */
  datatype Queue = Queue(key: Bytes, chan: seq<Task>, running: Option<Task>, wg: int)

  datatype Submitter = Idle | Missed(task: Task) | Found(q: nat, task: Task) | Counted(q: nat, task: Task)

  /** `submitted`, `started` and `finished` record sends, starts and ends of tasks. */
  datatype State = State(table: map<Bytes, nat>, queues: seq<Queue>, submitters: seq<Submitter>,
                         submitted: seq<Task>, started: seq<Task>, finished: seq<Task>)

  datatype Step =
    | Load(i: nat, task: Task)
    | Create(i: nat)
    | Count(i: nat)
    | Enqueue(i: nat)
    | Start(q: nat)
    | Finish(q: nat)

  // ---------- keys ----------

  function Xor(a: Byte, b: Byte): Byte { ((a as bv8) ^ (b as bv8)) as Byte }

  /** The byte goes into the lowest eight bits by exclusive or. */
  function Into(h: nat, b: Byte): nat { 256 * (h / 256) + Xor(h % 256, b) }

  /** The product with the 32-bit FNV prime wraps. */
  function Times(h: nat): nat { h * 16777619 % 0x1_0000_0000 }

  /** 32-bit FNV-1a */
  function Fnv1a(s: Bytes): nat { if s == [] then 2166136261 else Times(Into(Fnv1a(s[..|s| - 1]), s[|s| - 1])) }

  /** strconv.Itoa */
  function Itoa(n: nat): Bytes { if n < 10 then [48 + n] else Itoa(n / 10) + [48 + n % 10] }

  /** With a positive queueNum the hash picks one of that many keys; otherwise every share ID is its own key. */
  function KeyOf(queueNum: int, share: Bytes): Bytes {
    if queueNum > 0 then Itoa(Fnv1a(share) % queueNum) else share
  }

  /** The number a numeral denotes. */
  ghost function Atoi(s: seq<int>): int { if s == [] then 0 else 10 * Atoi(s[..|s| - 1]) + (s[|s| - 1] - 48) }

  /** A decimal numeral: digits only, at least one, no leading zero. */
  ghost predicate Numeral(s: Bytes) {
    |s| >= 1 && (forall i :: 0 <= i < |s| ==> 48 <= s[i] <= 57) && (|s| > 1 ==> s[0] != 48)
  }

  lemma {:induction false} ItoaReads(n: nat)
    ensures Numeral(Itoa(n)) && Atoi(Itoa(n)) == n && (n >= 1 ==> Itoa(n)[0] != 48)
  {
    if n < 10 {
      assert Itoa(n)[..0] == [];
    } else {
      ItoaReads(n / 10);
      assert Itoa(n)[..|Itoa(n)| - 1] == Itoa(n / 10);
    }
  }

  /** The hash as the loop of hash/fnv computes it, from the first byte on. */
  method Hash(s: Bytes) returns (h: nat)
    ensures h == Fnv1a(s)
  {
    h := 2166136261;
    for i := 0 to |s|
      invariant h == Fnv1a(s[..i])
    {
      assert s[..i + 1][..i] == s[..i];
      h := Into(h, s[i]);
      h := Times(h);
    }
    assert s[..|s|] == s;
  }

  lemma WrapIs(wraps: nat, n: nat)
    requires n < 0x1_0000_0000
    ensures (0x1_0000_0000 * wraps + n) % 0x1_0000_0000 == n
  {
  }

  lemma TimesIs(h: nat, wraps: nat, n: nat)
    requires h * 16777619 == 0x1_0000_0000 * wraps + n && n < 0x1_0000_0000
    ensures Times(h) == n
  {
    WrapIs(wraps, n);
  }

  lemma IntoIs(high: nat, low: Byte, b: Byte)
    ensures Into(256 * high + low, b) == 256 * high + Xor(low, b)
  {
    assert (256 * high + low) / 256 == high && (256 * high + low) % 256 == low;
  }

  lemma HashOne(s: Bytes, k: nat)
    requires k < |s|
    ensures Fnv1a(s[..k + 1]) == Times(Into(Fnv1a(s[..k]), s[k]))
  {
    assert s[..k + 1][..k] == s[..k];
  }

  /** A step written out: the exclusive or with the low byte, and what wraps. */
  lemma HashStep(s: Bytes, k: nat, high: nat, low: Byte, x: Byte, wraps: nat, n: nat)
    requires k < |s| && Fnv1a(s[..k]) == 256 * high + low && Xor(low, s[k]) == x && n < 0x1_0000_0000
    requires (256 * high + x) * 16777619 == 0x1_0000_0000 * wraps + n
    ensures Fnv1a(s[..k + 1]) == n
  {
    HashOne(s, k);
    IntoIs(high, low, s[k]);
    TimesIs(256 * high + x, wraps, n);
  }

  lemma HashOfA(s: Bytes)
    requires s == [97]
    ensures Fnv1a(s) == 0xe40c292c
  {
    assert Xor(197, 97) == 164;
    HashStep(s, 0, 8461469, 197, 164, 8461672, 0xe40c292c);
    assert s[..1] == s;
  }

  lemma HashOfF(s: Bytes)
    requires |s| == 2 && s[0] == 102
    ensures Fnv1a(s[..1]) == 0xe30c2799
  {
    assert Xor(197, 102) == 163;
    HashStep(s, 0, 8461469, 197, 163, 8461672, 0xe30c2799);
  }

  lemma XorOfO()
    ensures Xor(153, 111) == 246
  {
  }

  lemma HashOfFo(s: Bytes)
    requires |s| == 2 && s[0] == 102 && s[1] == 111
    ensures Fnv1a(s[..2]) == 0x6222e842
  {
    HashOfF(s);
    XorOfO();
    HashStep(s, 1, 14879783, 153, 246, 14880141, 0x6222e842);
  }

  /** Published values of 32-bit FNV-1a, for "", "a" and "fo". */
  lemma PublishedHashes(empty: Bytes, a: Bytes, fo: Bytes)
    requires empty == [] && a == [97] && fo == [102, 111]
    ensures Fnv1a(empty) == 0x811c9dc5 && Fnv1a(a) == 0xe40c292c && Fnv1a(fo) == 0x6222e842
  {
    HashOfA(a);
    HashOfFo(fo);
    assert fo[..2] == fo;
  }

  /** Without a fixed number of queues different shares have different keys. */
  lemma PerShareKeys(queueNum: int, a: Bytes, b: Bytes)
    requires queueNum <= 0
    ensures KeyOf(queueNum, a) == KeyOf(queueNum, b) <==> a == b
  {
  }

  /** With one, the key is the numeral of the hash modulo that number, so shares meet exactly if their hashes agree
      modulo it. */
  lemma FixedKeysByHash(queueNum: int, a: Bytes, b: Bytes)
    requires queueNum > 0
    ensures Numeral(KeyOf(queueNum, a)) && Atoi(KeyOf(queueNum, a)) == Fnv1a(a) % queueNum
    ensures KeyOf(queueNum, a) == KeyOf(queueNum, b)
            <==> Fnv1a(a) % queueNum == Fnv1a(b) % queueNum
  {
    ItoaReads(Fnv1a(a) % queueNum);
    ItoaReads(Fnv1a(b) % queueNum);
  }

  ghost function FixedKeys(n: nat): (keys: set<Bytes>)
    ensures |keys| <= n
    ensures forall i :: 0 <= i < n ==> Itoa(i) in keys
  {
    if n == 0 then {} else FixedKeys(n - 1) + {Itoa(n - 1)}
  }

  // ---------- the machine ----------

  ghost predicate Room(cfg: Config, q: Queue) {
    |q.chan| < cfg.queueSize || (cfg.queueSize == 0 && q.chan == [] && q.running.None?)
  }

  ghost function DoLoad(cfg: Config, s: State, i: nat, task: Task): State {
    if i < |s.submitters| && s.submitters[i].Idle? then
      var key := cfg.key(task.share);
      s.(submitters := s.submitters[i := if key in s.table then Found(s.table[key], task) else Missed(task)])
    else s
  }

  ghost function DoCreate(cfg: Config, s: State, i: nat): State {
    if i < |s.submitters| && s.submitters[i].Missed? then
      var task := s.submitters[i].task;
      var key := cfg.key(task.share);
      s.(queues := s.queues + [Queue(key, [], None, 0)], table := s.table[key := |s.queues|],
         submitters := s.submitters[i := Found(|s.queues|, task)])
    else s
  }

  ghost function DoCount(s: State, i: nat): State {
    if i < |s.submitters| && s.submitters[i].Found? && s.submitters[i].q < |s.queues| then
      var Found(q, task) := s.submitters[i];
      s.(queues := s.queues[q := s.queues[q].(wg := s.queues[q].wg + 1)],
         submitters := s.submitters[i := Counted(q, task)])
    else s
  }

  ghost function DoEnqueue(cfg: Config, s: State, i: nat): State {
    if i < |s.submitters| && s.submitters[i].Counted? && s.submitters[i].q < |s.queues|
       && Room(cfg, s.queues[s.submitters[i].q]) then
      var Counted(q, task) := s.submitters[i];
      s.(queues := s.queues[q := s.queues[q].(chan := s.queues[q].chan + [task])],
         submitters := s.submitters[i := Idle], submitted := s.submitted + [task])
    else s
  }

  ghost function DoStart(s: State, q: nat): State {
    if q < |s.queues| && s.queues[q].running.None? && s.queues[q].chan != [] then
      var queue := s.queues[q];
      s.(queues := s.queues[q := queue.(running := Some(queue.chan[0]), chan := queue.chan[1..])],
         started := s.started + [queue.chan[0]])
    else s
  }

  ghost function DoFinish(s: State, q: nat): State {
    if q < |s.queues| && s.queues[q].running.Some? then
      var queue := s.queues[q];
      s.(queues := s.queues[q := queue.(running := None, wg := queue.wg - 1)],
         finished := s.finished + [queue.running.value])
    else s
  }

  /** One step; a step that is not possible changes nothing. */
  ghost function Do(cfg: Config, s: State, step: Step): State {
    match step
    case Load(i, task) => DoLoad(cfg, s, i, task)
    case Create(i) => DoCreate(cfg, s, i)
    case Count(i) => DoCount(s, i)
    case Enqueue(i) => DoEnqueue(cfg, s, i)
    case Start(q) => DoStart(s, q)
    case Finish(q) => DoFinish(s, q)
  }

  ghost function Run(cfg: Config, submitters: nat, steps: seq<Step>): State {
    if steps == [] then State(map[], [], seq(submitters, _ => Idle), [], [], [])
    else Do(cfg, Run(cfg, submitters, steps[..|steps| - 1]), steps[|steps| - 1])
  }

  // ---------- histories by key and by share ----------

  ghost function OfKey(cfg: Config, tasks: seq<Task>, key: Bytes): seq<Task> {
    if tasks == [] then []
    else
      var last := tasks[|tasks| - 1];
      OfKey(cfg, tasks[..|tasks| - 1], key) + if cfg.key(last.share) == key then [last] else []
  }

  ghost function OfShare(tasks: seq<Task>, share: Bytes): seq<Task> {
    if tasks == [] then []
    else
      var last := tasks[|tasks| - 1];
      OfShare(tasks[..|tasks| - 1], share) + if last.share == share then [last] else []
  }

  lemma OfKeyAppend(cfg: Config, tasks: seq<Task>, x: Task, key: Bytes)
    ensures OfKey(cfg, tasks + [x], key) == OfKey(cfg, tasks, key) + if cfg.key(x.share) == key then [x] else []
  {
    assert (tasks + [x])[..|tasks|] == tasks;
  }

  lemma {:induction false} OfShareConcat(a: seq<Task>, b: seq<Task>, share: Bytes)
    ensures OfShare(a + b, share) == OfShare(a, share) + OfShare(b, share)
    decreases |b|
  {
    if b == [] {
      assert a + b == a;
    } else {
      assert (a + b)[..|a + b| - 1] == a + b[..|b| - 1];
      OfShareConcat(a, b[..|b| - 1], share);
    }
  }

  /** A share's tasks are among those of its key, in the same order. */
  lemma {:induction false} OfShareOfKey(cfg: Config, tasks: seq<Task>, share: Bytes)
    ensures OfShare(OfKey(cfg, tasks, cfg.key(share)), share) == OfShare(tasks, share)
  {
    if tasks != [] {
      var rest, last := tasks[..|tasks| - 1], tasks[|tasks| - 1];
      OfShareOfKey(cfg, rest, share);
      if cfg.key(last.share) == cfg.key(share) {
        var same := OfKey(cfg, rest, cfg.key(share));
        assert (same + [last])[..|same|] == same;
      } else {
        assert OfKey(cfg, tasks, cfg.key(share)) == OfKey(cfg, rest, cfg.key(share));
      }
    }
  }

  // ---------- one queue per key ----------

  ghost function LabelledBy(key: Bytes): Queue -> bool { (q: Queue) => q.key == key }

  ghost function MissedBy(cfg: Config, key: Bytes): Submitter -> bool {
    (w: Submitter) => w.Missed? && cfg.key(w.task.share) == key
  }

  /** A Create that stores a queue for `key` although the table has one. */
  ghost predicate Overwrites(cfg: Config, s: State, step: Step, key: Bytes) {
    && step.Create? && step.i < |s.submitters| && MissedBy(cfg, key)(s.submitters[step.i])
    && key in s.table
  }

  /** No Create of the run found `key` already stored: its first Submits did not overlap. */
  ghost predicate CleanFor(cfg: Config, n: nat, steps: seq<Step>, key: Bytes) {
    steps == [] || (var m := |steps| - 1;
                    CleanFor(cfg, n, steps[..m], key) && !Overwrites(cfg, Run(cfg, n, steps[..m]), steps[m], key))
  }

  /** The queues of a key and the Submits about to create one more are never more than the Submits under way. */
  ghost predicate Tally(cfg: Config, n: nat, s: State, key: Bytes) {
    && |s.submitters| == n
    && (key in s.table <==> HowMany(s.queues, LabelledBy(key)) >= 1)
    && HowMany(s.queues, LabelledBy(key)) + HowMany(s.submitters, MissedBy(cfg, key)) <= n
  }

  lemma CreateTally(cfg: Config, n: nat, s: State, i: nat, key: Bytes)
    requires Tally(cfg, n, s, key)
    ensures Tally(cfg, n, DoCreate(cfg, s, i), key)
    ensures HowMany(DoCreate(cfg, s, i).queues, LabelledBy(key)) - HowMany(s.queues, LabelledBy(key))
            == if i < n && MissedBy(cfg, key)(s.submitters[i]) then 1 else 0
  {
    if i < n && s.submitters[i].Missed? {
      var task := s.submitters[i].task;
      CountAppend(s.queues, Queue(cfg.key(task.share), [], None, 0), LabelledBy(key));
      CountUpdate(s.submitters, i, Found(|s.queues|, task), MissedBy(cfg, key));
    }
  }

  lemma LoadTally(cfg: Config, n: nat, s: State, i: nat, task: Task, key: Bytes)
    requires Tally(cfg, n, s, key)
    ensures Tally(cfg, n, DoLoad(cfg, s, i, task), key)
  {
    var s1 := DoLoad(cfg, s, i, task);
    if s1 != s {
      CountUpdate(s.submitters, i, s1.submitters[i], MissedBy(cfg, key));
      CountAtMost(s1.submitters, MissedBy(cfg, key));
    }
  }

  lemma OtherTally(cfg: Config, n: nat, s: State, step: Step, key: Bytes)
    requires Tally(cfg, n, s, key) && !step.Create? && !step.Load?
    ensures Tally(cfg, n, Do(cfg, s, step), key)
    ensures HowMany(Do(cfg, s, step).queues, LabelledBy(key)) == HowMany(s.queues, LabelledBy(key))
  {
    var s1 := Do(cfg, s, step);
    if s1 != s {
      if step.Count? || step.Enqueue? {
        var q := s.submitters[step.i].q;
        CountUpdate(s.submitters, step.i, s1.submitters[step.i], MissedBy(cfg, key));
        CountUpdate(s.queues, q, s1.queues[q], LabelledBy(key));
      } else {
        CountUpdate(s.queues, step.q, s1.queues[step.q], LabelledBy(key));
      }
    }
  }

  lemma DoTally(cfg: Config, n: nat, s: State, step: Step, key: Bytes)
    requires Tally(cfg, n, s, key)
    ensures Tally(cfg, n, Do(cfg, s, step), key)
    ensures HowMany(Do(cfg, s, step).queues, LabelledBy(key)) <= 1
            <==> HowMany(s.queues, LabelledBy(key)) <= 1 && !Overwrites(cfg, s, step, key)
  {
    match step {
      case Create(i) => CreateTally(cfg, n, s, i, key);
      case Load(i, task) => LoadTally(cfg, n, s, i, task, key);
      case _ => OtherTally(cfg, n, s, step, key);
    }
  }

  /** In every run, with any number n of Submits at once, a key gets at most n queues; and it gets at most one exactly
      when its first Submits did not overlap. */
  lemma {:induction false} QueuesPerKey(cfg: Config, n: nat, steps: seq<Step>, key: Bytes)
    ensures Tally(cfg, n, Run(cfg, n, steps), key)
    ensures CleanFor(cfg, n, steps, key) <==> HowMany(Run(cfg, n, steps).queues, LabelledBy(key)) <= 1
  {
    if steps == [] {
      CountAtMost(Run(cfg, n, steps).submitters, MissedBy(cfg, key));
    } else {
      var m := |steps| - 1;
      QueuesPerKey(cfg, n, steps[..m], key);
      DoTally(cfg, n, Run(cfg, n, steps[..m]), steps[m], key);
    }
  }

  // ---------- labels ----------

  ghost predicate Belongs(cfg: Config, q: Queue) {
    && (forall j :: 0 <= j < |q.chan| ==> cfg.key(q.chan[j].share) == q.key)
    && (q.running.Some? ==> cfg.key(q.running.value.share) == q.key)
  }

  ghost predicate Aimed(cfg: Config, queues: seq<Queue>, w: Submitter) {
    w.Found? || w.Counted? ==> w.q < |queues| && queues[w.q].key == cfg.key(w.task.share)
  }

  ghost predicate TableRight(table: map<Bytes, nat>, queues: seq<Queue>) {
    && (forall k :: k in table ==> table[k] < |queues| && queues[table[k]].key == k)
    && (forall q :: 0 <= q < |queues| ==> queues[q].key in table)
  }

  /** The table leads from a key to a queue of that key, and every task is in, or bound for, a queue of its key. */
  ghost predicate Labelled(cfg: Config, s: State) {
    && TableRight(s.table, s.queues)
    && (forall q :: 0 <= q < |s.queues| ==> Belongs(cfg, s.queues[q]))
    && (forall i :: 0 <= i < |s.submitters| ==> Aimed(cfg, s.queues, s.submitters[i]))
  }

  /** A step that changes one queue, not its label, and one submitter. */
  lemma LabelsKept(cfg: Config, s: State, s1: State, q: nat, i: nat)
    requires Labelled(cfg, s) && s1.table == s.table
    requires q < |s.queues| == |s1.queues| && s1.queues == s.queues[q := s1.queues[q]]
    requires s1.queues[q].key == s.queues[q].key && Belongs(cfg, s1.queues[q])
    requires s1.submitters == s.submitters
             || (i < |s.submitters| == |s1.submitters| && s1.submitters == s.submitters[i := s1.submitters[i]]
                 && Aimed(cfg, s.queues, s1.submitters[i]))
    ensures Labelled(cfg, s1)
  {
    assert forall j :: 0 <= j < |s.queues| ==> s1.queues[j].key == s.queues[j].key;
  }

  lemma CreateKeepsLabels(cfg: Config, s: State, i: nat)
    requires Labelled(cfg, s)
    ensures Labelled(cfg, DoCreate(cfg, s, i))
  {
    var s1 := DoCreate(cfg, s, i);
    assert forall j :: 0 <= j < |s.queues| ==> s1.queues[j] == s.queues[j];
  }

  lemma DoKeepsLabels(cfg: Config, s: State, step: Step)
    requires Labelled(cfg, s)
    ensures Labelled(cfg, Do(cfg, s, step))
  {
    var s1 := Do(cfg, s, step);
    match step {
      case Load(i, task) =>
      case Create(i) => CreateKeepsLabels(cfg, s, i);
      case Count(i) => if s1 != s { LabelsKept(cfg, s, s1, s.submitters[i].q, i); }
      case Enqueue(i) => if s1 != s { LabelsKept(cfg, s, s1, s.submitters[i].q, i); }
      case Start(q) => if s1 != s { LabelsKept(cfg, s, s1, q, 0); }
      case Finish(q) => if s1 != s { LabelsKept(cfg, s, s1, q, 0); }
    }
  }

  lemma {:induction false} RunKeepsLabels(cfg: Config, n: nat, steps: seq<Step>)
    ensures Labelled(cfg, Run(cfg, n, steps))
  {
    if steps != [] {
      RunKeepsLabels(cfg, n, steps[..|steps| - 1]);
      DoKeepsLabels(cfg, Run(cfg, n, steps[..|steps| - 1]), steps[|steps| - 1]);
    }
  }

  // ---------- order ----------

  ghost function InHand(q: Queue): seq<Task> { if q.running.Some? then [q.running.value] else [] }

  /** What the pool promises a share: its tasks started, and those finished, are a prefix of those submitted, and no two
      of them run at once. */
  ghost predicate OrderedFor(s: State, share: Bytes) {
    && OfShare(s.started, share) <= OfShare(s.submitted, share)
    && OfShare(s.finished, share) <= OfShare(s.started, share)
    && (forall p, q :: 0 <= p < q < |s.queues| && s.queues[p].running.Some? && s.queues[q].running.Some? ==>
          !(s.queues[p].running.value.share == share == s.queues[q].running.value.share))
  }

  ghost predicate Ordered(s: State) { forall share :: OrderedFor(s, share) }

  /** The queue the table has for the key is its only one. */
  ghost predicate Single(s: State, key: Bytes) {
    forall q :: 0 <= q < |s.queues| && s.queues[q].key == key ==> key in s.table && s.table[key] == q
  }

  ghost function Waiting(s: State, key: Bytes): seq<Task> {
    if key in s.table && s.table[key] < |s.queues| then s.queues[s.table[key]].chan else []
  }

  ghost function Active(s: State, key: Bytes): seq<Task> {
    if key in s.table && s.table[key] < |s.queues| then InHand(s.queues[s.table[key]]) else []
  }

  /** Per key: finished, running and waiting tasks, in this order, are the submitted ones. */
  ghost predicate Fifo(cfg: Config, s: State, key: Bytes) {
    && OfKey(cfg, s.submitted, key) == OfKey(cfg, s.started, key) + Waiting(s, key)
    && OfKey(cfg, s.started, key) == OfKey(cfg, s.finished, key) + Active(s, key)
  }

  ghost predicate Invariant(cfg: Config, s: State, key: Bytes) {
    Labelled(cfg, s) && Single(s, key) && Fifo(cfg, s, key)
  }

  /** What a step does to the part of the state that Fifo looks at: tasks gained by the three histories. */
  ghost predicate Moves(cfg: Config, s: State, s1: State, key: Bytes,
                        submitted: seq<Task>, started: seq<Task>, finished: seq<Task>) {
    && OfKey(cfg, s1.submitted, key) == OfKey(cfg, s.submitted, key) + submitted
    && OfKey(cfg, s1.started, key) == OfKey(cfg, s.started, key) + started
    && OfKey(cfg, s1.finished, key) == OfKey(cfg, s.finished, key) + finished
    && Waiting(s, key) + submitted == started + Waiting(s1, key)
    && Active(s, key) + started == finished + Active(s1, key)
  }

  lemma Regroup(a: seq<Task>, b: seq<Task>, b1: seq<Task>, gain: seq<Task>, moved: seq<Task>)
    requires b + gain == moved + b1
    ensures a + b + gain == a + moved + b1
  {
    assert a + b + gain == a + (b + gain);
    assert a + moved + b1 == a + (moved + b1);
  }

  lemma MovesKeepFifo(cfg: Config, s: State, s1: State, key: Bytes,
                      submitted: seq<Task>, started: seq<Task>, finished: seq<Task>)
    requires Fifo(cfg, s, key) && Moves(cfg, s, s1, key, submitted, started, finished)
    ensures Fifo(cfg, s1, key)
  {
    Regroup(OfKey(cfg, s.started, key), Waiting(s, key), Waiting(s1, key), submitted, started);
    Regroup(OfKey(cfg, s.finished, key), Active(s, key), Active(s1, key), started, finished);
  }

  /** Only the queue of the key is looked at. */
  lemma SameQueue(s: State, s1: State, q: nat, key: Bytes)
    requires TableRight(s.table, s.queues) && s1.table == s.table
    requires q < |s.queues| == |s1.queues| && s1.queues == s.queues[q := s1.queues[q]] && s.queues[q].key != key
    ensures Waiting(s1, key) == Waiting(s, key) && Active(s1, key) == Active(s, key)
  {
    if key in s.table { assert s.table[key] != q; }
  }

  ghost function If(b: bool, x: Task): seq<Task> { if b then [x] else [] }

  lemma EnqueueMoves(cfg: Config, s: State, i: nat, key: Bytes)
    requires Labelled(cfg, s) && Single(s, key) && DoEnqueue(cfg, s, i) != s
    ensures Moves(cfg, s, DoEnqueue(cfg, s, i), key,
                  If(cfg.key(s.submitters[i].task.share) == key, s.submitters[i].task), [], [])
  {
    var s1, q, task := DoEnqueue(cfg, s, i), s.submitters[i].q, s.submitters[i].task;
    OfKeyAppend(cfg, s.submitted, task, key);
    assert Aimed(cfg, s.queues, s.submitters[i]);
    if s.queues[q].key != key { SameQueue(s, s1, q, key); }
  }

  ghost predicate CanStart(s: State, q: nat) {
    q < |s.queues| && s.queues[q].running.None? && s.queues[q].chan != []
  }

  /** The first waiting task of the queue becomes the one in hand. */
  lemma StartTakes(s: State, q: nat, key: Bytes)
    requires TableRight(s.table, s.queues) && Single(s, key) && CanStart(s, q)
    ensures var moved := If(s.queues[q].key == key, s.queues[q].chan[0]);
            && Waiting(s, key) == moved + Waiting(DoStart(s, q), key)
            && Active(s, key) + moved == Active(DoStart(s, q), key)
  {
    var s1, task := DoStart(s, q), s.queues[q].chan[0];
    if s.queues[q].key != key {
      SameQueue(s, s1, q, key);
    } else {
      assert s.table[key] == q;
      assert s.queues[q].chan == [task] + s.queues[q].chan[1..];
    }
  }

  lemma StartMoves(cfg: Config, s: State, q: nat, key: Bytes)
    requires Labelled(cfg, s) && Single(s, key) && CanStart(s, q)
    ensures Moves(cfg, s, DoStart(s, q), key, [], If(s.queues[q].key == key, s.queues[q].chan[0]), [])
  {
    assert Belongs(cfg, s.queues[q]);
    OfKeyAppend(cfg, s.started, s.queues[q].chan[0], key);
    StartTakes(s, q, key);
  }

  lemma FinishMoves(cfg: Config, s: State, q: nat, key: Bytes)
    requires Labelled(cfg, s) && Single(s, key) && q < |s.queues| && s.queues[q].running.Some?
    ensures Moves(cfg, s, DoFinish(s, q), key, [], [], If(s.queues[q].key == key, s.queues[q].running.value))
  {
    var s1, task := DoFinish(s, q), s.queues[q].running.value;
    OfKeyAppend(cfg, s.finished, task, key);
    assert Belongs(cfg, s.queues[q]);
    if s.queues[q].key != key { SameQueue(s, s1, q, key); }
  }

  lemma LookupMoves(cfg: Config, s: State, step: Step, key: Bytes)
    requires step.Load? || step.Count?
    ensures Moves(cfg, s, Do(cfg, s, step), key, [], [], [])
  {
    var s1 := Do(cfg, s, step);
    assert s1.table == s.table && |s1.queues| == |s.queues|;
    assert forall q :: 0 <= q < |s.queues| ==>
        s1.queues[q].chan == s.queues[q].chan && s1.queues[q].running == s.queues[q].running;
    assert Waiting(s1, key) == Waiting(s, key) && Active(s1, key) == Active(s, key);
  }

  lemma CreateMoves(cfg: Config, s: State, i: nat, key: Bytes)
    requires Labelled(cfg, s) && Single(s, key) && !Overwrites(cfg, s, Create(i), key)
    ensures Moves(cfg, s, DoCreate(cfg, s, i), key, [], [], []) && Single(DoCreate(cfg, s, i), key)
  {
    var s1 := DoCreate(cfg, s, i);
    assert forall q :: 0 <= q < |s.queues| ==> s1.queues[q] == s.queues[q];
  }

  lemma SubmitKeepsFifo(cfg: Config, s: State, step: Step, key: Bytes)
    requires Invariant(cfg, s, key) && !Overwrites(cfg, s, step, key) && Do(cfg, s, step) != s
    requires !step.Start? && !step.Finish?
    ensures Fifo(cfg, Do(cfg, s, step), key)
  {
    var s1 := Do(cfg, s, step);
    if step.Enqueue? {
      var task := s.submitters[step.i].task;
      EnqueueMoves(cfg, s, step.i, key);
      MovesKeepFifo(cfg, s, s1, key, If(cfg.key(task.share) == key, task), [], []);
    } else {
      if step.Create? { CreateMoves(cfg, s, step.i, key); } else { LookupMoves(cfg, s, step, key); }
      MovesKeepFifo(cfg, s, s1, key, [], [], []);
    }
  }

  lemma StartKeepsFifo(cfg: Config, s: State, q: nat, key: Bytes)
    requires Invariant(cfg, s, key) && CanStart(s, q)
    ensures Fifo(cfg, DoStart(s, q), key)
  {
    StartMoves(cfg, s, q, key);
    MovesKeepFifo(cfg, s, DoStart(s, q), key, [], If(s.queues[q].key == key, s.queues[q].chan[0]), []);
  }

  lemma FinishKeepsFifo(cfg: Config, s: State, q: nat, key: Bytes)
    requires Invariant(cfg, s, key) && q < |s.queues| && s.queues[q].running.Some?
    ensures Fifo(cfg, DoFinish(s, q), key)
  {
    FinishMoves(cfg, s, q, key);
    MovesKeepFifo(cfg, s, DoFinish(s, q), key, [], [], If(s.queues[q].key == key, s.queues[q].running.value));
  }

  lemma QueueKeepsFifo(cfg: Config, s: State, step: Step, key: Bytes)
    requires Invariant(cfg, s, key) && Do(cfg, s, step) != s && (step.Start? || step.Finish?)
    ensures Fifo(cfg, Do(cfg, s, step), key)
  {
    if step.Start? { StartKeepsFifo(cfg, s, step.q, key); } else { FinishKeepsFifo(cfg, s, step.q, key); }
  }

  lemma DoKeepsFifo(cfg: Config, s: State, step: Step, key: Bytes)
    requires Invariant(cfg, s, key) && !Overwrites(cfg, s, step, key)
    ensures Fifo(cfg, Do(cfg, s, step), key)
  {
    if Do(cfg, s, step) != s {
      if step.Start? || step.Finish? {
        QueueKeepsFifo(cfg, s, step, key);
      } else {
        SubmitKeepsFifo(cfg, s, step, key);
      }
    }
  }

  lemma DoKeepsSingle(cfg: Config, s: State, step: Step, key: Bytes)
    requires Labelled(cfg, s) && Single(s, key) && !Overwrites(cfg, s, step, key)
    ensures Single(Do(cfg, s, step), key)
  {
    var s1 := Do(cfg, s, step);
    if step.Create? {
      CreateMoves(cfg, s, step.i, key);
    } else {
      assert s1.table == s.table && |s1.queues| == |s.queues|;
      assert forall q :: 0 <= q < |s.queues| ==> s1.queues[q].key == s.queues[q].key;
    }
  }

  lemma {:induction false} CleanKeepsInvariant(cfg: Config, n: nat, steps: seq<Step>, key: Bytes)
    requires CleanFor(cfg, n, steps, key)
    ensures Invariant(cfg, Run(cfg, n, steps), key)
  {
    if steps != [] {
      var m := |steps| - 1;
      var s, step := Run(cfg, n, steps[..m]), steps[m];
      CleanKeepsInvariant(cfg, n, steps[..m], key);
      DoKeepsLabels(cfg, s, step);
      DoKeepsSingle(cfg, s, step, key);
      DoKeepsFifo(cfg, s, step, key);
    }
  }

  lemma InvariantMeansOrdered(cfg: Config, s: State, share: Bytes)
    requires Invariant(cfg, s, cfg.key(share))
    ensures OrderedFor(s, share)
  {
    var key := cfg.key(share);
    OfShareOfKey(cfg, s.submitted, share);
    OfShareOfKey(cfg, s.started, share);
    OfShareOfKey(cfg, s.finished, share);
    OfShareConcat(OfKey(cfg, s.started, key), Waiting(s, key), share);
    OfShareConcat(OfKey(cfg, s.finished, key), Active(s, key), share);
    assert forall q :: 0 <= q < |s.queues| ==> Belongs(cfg, s.queues[q]);
  }

  /** With any number of Submits at once, a share keeps its order in every run in which the first Submits of its key did
      not overlap, whatever happens to other keys. */
  lemma CleanKeyIsOrdered(cfg: Config, n: nat, steps: seq<Step>, share: Bytes)
    requires CleanFor(cfg, n, steps, cfg.key(share))
    ensures OrderedFor(Run(cfg, n, steps), share)
  {
    CleanKeepsInvariant(cfg, n, steps, cfg.key(share));
    InvariantMeansOrdered(cfg, Run(cfg, n, steps), share);
  }

  // ---------- two Submits at once ----------

  lemma Extend(cfg: Config, n: nat, run0: seq<Step>, s: State, step: Step) returns (run: seq<Step>, s1: State)
    requires s == Run(cfg, n, run0)
    ensures run == run0 + [step] && s1 == Do(cfg, s, step) && s1 == Run(cfg, n, run)
  {
    run := run0 + [step];
    assert run[..|run| - 1] == run0;
    s1 := Do(cfg, s, step);
  }

  /** Two first Submits for one share both find no queue and each creates one. */
  lemma BothCreate(cfg: Config, n: nat, share: Bytes) returns (run: seq<Step>, s: State)
    requires n >= 2
    ensures s == Run(cfg, n, run) && |s.submitters| == n
    ensures |s.queues| == 2 && forall q :: 0 <= q < 2 ==> s.queues[q].chan == [] && s.queues[q].running.None?
    ensures s.submitters[0] == Counted(0, Task(share, 0)) && s.submitters[1] == Counted(1, Task(share, 1))
  {
    run, s := Extend(cfg, n, [], Run(cfg, n, []), Load(0, Task(share, 0)));
    run, s := Extend(cfg, n, run, s, Load(1, Task(share, 1)));
    run, s := Extend(cfg, n, run, s, Create(0));
    run, s := Extend(cfg, n, run, s, Create(1));
    run, s := Extend(cfg, n, run, s, Count(0));
    run, s := Extend(cfg, n, run, s, Count(1));
  }

  /** So two tasks of one share run at the same time. */
  lemma OverlapBreaksOrder(cfg: Config, n: nat, share: Bytes) returns (run: seq<Step>, s: State)
    requires n >= 2
    ensures s == Run(cfg, n, run) && |s.queues| == 2
    ensures s.queues[0].running == Some(Task(share, 0)) && s.queues[1].running == Some(Task(share, 1))
  {
    run, s := BothCreate(cfg, n, share);
    run, s := Extend(cfg, n, run, s, Enqueue(0));
    run, s := Extend(cfg, n, run, s, Enqueue(1));
    run, s := Extend(cfg, n, run, s, Start(0));
    run, s := Extend(cfg, n, run, s, Start(1));
  }

  /** The order promise holds over every run exactly when at most one Submit is under way at a time. */
  lemma OrderedIffOneSubmitter(cfg: Config, n: nat)
    ensures (forall steps :: Ordered(Run(cfg, n, steps))) <==> n <= 1
  {
    if n <= 1 {
      forall steps, share ensures OrderedFor(Run(cfg, n, steps), share) {
        QueuesPerKey(cfg, n, steps, cfg.key(share));
        CleanKeyIsOrdered(cfg, n, steps, share);
      }
    } else {
      var run, s := OverlapBreaksOrder(cfg, n, []);
      assert !OrderedFor(s, []);
      assert !Ordered(Run(cfg, n, run));
    }
  }

  lemma {:induction false} AllLoad(cfg: Config, n: nat, share: Bytes, k: nat) returns (run: seq<Step>, s: State)
    requires k <= n
    ensures s == Run(cfg, n, run) && s.queues == [] && s.table == map[] && |s.submitters| == n
    ensures forall i :: 0 <= i < n ==> s.submitters[i] == if i < k then Missed(Task(share, 0)) else Idle
  {
    if k == 0 {
      run, s := [], Run(cfg, n, []);
    } else {
      run, s := AllLoad(cfg, n, share, k - 1);
      run, s := Extend(cfg, n, run, s, Load(k - 1, Task(share, 0)));
    }
  }

  lemma CreateAdds(cfg: Config, s: State, i: nat, share: Bytes)
    requires i < |s.submitters| && s.submitters[i] == Missed(Task(share, 0))
    ensures var s1 := DoCreate(cfg, s, i);
            && |s1.submitters| == |s.submitters|
            && (forall j :: 0 <= j < |s.submitters| && j != i ==> s1.submitters[j] == s.submitters[j])
            && HowMany(s1.queues, LabelledBy(cfg.key(share))) == HowMany(s.queues, LabelledBy(cfg.key(share))) + 1
  {
    CountAppend(s.queues, Queue(cfg.key(share), [], None, 0), LabelledBy(cfg.key(share)));
  }

  /** The bound of n queues per key is reached: n first Submits of one share create n queues. */
  lemma {:induction false} AllCreate(cfg: Config, n: nat, share: Bytes, k: nat) returns (run: seq<Step>, s: State)
    requires k <= n
    ensures s == Run(cfg, n, run) && |s.submitters| == n && HowMany(s.queues, LabelledBy(cfg.key(share))) == k
    ensures forall i :: k <= i < n ==> s.submitters[i] == Missed(Task(share, 0))
  {
    if k == 0 {
      run, s := AllLoad(cfg, n, share, n);
    } else {
      run, s := AllCreate(cfg, n, share, k - 1);
      CreateAdds(cfg, s, k - 1, share);
      run, s := Extend(cfg, n, run, s, Create(k - 1));
    }
  }

  // ---------- conservation ----------

  ghost function CountedFor(q: nat): Submitter -> bool { (w: Submitter) => w.Counted? && w.q == q }

  /** The wait group of a queue counts its unfinished tasks: those waiting, the one running, and those about to be
      sent. */
  ghost predicate WgRight(s: State, q: nat) {
    q < |s.queues| ==>
      s.queues[q].wg == |s.queues[q].chan| + |InHand(s.queues[q])| + HowMany(s.submitters, CountedFor(q))
  }

  /** A queue that does not exist yet has no senders. */
  ghost predicate NoStrays(s: State) {
    forall i :: 0 <= i < |s.submitters| && s.submitters[i].Counted? ==> s.submitters[i].q < |s.queues|
  }

  lemma DoKeepsWg(cfg: Config, s: State, step: Step, q: nat)
    requires WgRight(s, q) && NoStrays(s)
    ensures WgRight(Do(cfg, s, step), q)
  {
    var s1 := Do(cfg, s, step);
    if (step.Load? || step.Create? || step.Count? || step.Enqueue?) && step.i < |s.submitters| {
      CountUpdate(s.submitters, step.i, s1.submitters[step.i], CountedFor(q));
      assert s1.submitters == s.submitters[step.i := s1.submitters[step.i]];
      if q >= |s.queues| { CountAtMost(s.submitters, CountedFor(q)); }
    }
  }

  /** Conservation in every run, with any number of Submits at once: each wait group equals its queue's unfinished
      tasks. */
  lemma {:induction false} WaitGroupsConserved(cfg: Config, n: nat, steps: seq<Step>, q: nat)
    ensures WgRight(Run(cfg, n, steps), q)
  {
    if steps != [] {
      var s := Run(cfg, n, steps[..|steps| - 1]);
      WaitGroupsConserved(cfg, n, steps[..|steps| - 1], q);
      RunKeepsLabels(cfg, n, steps[..|steps| - 1]);
      assert forall i :: 0 <= i < |s.submitters| ==> Aimed(cfg, s.queues, s.submitters[i]);
      DoKeepsWg(cfg, s, steps[|steps| - 1], q);
    }
  }

  // ---------- what a queue holds ----------

  /** The task waits in the queue or runs there. */
  ghost predicate Holds(q: Queue, task: Task) { task in q.chan || q.running == Some(task) }

  /** In every run the tasks of one queue have one key: without a fixed number of queues they are of one share, and with
      one their hashes agree modulo it. */
  lemma QueueIsOfOneKey(queueNum: int, queueSize: nat, n: nat, steps: seq<Step>, q: nat, x: Task, y: Task)
    requires var s := Run(Config(share => KeyOf(queueNum, share), queueSize), n, steps);
             q < |s.queues| && Holds(s.queues[q], x) && Holds(s.queues[q], y)
    ensures if queueNum <= 0 then x.share == y.share
            else Fnv1a(x.share) % queueNum == Fnv1a(y.share) % queueNum
  {
    var cfg := Config(share => KeyOf(queueNum, share), queueSize);
    RunKeepsLabels(cfg, n, steps);
    assert Belongs(cfg, Run(cfg, n, steps).queues[q]);
    if queueNum <= 0 {
      PerShareKeys(queueNum, x.share, y.share);
    } else {
      FixedKeysByHash(queueNum, x.share, y.share);
    }
  }

  /** A queue's channel is within its capacity; one without a buffer takes a task only while the queue is at rest. */
  ghost predicate Within(cfg: Config, q: Queue) {
    if cfg.queueSize == 0 then |q.chan| + |InHand(q)| <= 1 else |q.chan| <= cfg.queueSize
  }

  /** In every run no channel holds more than its capacity, and a Submit that has counted its task can send it exactly
      when there is room. */
  lemma {:induction false} CapacityKept(cfg: Config, n: nat, steps: seq<Step>)
    ensures forall q :: 0 <= q < |Run(cfg, n, steps).queues| ==> Within(cfg, Run(cfg, n, steps).queues[q])
  {
    if steps != [] {
      CapacityKept(cfg, n, steps[..|steps| - 1]);
      DoKeepsCapacity(cfg, Run(cfg, n, steps[..|steps| - 1]), steps[|steps| - 1]);
    }
  }

  lemma DoKeepsCapacity(cfg: Config, s: State, step: Step)
    requires forall q :: 0 <= q < |s.queues| ==> Within(cfg, s.queues[q])
    ensures forall q :: 0 <= q < |Do(cfg, s, step).queues| ==> Within(cfg, Do(cfg, s, step).queues[q])
  {
  }

  lemma SendsIffRoom(cfg: Config, s: State, i: nat)
    requires Labelled(cfg, s) && i < |s.submitters| && s.submitters[i].Counted?
    ensures var q := s.submitters[i].q;
            && q < |s.queues|
            && (DoEnqueue(cfg, s, i).submitters[i].Idle? <==>
                  |s.queues[q].chan| + 1 <= cfg.queueSize
                  || (cfg.queueSize == 0 && s.queues[q].chan == [] && s.queues[q].running.None?))
  {
    assert Aimed(cfg, s.queues, s.submitters[i]);
  }

  // ---------- progress ----------

  ghost function SubmitRank(): Submitter -> nat {
    (w: Submitter) => match w case Idle => 0 case Missed(_) => 5 case Found(_, _) => 4 case Counted(_, _) => 3
  }

  ghost function QueueRank(): Queue -> nat { (q: Queue) => 2 * |q.chan| + |InHand(q)| }

  /** An upper bound on the steps until everything submitted so far has run. */
  ghost function Outstanding(s: State): nat { Sum(s.submitters, SubmitRank()) + Sum(s.queues, QueueRank()) }

  /** No Submit is under way, and no queue holds or runs a task. */
  ghost predicate Finished(s: State) {
    && (forall i :: 0 <= i < |s.submitters| ==> s.submitters[i].Idle?)
    && (forall q :: 0 <= q < |s.queues| ==> s.queues[q].chan == [] && s.queues[q].running.None?)
  }

  lemma CreateDrains(cfg: Config, s: State, i: nat)
    ensures DoCreate(cfg, s, i) == s || Outstanding(DoCreate(cfg, s, i)) < Outstanding(s)
  {
    var s1 := DoCreate(cfg, s, i);
    if s1 != s {
      SumUpdate(s.submitters, i, s1.submitters[i], SubmitRank());
      SumAppend(s.queues, s1.queues[|s.queues|], QueueRank());
    }
  }

  lemma SendDrains(cfg: Config, s: State, step: Step)
    requires step.Count? || step.Enqueue?
    ensures Do(cfg, s, step) == s || Outstanding(Do(cfg, s, step)) < Outstanding(s)
  {
    var s1 := Do(cfg, s, step);
    if s1 != s {
      var q := s.submitters[step.i].q;
      SumUpdate(s.submitters, step.i, s1.submitters[step.i], SubmitRank());
      SumUpdate(s.queues, q, s1.queues[q], QueueRank());
    }
  }

  lemma QueueDrains(cfg: Config, s: State, step: Step)
    requires step.Start? || step.Finish?
    ensures Do(cfg, s, step) == s || Outstanding(Do(cfg, s, step)) < Outstanding(s)
  {
    var s1 := Do(cfg, s, step);
    if s1 != s { SumUpdate(s.queues, step.q, s1.queues[step.q], QueueRank()); }
  }

  /** While a Submit is under way or a queue holds a task, some step other than a new Submit is possible; a Submit that
      finds the channel full is waiting for a queue that can start or finish a task. */
  lemma NeverStuck(cfg: Config, s: State) returns (step: Step)
    requires Labelled(cfg, s) && !Finished(s)
    ensures !step.Load? && Do(cfg, s, step) != s
  {
    if q :| 0 <= q < |s.queues| && s.queues[q].running.Some? {
      step := Finish(q);
      assert DoFinish(s, q).queues[q].running != s.queues[q].running;
    } else if q :| 0 <= q < |s.queues| && s.queues[q].chan != [] {
      step := Start(q);
      assert DoStart(s, q).queues[q].running != s.queues[q].running;
    } else {
      var i :| 0 <= i < |s.submitters| && !s.submitters[i].Idle?;
      assert Aimed(cfg, s.queues, s.submitters[i]);
      step := if s.submitters[i].Missed? then Create(i) else if s.submitters[i].Found? then Count(i) else Enqueue(i);
      assert Do(cfg, s, step).submitters[i] != s.submitters[i];
    }
  }

  /** After the run `steps`, the steps of `more` each do something and none is a new Submit. */
  ghost predicate Effective(cfg: Config, n: nat, steps: seq<Step>, more: seq<Step>) {
    more == [] || (var m := |more| - 1;
                   var s := Run(cfg, n, steps + more[..m]);
                   Effective(cfg, n, steps, more[..m]) && !more[m].Load? && Do(cfg, s, more[m]) != s)
  }

  lemma StepsDrain(cfg: Config, s: State, step: Step)
    requires !step.Load?
    ensures Do(cfg, s, step) == s || Outstanding(Do(cfg, s, step)) < Outstanding(s)
  {
    if step.Start? || step.Finish? {
      QueueDrains(cfg, s, step);
    } else if step.Create? {
      CreateDrains(cfg, s, step.i);
    } else {
      SendDrains(cfg, s, step);
    }
  }

  lemma {:induction false} DrainsAreBounded(cfg: Config, n: nat, steps: seq<Step>, more: seq<Step>)
    requires Effective(cfg, n, steps, more)
    ensures |more| + Outstanding(Run(cfg, n, steps + more)) <= Outstanding(Run(cfg, n, steps))
  {
    if more == [] {
      assert steps + more == steps;
    } else {
      var m := |more| - 1;
      var all, s := steps + more, Run(cfg, n, steps + more[..m]);
      assert all[..|all| - 1] == steps + more[..m] && all[|all| - 1] == more[m];
      assert Run(cfg, n, all) == Do(cfg, s, more[m]);
      DrainsAreBounded(cfg, n, steps, more[..m]);
      StepsDrain(cfg, s, more[m]);
    }
  }

  /** Draining: after every run, with any number of Submits at once, each way of going on without new Submits is bounded
      by the work outstanding, and as long as it has not finished everything it can be continued. */
  lemma EveryDrainFinishes(cfg: Config, n: nat, steps: seq<Step>, more: seq<Step>)
    requires Effective(cfg, n, steps, more)
    ensures var s := Run(cfg, n, steps + more);
            && |more| + Outstanding(s) <= Outstanding(Run(cfg, n, steps))
            && (Finished(s) || exists step: Step :: !step.Load? && Do(cfg, s, step) != s)
  {
    DrainsAreBounded(cfg, n, steps, more);
    RunKeepsLabels(cfg, n, steps + more);
    if !Finished(Run(cfg, n, steps + more)) {
      var step := NeverStuck(cfg, Run(cfg, n, steps + more));
    }
  }

  // ---------- a fixed number of queues ----------

  ghost function LabelledWithin(keys: set<Bytes>): Queue -> bool { (q: Queue) => q.key in keys }

  lemma WithoutKey(queues: seq<Queue>, keys: set<Bytes>, key: Bytes)
    requires key in keys
    ensures HowMany(queues, LabelledWithin(keys))
            == HowMany(queues, LabelledWithin(keys - {key})) + HowMany(queues, LabelledBy(key))
  {
    CountSplits(queues, LabelledWithin(keys), LabelledWithin(keys - {key}), LabelledBy(key));
  }

  lemma OneMoreTime(m: nat, total: nat, one: nat, k: nat)
    requires k >= 1 && total <= m * (k - 1) && one <= m
    ensures total + one <= m * k
  {
    assert m * k == m * (k - 1) + m;
  }

  /** At most m queues for each of the keys are at most m times as many queues in all. */
  lemma {:induction false} SumOverKeys(queues: seq<Queue>, keys: set<Bytes>, m: nat)
    requires forall key :: key in keys ==> HowMany(queues, LabelledBy(key)) <= m
    ensures HowMany(queues, LabelledWithin(keys)) <= m * |keys|
  {
    if keys == {} {
      CountAtMost(queues, LabelledWithin(keys));
    } else {
      var key :| key in keys;
      var others := keys - {key};
      assert |others| == |keys| - 1;
      SumOverKeys(queues, others, m);
      OneMoreTime(m, HowMany(queues, LabelledWithin(others)), HowMany(queues, LabelledBy(key)), |keys|);
      WithoutKey(queues, keys, key);
    }
  }

  lemma {:induction false} RunKeysWithin(cfg: Config, n: nat, steps: seq<Step>, keys: set<Bytes>)
    requires forall share :: cfg.key(share) in keys
    ensures Run(cfg, n, steps).table.Keys <= keys
  {
    if steps != [] {
      RunKeysWithin(cfg, n, steps[..|steps| - 1], keys);
    }
  }

  lemma KeyIsFixed(queueNum: nat, share: Bytes)
    requires queueNum > 0
    ensures KeyOf(queueNum, share) in FixedKeys(queueNum)
  {
    var index := Fnv1a(share) % queueNum;
    assert 0 <= index < queueNum;
  }

  lemma AllWithin(cfg: Config, n: nat, steps: seq<Step>, keys: set<Bytes>)
    requires forall share :: cfg.key(share) in keys
    ensures HowMany(Run(cfg, n, steps).queues, LabelledWithin(keys)) == |Run(cfg, n, steps).queues|
  {
    var s := Run(cfg, n, steps);
    RunKeysWithin(cfg, n, steps, keys);
    RunKeepsLabels(cfg, n, steps);
    assert forall q :: 0 <= q < |s.queues| ==> s.queues[q].key in s.table.Keys;
    CountAtMost(s.queues, LabelledWithin(keys));
  }

  lemma AtMostPerKey(cfg: Config, n: nat, steps: seq<Step>, keys: set<Bytes>, bound: nat, m: nat)
    requires |keys| <= bound && forall share :: cfg.key(share) in keys
    requires forall key :: HowMany(Run(cfg, n, steps).queues, LabelledBy(key)) <= m
    ensures |Run(cfg, n, steps).queues| <= m * bound
  {
    AllWithin(cfg, n, steps, keys);
    SumOverKeys(Run(cfg, n, steps).queues, keys, m);
    TimesGrows(m, |keys|, bound);
  }

  /** In fixed mode, with any number n of Submits at once, no more than n * queueNum queues ever exist, and no more than
      queueNum if no key's first Submits overlapped. */
  lemma AtMostQueueNum(queueNum: nat, queueSize: nat, n: nat, steps: seq<Step>)
    requires queueNum > 0
    ensures var cfg := Config(share => KeyOf(queueNum, share), queueSize);
            && |Run(cfg, n, steps).queues| <= n * queueNum
            && ((forall key :: CleanFor(cfg, n, steps, key)) ==> |Run(cfg, n, steps).queues| <= queueNum)
  {
    var cfg := Config(share => KeyOf(queueNum, share), queueSize);
    forall key
      ensures HowMany(Run(cfg, n, steps).queues, LabelledBy(key)) <= n
      ensures CleanFor(cfg, n, steps, key) ==> HowMany(Run(cfg, n, steps).queues, LabelledBy(key)) <= 1
    {
      QueuesPerKey(cfg, n, steps, key);
    }
    var keys := FixedKeys(queueNum);
    forall share ensures cfg.key(share) in keys { KeyIsFixed(queueNum, share); }
    AtMostPerKey(cfg, n, steps, keys, queueNum, n);
    if forall key :: CleanFor(cfg, n, steps, key) {
      AtMostPerKey(cfg, n, steps, keys, queueNum, 1);
    }
  }
}
