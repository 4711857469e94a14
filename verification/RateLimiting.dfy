/** The sliding-window limiter of pipeline/plugin/rate_limiter.go and the before-pipeline of pipeline/pipeline.go.
    Times are nanoseconds; the clock is a parameter. */
module RateLimiting {
  import opened Base

  /** The list is empty and yet full when the limit is not positive: Front() is nil and the call panics. */
  datatype Verdict = Accepted | Limited | Crash

  /** shouldRateLimit: the verdict and the list it leaves. */
  function Admit(limit: int, interval: int, times: seq<int>, now: int): (Verdict, seq<int>) {
    if |times| < limit then (Accepted, times + [now])
    else if times == [] then (Crash, times)
    else if now - times[0] < interval then (Limited, times)
    else (Accepted, times[1..] + [now])
  }

  // ---------- the naive specification: a log of every accepted time ----------

  /** How many of the logged times lie within `interval` of `now`. */
  ghost function CountRecent(log: seq<int>, now: int, interval: int): nat {
    if log == [] then 0
    else CountRecent(log[..|log| - 1], now, interval) + if now - log[|log| - 1] < interval then 1 else 0
  }

  /** How many of the logged times lie in the window [from, from + interval). */
  ghost function CountWindow(log: seq<int>, from: int, interval: int): nat {
    if log == [] then 0
    else CountWindow(log[..|log| - 1], from, interval) + if from <= log[|log| - 1] < from + interval then 1 else 0
  }

  /** Clock readings that start no earlier than `start` and never go back. */
  ghost predicate Ascends(start: int, clock: seq<int>)
    decreases |clock|
  {
    clock == [] || (start <= clock[0] && Ascends(clock[0], clock[1..]))
  }

  ghost function LastOr(start: int, clock: seq<int>): int { if clock == [] then start else clock[|clock| - 1] }

  lemma {:induction false} AscendsSplits(start: int, a: seq<int>, b: seq<int>)
    requires Ascends(start, a + b)
    ensures Ascends(start, a) && Ascends(LastOr(start, a), b) && start <= LastOr(start, a)
    decreases |a|
  {
    if a == [] {
      assert a + b == b;
    } else {
      assert (a + b)[1..] == a[1..] + b;
      AscendsSplits(a[0], a[1..], b);
    }
  }

  ghost function LastN(s: seq<int>, n: nat): seq<int> { if |s| <= n then s else s[|s| - n..] }

  /** The log never goes back, and times `limit` places apart are `interval` apart. */
  ghost predicate Spaced(limit: nat, interval: int, log: seq<int>) {
    var n := |log| - 1;
    n < 0 || (&& Spaced(limit, interval, log[..n])
              && (n >= 1 ==> log[n - 1] <= log[n])
              && (n >= limit ==> log[n] - log[n - limit] >= interval))
  }

  /** The list holds exactly the last `limit` accepted times. */
  ghost predicate Tracks(limit: nat, interval: int, times: seq<int>, log: seq<int>) {
    times == LastN(log, limit) && Spaced(limit, interval, log)
  }

  ghost predicate UpTo(log: seq<int>, now: int) { log == [] || log[|log| - 1] <= now }

  lemma {:induction false} NoneRecent(limit: nat, interval: int, log: seq<int>, now: int)
    requires Spaced(limit, interval, log) && UpTo(log, now - interval)
    ensures CountRecent(log, now, interval) == 0
  {
    if log != [] { NoneRecent(limit, interval, log[..|log| - 1], now); }
  }

  /** The recent times are a suffix of the log, so one element decides whether there are `k` of them. */
  lemma {:induction false} RecentIsSuffix(limit: nat, interval: int, log: seq<int>, now: int, k: nat)
    requires Spaced(limit, interval, log) && k >= 1
    ensures CountRecent(log, now, interval) >= k <==> |log| >= k && now - log[|log| - k] < interval
    decreases |log|
  {
    if log != [] {
      var rest, last := log[..|log| - 1], log[|log| - 1];
      if now - last >= interval {
        NoneRecent(limit, interval, log, now);
        if |log| >= k { Ordered(limit, interval, log, |log| - k); }
      } else if k > 1 {
        RecentIsSuffix(limit, interval, rest, now, k - 1);
      }
    }
  }

  lemma {:induction false} Ordered(limit: nat, interval: int, log: seq<int>, i: nat)
    requires Spaced(limit, interval, log) && i < |log|
    ensures log[i] <= log[|log| - 1]
  {
    if i < |log| - 1 { Ordered(limit, interval, log[..|log| - 1], i); }
  }

  lemma AppendSpaced(limit: nat, interval: int, log: seq<int>, now: int)
    requires limit >= 1 && Spaced(limit, interval, log) && UpTo(log, now)
    requires |log| >= limit ==> now - log[|log| - limit] >= interval
    ensures Spaced(limit, interval, log + [now])
  {
    assert (log + [now])[..|log|] == log;
  }

  lemma AppendLastN(log: seq<int>, now: int, n: nat)
    requires n >= 1
    ensures LastN(log + [now], n) == if |log| < n then log + [now] else LastN(log, n)[1..] + [now]
  {
  }

  /** One call refines the naive log: it is limited iff `limit` accepted times are recent, it never panics, and the
      list goes on tracking the log. */
  lemma AdmitRefinesLog(limit: nat, interval: int, times: seq<int>, log: seq<int>, now: int)
    requires limit >= 1 && Tracks(limit, interval, times, log) && UpTo(log, now)
    ensures var (v, after) := Admit(limit, interval, times, now);
            && v == (if CountRecent(log, now, interval) >= limit then Limited else Accepted)
            && Tracks(limit, interval, after, if v == Accepted then log + [now] else log)
  {
    RecentIsSuffix(limit, interval, log, now, limit);
    AppendLastN(log, now, limit);
    if |log| >= limit { assert times[0] == log[|log| - limit]; }
    if Admit(limit, interval, times, now).0 == Accepted { AppendSpaced(limit, interval, log, now); }
  }

  /** The limiter and its accepted log after serving a sequence of clock readings. */
  datatype Served = Served(times: seq<int>, log: seq<int>, verdicts: seq<Verdict>)

  ghost function Serve(limit: int, interval: int, clock: seq<int>): Served {
    if clock == [] then Served([], [], [])
    else
      var s, now := Serve(limit, interval, clock[..|clock| - 1]), clock[|clock| - 1];
      var (v, times) := Admit(limit, interval, s.times, now);
      Served(times, if v == Accepted then s.log + [now] else s.log, s.verdicts + [v])
  }

  /** Over a whole run on a clock that never goes back, the list is the last min(n, limit) accepted times. */
  lemma {:induction false} RunTracksLog(limit: nat, interval: int, start: int, clock: seq<int>)
    requires limit >= 1 && Ascends(start, clock)
    ensures var s := Serve(limit, interval, clock);
            Tracks(limit, interval, s.times, s.log) && UpTo(s.log, LastOr(start, clock)) && |s.verdicts| == |clock|
  {
    if clock != [] {
      var rest, now := clock[..|clock| - 1], clock[|clock| - 1];
      assert clock == rest + [now];
      AscendsSplits(start, rest, [now]);
      RunTracksLog(limit, interval, start, rest);
      var s := Serve(limit, interval, rest);
      AdmitRefinesLog(limit, interval, s.times, s.log, now);
    }
  }

  /** And every verdict of the run is the naive one: limited iff at least `limit` of the times accepted before it lie
      within `interval`. */
  lemma {:induction false} RunRefinesLog(limit: nat, interval: int, start: int, clock: seq<int>, i: nat)
    requires limit >= 1 && Ascends(start, clock) && i < |clock|
    ensures |Serve(limit, interval, clock).verdicts| == |clock|
    ensures Serve(limit, interval, clock).verdicts[i]
            == if CountRecent(Serve(limit, interval, clock[..i]).log, clock[i], interval) >= limit
               then Limited else Accepted
    decreases |clock|
  {
    var rest, now := clock[..|clock| - 1], clock[|clock| - 1];
    assert clock == rest + [now];
    AscendsSplits(start, rest, [now]);
    RunTracksLog(limit, interval, start, rest);
    var s := Serve(limit, interval, rest);
    if i < |rest| {
      assert clock[..i] == rest[..i];
      RunRefinesLog(limit, interval, start, rest, i);
    } else {
      AdmitRefinesLog(limit, interval, s.times, s.log, now);
    }
  }

  lemma {:induction false} NeverCrashes(limit: int, interval: int, clock: seq<int>)
    requires limit >= 1
    ensures Crash !in Serve(limit, interval, clock).verdicts
  {
    if clock != [] { NeverCrashes(limit, interval, clock[..|clock| - 1]); }
  }

  /** On any clock readings a run never panics exactly when the limit is positive or nothing is ever served. */
  lemma {:induction false} NoCrashIff(limit: int, interval: int, clock: seq<int>)
    ensures Crash !in Serve(limit, interval, clock).verdicts <==> limit >= 1 || clock == []
  {
    if limit >= 1 {
      NeverCrashes(limit, interval, clock);
    } else if clock != [] {
      CrashesAtOnce(limit, interval, clock);
    }
  }

  lemma {:induction false} CrashesAtOnce(limit: int, interval: int, clock: seq<int>)
    requires limit < 1 && clock != []
    ensures Serve(limit, interval, clock).times == [] && Crash in Serve(limit, interval, clock).verdicts
  {
    if |clock| > 1 {
      CrashesAtOnce(limit, interval, clock[..|clock| - 1]);
    } else {
      assert clock[..0] == [];
    }
  }

  lemma {:induction false} BurstIsAccepted(limit: nat, interval: int, t: int, n: nat)
    requires n <= limit
    ensures Serve(limit, interval, seq(n, _ => t)) == Served(seq(n, _ => t), seq(n, _ => t), seq(n, _ => Accepted))
  {
    if n > 0 {
      BurstIsAccepted(limit, interval, t, n - 1);
      assert seq(n, _ => t)[..n - 1] == seq(n - 1, _ => t);
      assert seq(n, _ => t) == seq(n - 1, _ => t) + [t];
      assert seq(n, _ => Accepted) == seq(n - 1, _ => Accepted) + [Accepted];
    }
  }

  /** The exact edge of the window: after a burst of `limit` calls at time t the next is limited before t + interval,
      and accepted from then on. */
  lemma BurstThenWait(limit: nat, interval: int, t: int, now: int)
    requires limit >= 1
    ensures var verdicts := Serve(limit, interval, seq(limit, _ => t) + [now]).verdicts;
            && |verdicts| == limit + 1 && (forall i :: 0 <= i < limit ==> verdicts[i] == Accepted)
            && verdicts[limit] == if now < t + interval then Limited else Accepted
  {
    var clock := seq(limit, _ => t) + [now];
    assert clock[..limit] == seq(limit, _ => t);
    BurstIsAccepted(limit, interval, t, limit);
  }

  // ---------- no window lets more than `limit` through ----------

  lemma {:induction false} CountSplits(a: seq<int>, b: seq<int>, from: int, interval: int)
    ensures CountWindow(a + b, from, interval) == CountWindow(a, from, interval) + CountWindow(b, from, interval)
    decreases |b|
  {
    if b == [] {
      assert a + b == a;
    } else {
      assert (a + b)[..|a + b| - 1] == a + b[..|b| - 1];
      CountSplits(a, b[..|b| - 1], from, interval);
    }
  }

  lemma CountAppend(log: seq<int>, t: int, from: int, interval: int)
    ensures CountWindow(log + [t], from, interval)
            == CountWindow(log, from, interval) + if InWindow(t, from, interval) then 1 else 0
  {
    assert (log + [t])[..|log|] == log;
  }

  lemma {:induction false} CountAtMostLength(log: seq<int>, from: int, interval: int)
    ensures CountWindow(log, from, interval) <= |log|
  {
    if log != [] { CountAtMostLength(log[..|log| - 1], from, interval); }
  }

  lemma {:induction false} NoneInWindow(limit: nat, interval: int, log: seq<int>, cut: nat, from: int)
    requires Spaced(limit, interval, log) && cut <= |log| && UpTo(log[..cut], from - 1)
    ensures CountWindow(log[..cut], from, interval) == 0
    decreases |log|
  {
    if cut < |log| {
      assert log[..|log| - 1][..cut] == log[..cut];
      NoneInWindow(limit, interval, log[..|log| - 1], cut, from);
    } else if cut > 0 {
      assert log[..cut] == log && log[..cut][..cut - 1] == log[..|log| - 1][..cut - 1];
      NoneInWindow(limit, interval, log[..|log| - 1], cut - 1, from);
    }
  }

  lemma {:induction false} WindowBound(limit: nat, interval: int, log: seq<int>, from: int)
    requires Spaced(limit, interval, log)
    ensures CountWindow(log, from, interval) <= limit
    decreases |log|
  {
    if |log| <= limit {
      CountAtMostLength(log, from, interval);
    } else if from <= log[|log| - 1] < from + interval {
      var cut := |log| - limit;
      CountSplits(log[..cut], log[cut..], from, interval);
      assert log == log[..cut] + log[cut..];
      NoneInWindow(limit, interval, log, cut, from);
      CountAtMostLength(log[cut..], from, interval);
    } else {
      WindowBound(limit, interval, log[..|log| - 1], from);
    }
  }

  // ---------- the before-pipeline ----------

  datatype HookError = RateLimitExceeded | Panicked | HookFailed(code: int)

  datatype Reply<C, D> = Reply(ctx: C, data: D, error: Option<HookError>)

  /** A registered handler: the limiter's HandleBefore, or any other one. The call number stands for whatever
      state another handler may keep. */
  datatype Hook<!C, !D> = RateLimit | Other(run: (nat, C, D) -> Reply<C, D>)

  datatype Config = Config(limit: int, interval: int, forceDisable: bool)

  /** The limiter's list together with the log of everything it accepted. */
  datatype State = State(times: seq<int>, log: seq<int>)

  ghost function AdmitLogged(cfg: Config, s: State, now: int): (Verdict, State) {
    var (v, times) := Admit(cfg.limit, cfg.interval, s.times, now);
    (v, State(times, if v == Accepted then s.log + [now] else s.log))
  }

  /** ExecuteBeforePipeline: handlers run in order, the first error ends the call. clock[k] is what the k-th one
      reads. */
  ghost function Execute<C, D>(
    cfg: Config, hooks: seq<Hook<C, D>>, clock: seq<int>, call: nat, s: State, ctx: C, data: D): (State, Reply<C, D>)
    requires |clock| == |hooks|
    decreases |hooks|
  {
    if hooks == [] then (s, Reply(ctx, data, None))
    else match hooks[0]
      case Other(run) =>
        var r := run(call, ctx, data);
        if r.error.Some? then (s, r) else Execute(cfg, hooks[1..], clock[1..], call, s, r.ctx, r.data)
      case RateLimit =>
        var (v, s1) := AdmitLogged(cfg, s, clock[0]);
        if v == Crash then (s1, Reply(ctx, data, Some(Panicked)))
        else if v == Limited && cfg.forceDisable then (s1, Reply(ctx, data, Some(RateLimitExceeded)))
        else Execute(cfg, hooks[1..], clock[1..], call, s1, ctx, data)
  }

  /** Handlers pushed behind others get what those leave, and are not reached after an error; handlers pushed in front
      of others go before them in the same way. */
  lemma {:induction false} ExecuteConcat<C, D>(
    cfg: Config, a: seq<Hook<C, D>>, b: seq<Hook<C, D>>, clockA: seq<int>, clockB: seq<int>, call: nat, s: State,
    ctx: C, data: D)
    requires |clockA| == |a| && |clockB| == |b|
    ensures var (s1, r) := Execute(cfg, a, clockA, call, s, ctx, data);
            Execute(cfg, a + b, clockA + clockB, call, s, ctx, data)
            == if r.error.Some? then (s1, r) else Execute(cfg, b, clockB, call, s1, r.ctx, r.data)
    decreases |a|
  {
    if a == [] {
      assert a + b == b && clockA + clockB == clockB;
    } else {
      assert (a + b)[1..] == a[1..] + b && (clockA + clockB)[1..] == clockA[1..] + clockB;
      match a[0] {
        case Other(run) =>
          var r := run(call, ctx, data);
          ExecuteConcat(cfg, a[1..], b, clockA[1..], clockB, call, s, r.ctx, r.data);
        case RateLimit =>
          var s1 := AdmitLogged(cfg, s, clockA[0]).1;
          ExecuteConcat(cfg, a[1..], b, clockA[1..], clockB, call, s1, ctx, data);
      }
    }
  }

  /** What the pipeline hands to a handler, and the limiter at that moment. */
  datatype Moment<C, D> = Moment(s: State, ctx: C, data: D)

  /** The limiter finds the reading recent too often, and enforces. */
  ghost predicate Refuses(cfg: Config, s: State, now: int) {
    cfg.forceDisable && AdmitLogged(cfg, s, now).0 == Limited
  }

  /** Handler `h`, given `m`, passes `m1` on without an error. */
  ghost predicate PassesOn<C, D>(cfg: Config, h: Hook<C, D>, now: int, call: nat, m: Moment<C, D>, m1: Moment<C, D>) {
    match h
    case Other(run) => run(call, m.ctx, m.data) == Reply(m1.ctx, m1.data, None) && m1.s == m.s
    case RateLimit =>
      && AdmitLogged(cfg, m.s, now).0 != Crash && !Refuses(cfg, m.s, now)
      && m1 == Moment(AdmitLogged(cfg, m.s, now).1, m.ctx, m.data)
  }

  /** Handler `h`, given `m`, answers with an error. */
  ghost predicate Stops<C, D>(cfg: Config, h: Hook<C, D>, now: int, call: nat, m: Moment<C, D>,
                              s1: State, reply: Reply<C, D>) {
    match h
    case Other(run) => reply == run(call, m.ctx, m.data) && reply.error.Some? && s1 == m.s
    case RateLimit =>
      && s1 == AdmitLogged(cfg, m.s, now).1
      && ((AdmitLogged(cfg, m.s, now).0 == Crash && reply == Reply(m.ctx, m.data, Some(Panicked)))
          || (Refuses(cfg, m.s, now) && reply == Reply(m.ctx, m.data, Some(RateLimitExceeded))))
  }

  /** The moments of a call: every handler but the last to run passes on what the next one gets; the last one stops the
      call, or there is none left and the caller gets what was passed on last. */
  ghost predicate Trail<C, D>(cfg: Config, hooks: seq<Hook<C, D>>, clock: seq<int>, call: nat,
                              trail: seq<Moment<C, D>>, s1: State, reply: Reply<C, D>)
    requires |clock| == |hooks|
  {
    && 1 <= |trail| <= |hooks| + 1
    && (forall k :: 0 <= k < |trail| - 1 ==> PassesOn(cfg, hooks[k], clock[k], call, trail[k], trail[k + 1]))
    && var j := |trail| - 1;
       if j < |hooks| then Stops(cfg, hooks[j], clock[j], call, trail[j], s1, reply)
       else (s1, reply) == (trail[j].s, Reply(trail[j].ctx, trail[j].data, None))
  }

  lemma {:induction false} TrailOf<C, D>(
    cfg: Config, hooks: seq<Hook<C, D>>, clock: seq<int>, call: nat, s: State, ctx: C, data: D)
    returns (trail: seq<Moment<C, D>>)
    requires |clock| == |hooks|
    ensures |trail| >= 1 && trail[0] == Moment(s, ctx, data)
    ensures var (s1, reply) := Execute(cfg, hooks, clock, call, s, ctx, data);
            Trail(cfg, hooks, clock, call, trail, s1, reply)
    decreases |hooks|
  {
    var m := Moment(s, ctx, data);
    trail := [m];
    if hooks != [] {
      var m1 := m;
      match hooks[0] {
        case Other(run) =>
          var r := run(call, ctx, data);
          m1 := Moment(s, r.ctx, r.data);
        case RateLimit => m1 := Moment(AdmitLogged(cfg, s, clock[0]).1, ctx, data);
      }
      if PassesOn(cfg, hooks[0], clock[0], call, m, m1) {
        var rest := TrailOf(cfg, hooks[1..], clock[1..], call, m1.s, m1.ctx, m1.data);
        trail := [m] + rest;
        assert forall k :: 0 < k < |trail| ==> trail[k] == rest[k - 1];
      }
    }
  }

  lemma {:induction false} TrailDecides<C, D>(
    cfg: Config, hooks: seq<Hook<C, D>>, clock: seq<int>, call: nat, trail: seq<Moment<C, D>>,
    s1: State, reply: Reply<C, D>)
    requires |clock| == |hooks| && Trail(cfg, hooks, clock, call, trail, s1, reply)
    ensures Execute(cfg, hooks, clock, call, trail[0].s, trail[0].ctx, trail[0].data) == (s1, reply)
    decreases |hooks|
  {
    if |trail| > 1 {
      assert PassesOn(cfg, hooks[0], clock[0], call, trail[0], trail[1]);
      var rest := trail[1..];
      assert forall k :: 0 <= k < |rest| ==> rest[k] == trail[k + 1];
      TrailDecides(cfg, hooks[1..], clock[1..], call, rest, s1, reply);
    }
  }

  /** What a call returns, and what it does to the limiter, is exactly what its trail says: each handler gets what the
      one before it passed on, the caller gets what the last one passed on, or the answer of the first that failed. */
  lemma ExecuteIff<C(!new), D(!new)>(
    cfg: Config, hooks: seq<Hook<C, D>>, clock: seq<int>, call: nat, s: State, ctx: C, data: D,
    s1: State, reply: Reply<C, D>)
    requires |clock| == |hooks|
    ensures Execute(cfg, hooks, clock, call, s, ctx, data) == (s1, reply)
            <==> exists trail ::
                   Trail(cfg, hooks, clock, call, trail, s1, reply) && trail[0] == Moment(s, ctx, data)
  {
    if Execute(cfg, hooks, clock, call, s, ctx, data) == (s1, reply) {
      var trail := TrailOf(cfg, hooks, clock, call, s, ctx, data);
    }
    if trail :| Trail(cfg, hooks, clock, call, trail, s1, reply) && trail[0] == Moment(s, ctx, data) {
      TrailDecides(cfg, hooks, clock, call, trail, s1, reply);
    }
  }

  /** The limiter is hooked in somewhere. */
  ghost predicate HasLimit<C, D>(hooks: seq<Hook<C, D>>) {
    hooks != [] && (hooks[0].RateLimit? || HasLimit(hooks[1..]))
  }

  /** The position of the first limiter hook. */
  ghost function FirstLimit<C, D>(hooks: seq<Hook<C, D>>): (k: nat)
    requires HasLimit(hooks)
    ensures k < |hooks|
  {
    if hooks[0].RateLimit? then 0 else 1 + FirstLimit(hooks[1..])
  }

  ghost predicate InWindow(t: int, from: int, interval: int) { from <= t < from + interval }

  /** The limiter's list tracks its log, and the log ends no later than `now`. */
  ghost predicate Sound(cfg: Config, s: State, now: int) {
    cfg.limit >= 1 && Tracks(cfg.limit, cfg.interval, s.times, s.log) && UpTo(s.log, now)
  }

  lemma AdmitKeepsSound(cfg: Config, s: State, start: int, now: int)
    requires Sound(cfg, s, start) && start <= now
    ensures Sound(cfg, s, now)
    ensures var (v, s1) := AdmitLogged(cfg, s, now); v != Crash && Sound(cfg, s1, now)
  {
    AdmitRefinesLog(cfg.limit, cfg.interval, s.times, s.log, now);
  }

  ghost function AdmitAll(cfg: Config, s: State, readings: seq<int>): State
    decreases |readings|
  {
    if readings == [] then s else AdmitAll(cfg, AdmitLogged(cfg, s, readings[0]).1, readings[1..])
  }

  lemma {:induction false} AdmitAllSound(cfg: Config, s: State, start: int, readings: seq<int>)
    requires Sound(cfg, s, start) && Ascends(start, readings)
    ensures Sound(cfg, AdmitAll(cfg, s, readings), LastOr(start, readings))
    decreases |readings|
  {
    if readings != [] {
      var s1, later := AdmitLogged(cfg, s, readings[0]).1, readings[1..];
      AdmitKeepsSound(cfg, s, start, readings[0]);
      AdmitAllSound(cfg, s1, readings[0], later);
      assert AdmitAll(cfg, s, readings) == AdmitAll(cfg, s1, later);
      assert LastOr(start, readings) == LastOr(readings[0], later);
    }
  }

  lemma AscendsCons(start: int, now: int, later: seq<int>)
    requires start <= now && Ascends(now, later)
    ensures Ascends(start, [now] + later) && Ascends(start, later) && LastOr(start, [now] + later) == LastOr(now, later)
  {
    assert ([now] + later)[1..] == later;
  }

  /** All one call does to the limiter is to admit, in order, some of the readings its hooks take. */
  lemma {:induction false} ExecuteAdmits<C, D>(
    cfg: Config, hooks: seq<Hook<C, D>>, start: int, clock: seq<int>, call: nat, s: State, ctx: C, data: D)
    returns (seen: seq<int>)
    requires |clock| == |hooks| && Ascends(start, clock)
    ensures Execute(cfg, hooks, clock, call, s, ctx, data).0 == AdmitAll(cfg, s, seen)
    ensures Ascends(start, seen) && LastOr(start, seen) <= LastOr(start, clock)
    decreases |hooks|
  {
    seen := [];
    if hooks != [] {
      var now, later := clock[0], clock[1..];
      assert later + [] == later;
      AscendsSplits(now, later, []);
      assert LastOr(now, later) == LastOr(start, clock);
      match hooks[0] {
        case Other(run) =>
          var r := run(call, ctx, data);
          if r.error.None? {
            seen := ExecuteAdmits(cfg, hooks[1..], now, later, call, s, r.ctx, r.data);
            AscendsCons(start, now, seen);
          }
        case RateLimit =>
          var (v, s1) := AdmitLogged(cfg, s, now);
          var rest := [];
          if v == Accepted || (v == Limited && !cfg.forceDisable) {
            rest := ExecuteAdmits(cfg, hooks[1..], now, later, call, s1, ctx, data);
          }
          seen := [now] + rest;
          AscendsCons(start, now, rest);
          assert seen[1..] == rest;
      }
    }
  }

  /** If a call gets through although the limiter enforces, the log gained the reading its first limiter hook took. */
  lemma {:induction false} ExecuteCounts<C, D>(
    cfg: Config, hooks: seq<Hook<C, D>>, clock: seq<int>, call: nat, s: State, ctx: C, data: D, from: int)
    requires |clock| == |hooks|
    ensures var (s1, reply) := Execute(cfg, hooks, clock, call, s, ctx, data);
            var gained := CountWindow(s1.log, from, cfg.interval) - CountWindow(s.log, from, cfg.interval);
            && gained >= 0
            && (cfg.forceDisable && reply.error.None? && HasLimit(hooks) ==>
                  InWindow(clock[FirstLimit(hooks)], from, cfg.interval) ==> gained >= 1)
    decreases |hooks|
  {
    if hooks != [] {
      match hooks[0] {
        case Other(run) =>
          var r := run(call, ctx, data);
          if r.error.None? {
            ExecuteCounts(cfg, hooks[1..], clock[1..], call, s, r.ctx, r.data, from);
          }
        case RateLimit =>
          var (v, s1) := AdmitLogged(cfg, s, clock[0]);
          CountAppend(s.log, clock[0], from, cfg.interval);
          if v == Accepted || (v == Limited && !cfg.forceDisable) {
            ExecuteCounts(cfg, hooks[1..], clock[1..], call, s1, ctx, data, from);
          }
      }
    }
  }

  datatype Call<C, D> = Call(clock: seq<int>, ctx: C, data: D)

  /** The readings of all calls, in the order they are taken. */
  ghost function Readings<C, D>(calls: seq<Call<C, D>>): seq<int> {
    if calls == [] then [] else Readings(calls[..|calls| - 1]) + calls[|calls| - 1].clock
  }

  /** The limiter after serving `calls` one after the other, and the limiter's reading of every call that got
      through. */
  ghost function ServeCalls<C, D>(cfg: Config, hooks: seq<Hook<C, D>>, calls: seq<Call<C, D>>): (State, seq<int>)
    requires HasLimit(hooks)
    requires forall i :: 0 <= i < |calls| ==> |calls[i].clock| == |hooks|
  {
    if calls == [] then (State([], []), [])
    else
      var n := |calls| - 1;
      var (s, passed) := ServeCalls(cfg, hooks, calls[..n]);
      var (s1, reply) := Execute(cfg, hooks, calls[n].clock, n, s, calls[n].ctx, calls[n].data);
      (s1, if reply.error.None? then passed + [calls[n].clock[FirstLimit(hooks)]] else passed)
  }

  lemma CallSound<C, D>(cfg: Config, hooks: seq<Hook<C, D>>, start: int, c: Call<C, D>, n: nat, s: State)
    requires |c.clock| == |hooks| && Ascends(start, c.clock) && Sound(cfg, s, start)
    ensures Sound(cfg, Execute(cfg, hooks, c.clock, n, s, c.ctx, c.data).0, LastOr(start, c.clock))
  {
    var seen := ExecuteAdmits(cfg, hooks, start, c.clock, n, s, c.ctx, c.data);
    AdmitAllSound(cfg, s, start, seen);
  }

  lemma {:induction false} CallsSound<C, D>(cfg: Config, hooks: seq<Hook<C, D>>, calls: seq<Call<C, D>>, start: int)
    requires cfg.limit >= 1 && HasLimit(hooks)
    requires forall i :: 0 <= i < |calls| ==> |calls[i].clock| == |hooks|
    requires Ascends(start, Readings(calls))
    ensures Sound(cfg, ServeCalls(cfg, hooks, calls).0, LastOr(start, Readings(calls)))
  {
    if calls != [] {
      var n := |calls| - 1;
      var before, c := Readings(calls[..n]), calls[n];
      AscendsSplits(start, before, c.clock);
      CallsSound(cfg, hooks, calls[..n], start);
      var s, last := ServeCalls(cfg, hooks, calls[..n]).0, LastOr(start, before);
      CallSound(cfg, hooks, last, c, n, s);
      assert LastOr(last, c.clock) == LastOr(start, before + c.clock);
    }
  }

  lemma {:induction false} CallsCount<C, D>(cfg: Config, hooks: seq<Hook<C, D>>, calls: seq<Call<C, D>>, from: int)
    requires cfg.forceDisable && HasLimit(hooks)
    requires forall i :: 0 <= i < |calls| ==> |calls[i].clock| == |hooks|
    ensures var (s, passed) := ServeCalls(cfg, hooks, calls);
            CountWindow(passed, from, cfg.interval) <= CountWindow(s.log, from, cfg.interval)
  {
    if calls != [] {
      var n := |calls| - 1;
      CallsCount(cfg, hooks, calls[..n], from);
      var (s, passed) := ServeCalls(cfg, hooks, calls[..n]);
      ExecuteCounts(cfg, hooks, calls[n].clock, n, s, calls[n].ctx, calls[n].data, from);
      CountAppend(passed, calls[n].clock[FirstLimit(hooks)], from, cfg.interval);
    }
  }

  /** With forceDisable set and the limiter hooked in anywhere, no window of length `interval` lets more than `limit`
      calls through, whatever the other hooks do. */
  lemma PipelineBound<C, D>(cfg: Config, hooks: seq<Hook<C, D>>, calls: seq<Call<C, D>>, start: int, from: int)
    requires cfg.limit >= 1 && cfg.forceDisable && HasLimit(hooks)
    requires forall i :: 0 <= i < |calls| ==> |calls[i].clock| == |hooks|
    requires Ascends(start, Readings(calls))
    ensures CountWindow(ServeCalls(cfg, hooks, calls).1, from, cfg.interval) <= cfg.limit
  {
    CallsSound(cfg, hooks, calls, start);
    CallsCount(cfg, hooks, calls, from);
    var s := ServeCalls(cfg, hooks, calls).0;
    WindowBound(cfg.limit, cfg.interval, s.log, from);
  }

  ghost function Others<C, D>(hooks: seq<Hook<C, D>>): seq<Hook<C, D>> {
    if hooks == [] then [] else (if hooks[0].RateLimit? then [] else [hooks[0]]) + Others(hooks[1..])
  }

  /** Without forceDisable the limiter only observes: a call is answered as if its hooks were not there. */
  lemma {:induction false} WithoutForceOnlyObserves<C, D>(
    cfg: Config, hooks: seq<Hook<C, D>>, clock: seq<int>, clock2: seq<int>, call: nat, s: State, s2: State,
    ctx: C, data: D)
    requires !cfg.forceDisable && cfg.limit >= 1 && |clock| == |hooks| && |clock2| == |Others(hooks)|
    ensures Execute(cfg, hooks, clock, call, s, ctx, data).1
            == Execute(cfg, Others(hooks), clock2, call, s2, ctx, data).1
    decreases |hooks|
  {
    if hooks != [] {
      match hooks[0] {
        case Other(run) =>
          assert Others(hooks)[0] == hooks[0] && Others(hooks)[1..] == Others(hooks[1..]);
          var r := run(call, ctx, data);
          if r.error.None? {
            WithoutForceOnlyObserves(cfg, hooks[1..], clock[1..], clock2[1..], call, s, s2, r.ctx, r.data);
          }
        case RateLimit =>
          assert Others(hooks) == Others(hooks[1..]);
          var s1 := AdmitLogged(cfg, s, clock[0]).1;
          WithoutForceOnlyObserves(cfg, hooks[1..], clock[1..], clock2, call, s1, s2, ctx, data);
      }
    }
  }

  // ---------- the objects ----------

  class RateLimiter {
    const limit: int
    const interval: int
    const forceDisable: bool
    var times: seq<int>
    /** Every time accepted so far; what the list is compared with. */
    ghost var log: seq<int>

    ghost function Cfg(): Config { Config(limit, interval, forceDisable) }

    ghost function View(): State
      reads this
    {
      State(times, log)
    }

    constructor (limit: int, interval: int, forceDisable: bool)
      ensures this.limit == limit && this.interval == interval && this.forceDisable == forceDisable
      ensures View() == State([], [])
    {
      this.limit, this.interval, this.forceDisable := limit, interval, forceDisable;
      times, log := [], [];
    }

    method ShouldRateLimit(now: int) returns (verdict: Verdict)
      modifies this
      ensures (verdict, View()) == AdmitLogged(Cfg(), old(View()), now)
      ensures limit >= 1 && Tracks(limit, interval, old(times), old(log)) && UpTo(old(log), now) ==>
                && Tracks(limit, interval, times, log)
                && verdict == (if CountRecent(old(log), now, interval) >= limit then Limited else Accepted)
    {
      if limit >= 1 && Tracks(limit, interval, times, log) && UpTo(log, now) {
        AdmitRefinesLog(limit, interval, times, log, now);
      }
      if |times| < limit {
        times, log := times + [now], log + [now];
        return Accepted;
      }
      if times == [] {
        return Crash;
      }
      var front := times[0];
      if now - front < interval {
        return Limited;
      }
      // The front element is overwritten and moved to the back.
      times := times[0 := now];
      times := times[1..] + [times[0]];
      log := log + [now];
      return Accepted;
    }

    /** A limited call is refused only with forceDisable set; context and input pass through untouched. */
    method HandleBefore<C, D>(now: int, ctx: C, data: D) returns (reply: Reply<C, D>, ghost verdict: Verdict)
      modifies this
      ensures (verdict, View()) == AdmitLogged(Cfg(), old(View()), now)
      ensures reply == Reply(ctx, data, if verdict == Crash then Some(Panicked)
                                        else if verdict == Limited && forceDisable then Some(RateLimitExceeded)
                                        else None)
    {
      var v := ShouldRateLimit(now);
      verdict := v;
      if v == Crash {
        return Reply(ctx, data, Some(Panicked)), v;
      }
      if v == Limited && forceDisable {
        return Reply(ctx, data, Some(RateLimitExceeded)), v;
      }
      reply := Reply(ctx, data, None);
    }
  }

  /** pipeline.Channel; the limiter hook refers to one limiter object. */
  class Channel<C, D> {
    var handlers: seq<Hook<C, D>>

    constructor ()
      ensures handlers == []
    {
      handlers := [];
    }

    method PushFront(h: Hook<C, D>)
      modifies this
      ensures handlers == [h] + old(handlers)
    {
      var longer := new Hook<C, D>[|handlers| + 1](_ => h);
      for i := 0 to |handlers|
        invariant handlers == old(handlers) && longer[0] == h && longer[1..i + 1] == handlers[..i]
      {
        longer[i + 1] := handlers[i];
      }
      assert longer[..] == [longer[0]] + longer[1..];
      handlers := longer[..];
    }

    method PushBack(h: Hook<C, D>)
      modifies this
      ensures handlers == old(handlers) + [h]
    {
      handlers := handlers + [h];
    }

    method ExecuteBeforePipeline(limiter: RateLimiter, clock: seq<int>, call: nat, ctx0: C, data: D)
      returns (reply: Reply<C, D>)
      requires |clock| == |handlers|
      modifies limiter
      ensures (limiter.View(), reply) == Execute(limiter.Cfg(), handlers, clock, call, old(limiter.View()), ctx0, data)
    {
      reply := Reply(ctx0, data, None);
      ghost var s0 := limiter.View();
      var i := 0;
      while i < |handlers|
        invariant 0 <= i <= |handlers| && reply.error.None?
        invariant Execute(limiter.Cfg(), handlers, clock, call, s0, ctx0, data)
                  == Execute(limiter.Cfg(), handlers[i..], clock[i..], call, limiter.View(), reply.ctx, reply.data)
      {
        assert handlers[i..][1..] == handlers[i + 1..] && clock[i..][1..] == clock[i + 1..];
        match handlers[i] {
          case Other(run) =>
            reply := run(call, reply.ctx, reply.data);
          case RateLimit =>
            ghost var verdict;
            reply, verdict := limiter.HandleBefore(clock[i], reply.ctx, reply.data);
        }
        if reply.error.Some? {
          return reply;
        }
        i := i + 1;
      }
    }
  }
}
