/** Agreement between the replica and etcd. etcd is a log of key events; revision n is the first n of them. */
module Replication {
  import opened Base
  import opened Names
  import opened Replicas
  import opened Discovery

  /** The keys that exist after the events of `log`. */
  ghost function Live(log: seq<Event>): set<string> {
    if log == [] then {}
    else
      var e := log[|log| - 1];
      if e.Put? then Live(log[..|log| - 1]) + {e.key} else Live(log[..|log| - 1]) - {e.key}
  }

  /** The IDs that etcd offers this process. */
  ghost function Offered(site: Site, log: seq<Event>): set<string> { EligibleIds(site, Live(log)) }

  /** `e` is about an eligible key of server `id`. */
  ghost predicate On(site: Site, e: Event, id: string) {
    Eligible(site, e.key).Some? && Eligible(site, e.key).value.1 == id
  }

  /** The payload of every eligible put parses and carries the ID of its key. */
  ghost predicate PayloadsMatch(site: Site, log: seq<Event>) {
    forall i :: 0 <= i < |log| && log[i].Put? && Eligible(site, log[i].key).Some? ==>
      log[i].payload.Some? && log[i].payload.value.id == Eligible(site, log[i].key).value.1
  }

  /** The last event about `id`, if there is one. */
  ghost function LastOn(site: Site, es: seq<Event>, id: string): (r: Option<Event>)
    ensures r.Some? ==> On(site, r.value, id)
  {
    if es == [] then None
    else if On(site, es[|es| - 1], id) then Some(es[|es| - 1])
    else LastOn(site, es[..|es| - 1], id)
  }

  lemma {:induction false} LastOnConcat(site: Site, a: seq<Event>, b: seq<Event>, id: string)
    ensures LastOn(site, a + b, id) == if LastOn(site, b, id).Some? then LastOn(site, b, id) else LastOn(site, a, id)
    decreases |b|
  {
    if b == [] {
      assert a + b == a;
    } else {
      assert (a + b)[..|a + b| - 1] == a + b[..|b| - 1];
      LastOnConcat(site, a, b[..|b| - 1], id);
    }
  }

  // ---------- one ID on either side ----------

  /** What one event does to the by-ID map. */
  lemma EventById(site: Site, c: Cache, e: Event)
    requires Consistent(c)
    ensures var m := Replay(site.own, c, EventOps(site, e)).byId;
            m == if Eligible(site, e.key).None? then c.byId
                 else if e.Del? then c.byId - {Eligible(site, e.key).value.1}
                 else if e.payload.None? || e.payload.value.id in c.byId then c.byId
                 else c.byId[e.payload.value.id := e.payload.value]
  {
    ReplayOne(site.own, c, EventOps(site, e));
  }

  /** After a run of events the replica knows `id` iff the last event about it was a put; with no such event nothing
      changed. */
  lemma {:induction false} HandledIds(site: Site, c: Cache, es: seq<Event>, id: string)
    requires Consistent(c) && PayloadsMatch(site, es)
    ensures var last := LastOn(site, es, id);
            id in HandleAll(site, c, es).byId <==> if last.Some? then last.value.Put? else id in c.byId
  {
    if es != [] {
      var rest, e := es[..|es| - 1], es[|es| - 1];
      HandledIds(site, c, rest, id);
      EventsKeepConsistent(site, c, rest);
      EventById(site, HandleAll(site, c, rest), e);
    }
  }

  /** etcd goes on offering or not offering an ID that no event is about, and offers one whose last event was a put. */
  lemma {:induction false} OfferedAfter(site: Site, base: seq<Event>, es: seq<Event>, id: string)
    ensures LastOn(site, es, id).None? ==> (id in Offered(site, base + es) <==> id in Offered(site, base))
    ensures var last := LastOn(site, es, id);
            && (last.Some? && last.value.Put? ==> last.value.key in Live(base + es))
            && (last.Some? && last.value.Del? ==> last.value.key !in Live(base + es))
    decreases |es|
  {
    if es == [] {
      assert base + es == base;
    } else {
      var rest, e := es[..|es| - 1], es[|es| - 1];
      assert (base + es)[..|base + es| - 1] == base + rest;
      OfferedAfter(site, base, rest, id);
      if LastOn(site, es, id).None? {
        UntouchedId(site, base + es, id);
      }
    }
  }

  lemma UntouchedId(site: Site, log: seq<Event>, id: string)
    requires log != [] && !On(site, log[|log| - 1], id)
    ensures id in Offered(site, log) <==> id in Offered(site, log[..|log| - 1])
  {
    var before, e := log[..|log| - 1], log[|log| - 1];
    if id in Offered(site, before) {
      var k :| k in Live(before) && Eligible(site, k).Some? && Eligible(site, k).value.1 == id;
      assert k in Live(log);
    }
    if id in Offered(site, log) {
      var k :| k in Live(log) && Eligible(site, k).Some? && Eligible(site, k).value.1 == id;
      assert k in Live(before);
    }
  }

  // ---------- a snapshot and a run of events ----------

  /** The last event about `id` in the replayed run deletes one of its keys although etcd still offers the ID. */
  ghost predicate Orphaned(site: Site, log: seq<Event>, a: nat, n: nat, id: string)
    requires a <= n <= |log|
  {
    LastOn(site, log[a..n], id).Some? && LastOn(site, log[a..n], id).value.Del? && id in Offered(site, log[..n])
  }

  /** A replica that knows what etcd offers at revision r and then handles any contiguous run of events that starts at
      or before r + 1 and ends at n knows exactly what etcd offers at n if and only if no ID is orphaned in that run. */
  lemma FromOfferedIff(site: Site, c: Cache, log: seq<Event>, a: nat, r: nat, n: nat)
    requires a <= r <= n <= |log| && Consistent(c) && PayloadsMatch(site, log)
    requires c.byId.Keys == Offered(site, log[..r])
    ensures HandleAll(site, c, log[a..n]).byId.Keys == Offered(site, log[..n])
            <==> !exists id :: Orphaned(site, log, a, n, id)
  {
    var known := HandleAll(site, c, log[a..n]).byId.Keys;
    forall id ensures (id in known <==> id in Offered(site, log[..n])) <==> !Orphaned(site, log, a, n, id) {
      OneIdAgreesIff(site, c, log, a, r, n, id);
    }
  }

  /** A possible course of a sync that reads revision r and fetches all it needs. */
  ghost predicate CompleteAt(site: Site, c: Cache, log: seq<Event>, r: nat, sync: SyncRun)
    requires r <= |log|
  {
    && Elems(sync.keys) == Live(log[..r]) && AllFetched(site, c, sync.keys, sync.fetch)
    && SyncCourse(site, c, sync.keys, sync.fetch, sync.arrived, sync.removed)
  }

  datatype SyncRun = SyncRun(keys: seq<string>, fetch: Fetch, arrived: seq<Server>, removed: seq<string>)

  ghost function Synced(site: Site, c: Cache, sync: SyncRun): Cache {
    Replay(site.own, c, SyncOps(sync.arrived, sync.removed))
  }

  lemma SyncedOffers(site: Site, c: Cache, log: seq<Event>, r: nat, sync: SyncRun)
    requires r <= |log| && Consistent(c) && CompleteAt(site, c, log, r, sync)
    ensures Consistent(Synced(site, c, sync)) && Synced(site, c, sync).byId.Keys == Offered(site, log[..r])
  {
    SyncById(site, c, sync.arrived, sync.removed);
    CompleteSync(site, c, sync.keys, sync.fetch, sync.arrived, sync.removed);
  }

  /** A complete sync at revision r, whatever the replica knew before, followed by any contiguous run of events that
      starts at or before r + 1 (so events the snapshot contains may be replayed) and ends at n, leaves exactly the IDs
      etcd offers at n if and only if no ID is orphaned in that run. */
  lemma ReplayAgreesIff(site: Site, c: Cache, log: seq<Event>, a: nat, r: nat, n: nat, sync: SyncRun)
    requires a <= r <= n <= |log| && Consistent(c) && PayloadsMatch(site, log) && CompleteAt(site, c, log, r, sync)
    ensures HandleAll(site, Synced(site, c, sync), log[a..n]).byId.Keys == Offered(site, log[..n])
            <==> !exists id :: Orphaned(site, log, a, n, id)
  {
    SyncedOffers(site, c, log, r, sync);
    FromOfferedIff(site, Synced(site, c, sync), log, a, r, n);
  }

  lemma OneIdAgreesIff(site: Site, c: Cache, log: seq<Event>, a: nat, r: nat, n: nat, id: string)
    requires a <= r <= n <= |log| && Consistent(c) && PayloadsMatch(site, log)
    requires c.byId.Keys == Offered(site, log[..r])
    ensures (id in HandleAll(site, c, log[a..n]).byId <==> id in Offered(site, log[..n]))
            <==> !Orphaned(site, log, a, n, id)
  {
    HandledIds(site, c, log[a..n], id);
    WindowOffers(site, log, a, r, n, id);
  }

  lemma SliceConcat(log: seq<Event>, a: nat, r: nat, n: nat)
    requires a <= r <= n <= |log|
    ensures log[..n] == log[..r] + log[r..n] && log[a..n] == log[a..r] + log[r..n]
  {
  }

  /** etcd's side of a window: an ID with no event in it is offered as at r; one last put in it is offered. */
  lemma WindowOffers(site: Site, log: seq<Event>, a: nat, r: nat, n: nat, id: string)
    requires a <= r <= n <= |log|
    ensures var last := LastOn(site, log[a..n], id);
            && (last.None? ==> (id in Offered(site, log[..n]) <==> id in Offered(site, log[..r])))
            && (last.Some? && last.value.Put? ==> id in Offered(site, log[..n]))
  {
    SliceConcat(log, a, r, n);
    SliceConcat(log, a, a, n);
    LastOnConcat(site, log[a..r], log[r..n], id);
    OfferedAfter(site, log[..r], log[r..n], id);
    OfferedAfter(site, log[..a], log[a..n], id);
  }

  /** Each ID appears under one key only. */
  ghost predicate OneKeyPerId(site: Site, log: seq<Event>) {
    forall i, j, id :: 0 <= i < |log| && 0 <= j < |log| && On(site, log[i], id) && On(site, log[j], id) ==>
      log[i].key == log[j].key
  }

  lemma {:induction false} LiveWasPut(log: seq<Event>, k: string) returns (i: nat)
    requires k in Live(log)
    ensures i < |log| && log[i].key == k
  {
    if log[|log| - 1].key == k {
      i := |log| - 1;
    } else {
      i := LiveWasPut(log[..|log| - 1], k);
    }
  }

  lemma {:induction false} LastOnIndex(site: Site, es: seq<Event>, id: string) returns (i: nat)
    requires LastOn(site, es, id).Some?
    ensures i < |es| && es[i] == LastOn(site, es, id).value
  {
    if On(site, es[|es| - 1], id) {
      i := |es| - 1;
    } else {
      i := LastOnIndex(site, es[..|es| - 1], id);
    }
  }

  /** With one key per ID, an ID whose last event was a delete is gone. */
  lemma DeletedIsGone(site: Site, base: seq<Event>, es: seq<Event>, id: string)
    requires OneKeyPerId(site, base + es)
    requires LastOn(site, es, id).Some? && LastOn(site, es, id).value.Del?
    ensures id !in Offered(site, base + es)
  {
    OfferedAfter(site, base, es, id);
    var j := LastOnIndex(site, es, id);
    assert (base + es)[|base| + j] == es[j];
    if k :| k in Live(base + es) && Eligible(site, k).Some? && Eligible(site, k).value.1 == id {
      var i := LiveWasPut(base + es, k);
      assert On(site, (base + es)[i], id);
    }
  }

  /** So under one key per ID snapshot plus replay always converges. */
  lemma SnapshotPlusReplayConverges(site: Site, c: Cache, log: seq<Event>, a: nat, r: nat, n: nat, sync: SyncRun)
    requires a <= r <= n <= |log| && Consistent(c) && PayloadsMatch(site, log) && OneKeyPerId(site, log)
    requires CompleteAt(site, c, log, r, sync)
    ensures HandleAll(site, Synced(site, c, sync), log[a..n]).byId.Keys == Offered(site, log[..n])
  {
    ReplayAgreesIff(site, c, log, a, r, n, sync);
    forall id ensures !Orphaned(site, log, a, n, id) {
      if LastOn(site, log[a..n], id).Some? && LastOn(site, log[a..n], id).value.Del? {
        assert log[..n] == log[..a] + log[a..n];
        DeletedIsGone(site, log[..a], log[a..n], id);
      }
    }
  }

  /** Without that it does not: a server that changes its type leaves its ID under two keys, and when the old key goes
      the replica drops a server that etcd still offers. */
  lemma ChangedTypeIsLost(site: Site, id: string, t1: string, t2: string, sv1: Server, sv2: Server, c: Cache)
    requires '/' !in id && '/' !in t1 && '/' !in t2 && t1 != t2
    requires t1 !in site.blacklist && t2 !in site.blacklist && sv1.id == id && sv2.id == id
    requires Consistent(c)
    ensures var log := [Put(GetKey(id, t1), Some(sv1)), Put(GetKey(id, t2), Some(sv2)), Del(GetKey(id, t1))];
            id in Offered(site, log) && id !in HandleAll(site, c, log).byId
  {
    var k1, k2 := GetKey(id, t1), GetKey(id, t2);
    KeyRoundTripIff(id, t1);
    KeyRoundTripIff(id, t2);
    var e1, e2, e3 := Put(k1, Some(sv1)), Put(k2, Some(sv2)), Del(k1);
    var log := [e1, e2, e3];
    assert log[..2] == [e1, e2];
    assert On(site, e3, id) && LastOn(site, log, id) == Some(e3);
    HandledIds(site, c, log, id);
    assert k2 in Live(log) by {
      assert Live(log[..2]) == Live([e1, e2][..1]) + {k2};
      assert k1 != k2 by { assert ParseEtcdKey(k1) != ParseEtcdKey(k2); }
    }
  }

  // ---------- values ----------

  /** The events after the last delete of `id`; all of them if there is none. */
  ghost function SinceDelete(site: Site, es: seq<Event>, id: string): seq<Event> {
    if es == [] || (On(site, es[|es| - 1], id) && es[|es| - 1].Del?) then []
    else SinceDelete(site, es[..|es| - 1], id) + [es[|es| - 1]]
  }

  ghost predicate Drops(site: Site, es: seq<Event>, id: string) {
    exists i :: 0 <= i < |es| && On(site, es[i], id) && es[i].Del?
  }

  /** The payload of the first put of `id`. */
  ghost function FirstPut(site: Site, es: seq<Event>, id: string): Option<Server> {
    if es == [] then None
    else
      var p, e := FirstPut(site, es[..|es| - 1], id), es[|es| - 1];
      if p.Some? then p else if On(site, e, id) && e.Put? then e.payload else None
  }

  ghost function Lookup(m: map<string, Server>, id: string): Option<Server> { if id in m then Some(m[id]) else None }

  lemma DropsMore(site: Site, es: seq<Event>, id: string)
    requires es != []
    ensures Drops(site, es, id)
            <==> Drops(site, es[..|es| - 1], id) || (On(site, es[|es| - 1], id) && es[|es| - 1].Del?)
  {
    var n := |es| - 1;
    if i :| 0 <= i < |es| && On(site, es[i], id) && es[i].Del? && i < n { assert es[..n][i] == es[i]; }
    if i :| 0 <= i < n && On(site, es[..n][i], id) && es[..n][i].Del? { assert es[i] == es[..n][i]; }
  }

  /** The value of an ID after a run of events: the payload of the first put since its last delete, unless it was known
      before and never deleted. */
  ghost function ValueAfter(site: Site, m: map<string, Server>, es: seq<Event>, id: string): Option<Server> {
    if id in m && !Drops(site, es, id) then Some(m[id]) else FirstPut(site, SinceDelete(site, es, id), id)
  }

  lemma ValueStep(site: Site, m: map<string, Server>, es: seq<Event>, id: string)
    requires es != [] && PayloadsMatch(site, es)
    ensures var e, before := es[|es| - 1], ValueAfter(site, m, es[..|es| - 1], id);
            ValueAfter(site, m, es, id)
            == if !On(site, e, id) then before else if e.Del? then None else if before.Some? then before else e.payload
  {
    DropsMore(site, es, id);
    var kept, e := SinceDelete(site, es[..|es| - 1], id), es[|es| - 1];
    assert (kept + [e])[..|kept|] == kept;
  }

  /** After a run of events the replica has exactly that value for every ID. */
  lemma {:induction false} HandledValue(site: Site, c: Cache, es: seq<Event>, id: string)
    requires Consistent(c) && PayloadsMatch(site, es)
    ensures Lookup(HandleAll(site, c, es).byId, id) == ValueAfter(site, c.byId, es, id)
  {
    if es != [] {
      var rest := es[..|es| - 1];
      HandledValue(site, c, rest, id);
      EventsKeepConsistent(site, c, rest);
      EventById(site, HandleAll(site, c, rest), es[|es| - 1]);
      ValueStep(site, c.byId, es, id);
    }
  }

  /** In particular a known server never changes until its ID is deleted, whatever is put. */
  lemma {:induction false} FirstWriteWins(site: Site, c: Cache, es: seq<Event>, id: string)
    requires Consistent(c) && id in c.byId && !Drops(site, es, id)
    ensures id in HandleAll(site, c, es).byId && HandleAll(site, c, es).byId[id] == c.byId[id]
  {
    if es != [] {
      var rest, e := es[..|es| - 1], es[|es| - 1];
      DropsMore(site, es, id);
      FirstWriteWins(site, c, rest, id);
      EventsKeepConsistent(site, c, rest);
      EventById(site, HandleAll(site, c, rest), e);
    }
  }

  // ---------- every run of syncs, watch events and lost watches ----------

  /** The watcher has consumed log[..pos]; `covered` says that a complete sync happened since the watch was last
      created. */
  datatype System = System(log: seq<Event>, pos: nat, cache: Cache, covered: bool)

  datatype Step =
    | Write(e: Event)                   // some process changes a key
    | Watch                             // the watcher handles its next event
    | Sync(r: nat, keys: seq<string>, fetch: Fetch, arrived: seq<Server>, removed: seq<string>)
    | Rewatch                           // the watch is created again and starts at the current revision

  /** A sync reads a revision no older than what the watcher has seen. */
  ghost predicate SyncEnabled(site: Site, s: System, step: Step)
    requires step.Sync?
  {
    && s.pos <= step.r <= |s.log| && Elems(step.keys) == Live(s.log[..step.r])
    && SyncCourse(site, s.cache, step.keys, step.fetch, step.arrived, step.removed)
  }

  /** One step; a step that is not possible changes nothing. */
  ghost function Do(site: Site, s: System, step: Step): System {
    match step
    case Write(e) => s.(log := s.log + [e])
    case Watch => if s.pos < |s.log| then s.(pos := s.pos + 1, cache := HandleAll(site, s.cache, [s.log[s.pos]])) else s
    case Sync(r, keys, fetch, arrived, removed) =>
      if SyncEnabled(site, s, step) then
        s.(cache := Replay(site.own, s.cache, SyncOps(arrived, removed)),
           covered := s.covered || AllFetched(site, s.cache, keys, fetch))
      else s
    case Rewatch => s.(pos := |s.log|, covered := false)
  }

  ghost function Run(site: Site, s: System, steps: seq<Step>): System {
    if steps == [] then s else Do(site, Run(site, s, steps[..|steps| - 1]), steps[|steps| - 1])
  }

  ghost function Start(log: seq<Event>): System { System(log, |log|, Cache(map[], map[], []), false) }

  /** Once covered, replica and etcd agree on every ID that no pending event is about. */
  ghost predicate Agrees(site: Site, s: System, id: string)
    requires s.pos <= |s.log|
  {
    s.covered && LastOn(site, s.log[s.pos..], id).None? ==> (id in s.cache.byId <==> id in Offered(site, s.log))
  }

  ghost predicate Invariant(site: Site, s: System) {
    Consistent(s.cache) && s.pos <= |s.log| && forall id :: Agrees(site, s, id)
  }

  lemma WriteKeeps(site: Site, s: System, e: Event)
    requires Invariant(site, s)
    ensures Invariant(site, Do(site, s, Write(e)))
  {
    var s1 := Do(site, s, Write(e));
    forall id ensures Agrees(site, s1, id) {
      assert s1.log[s.pos..] == s.log[s.pos..] + [e];
      LastOnConcat(site, s.log[s.pos..], [e], id);
      OfferedAfter(site, s.log, [e], id);
      assert Agrees(site, s, id);
    }
  }

  lemma WatchAgrees(site: Site, s: System, id: string)
    requires Consistent(s.cache) && s.pos < |s.log| && PayloadsMatch(site, s.log) && OneKeyPerId(site, s.log)
    requires Agrees(site, s, id)
    ensures Agrees(site, Do(site, s, Watch), id)
  {
    var e, rest := s.log[s.pos], s.log[s.pos + 1..];
    assert s.log[s.pos..] == [e] + rest && s.log == s.log[..s.pos] + s.log[s.pos..];
    LastOnConcat(site, [e], rest, id);
    HandledIds(site, s.cache, [e], id);
    OfferedAfter(site, s.log[..s.pos], s.log[s.pos..], id);
    if LastOn(site, rest, id).None? && On(site, e, id) && e.Del? {
      DeletedIsGone(site, s.log[..s.pos], s.log[s.pos..], id);
    }
  }

  lemma WatchKeeps(site: Site, s: System)
    requires Invariant(site, s) && s.pos < |s.log| && PayloadsMatch(site, s.log) && OneKeyPerId(site, s.log)
    ensures Invariant(site, Do(site, s, Watch))
  {
    EventsKeepConsistent(site, s.cache, [s.log[s.pos]]);
    forall id ensures Agrees(site, Do(site, s, Watch), id) {
      assert Agrees(site, s, id);
      WatchAgrees(site, s, id);
    }
  }

  lemma SyncAgrees(site: Site, s: System, step: Step, id: string)
    requires Consistent(s.cache) && step.Sync? && SyncEnabled(site, s, step) && Agrees(site, s, id)
    ensures Agrees(site, Do(site, s, step), id)
  {
    var r := step.r;
    SyncOutcome(site, s.cache, step.keys, step.fetch, step.arrived, step.removed);
    if AllFetched(site, s.cache, step.keys, step.fetch) {
      CompleteSync(site, s.cache, step.keys, step.fetch, step.arrived, step.removed);
    }
    assert s.log[s.pos..] == s.log[s.pos..r] + s.log[r..] && s.log == s.log[..r] + s.log[r..];
    LastOnConcat(site, s.log[s.pos..r], s.log[r..], id);
    OfferedAfter(site, s.log[..r], s.log[r..], id);
  }

  lemma SyncKeeps(site: Site, s: System, step: Step)
    requires Invariant(site, s) && step.Sync? && SyncEnabled(site, s, step)
    ensures Invariant(site, Do(site, s, step))
  {
    SyncById(site, s.cache, step.arrived, step.removed);
    forall id ensures Agrees(site, Do(site, s, step), id) {
      assert Agrees(site, s, id);
      SyncAgrees(site, s, step, id);
    }
  }

  lemma {:induction false} RunKeeps(site: Site, log: seq<Event>, steps: seq<Step>)
    requires PayloadsMatch(site, Run(site, Start(log), steps).log)
    requires OneKeyPerId(site, Run(site, Start(log), steps).log)
    ensures Invariant(site, Run(site, Start(log), steps))
  {
    if steps != [] {
      var s, step := Run(site, Start(log), steps[..|steps| - 1]), steps[|steps| - 1];
      var s1 := Run(site, Start(log), steps);
      assert s.log <= s1.log;
      assert forall i :: 0 <= i < |s.log| ==> s.log[i] == s1.log[i];
      RunKeeps(site, log, steps[..|steps| - 1]);
      match step {
        case Write(e) => WriteKeeps(site, s, e);
        case Watch => if s.pos < |s.log| { WatchKeeps(site, s); }
        case Sync(_, _, _, _, _) => if SyncEnabled(site, s, step) { SyncKeeps(site, s, step); }
        case Rewatch =>
      }
    }
  }

  /** In every run, whenever the watcher has caught up and a complete sync happened since the watch was created, the
      replica knows exactly the IDs that etcd offers: those with a live key whose type is not ignored, and the own one
      if it has any. Syncs whose fetches fail do not disturb this. */
  lemma CaughtUpAgrees(site: Site, log: seq<Event>, steps: seq<Step>)
    requires var s := Run(site, Start(log), steps);
             PayloadsMatch(site, s.log) && OneKeyPerId(site, s.log) && s.covered && s.pos == |s.log|
    ensures var s := Run(site, Start(log), steps);
            && Consistent(s.cache) && s.cache.byId.Keys == Offered(site, s.log)
            && (UnderPrefix(Live(s.log)) ==> forall id :: id in s.cache.byId <==> Backed(site, Live(s.log), id))
  {
    RunKeeps(site, log, steps);
    var s := Run(site, Start(log), steps);
    forall id ensures id in s.cache.byId.Keys <==> id in Offered(site, s.log) {
      assert Agrees(site, s, id) && s.log[s.pos..] == [];
    }
    if UnderPrefix(Live(s.log)) {
      forall id { EligibleIsBacked(site, Live(s.log), id); }
    }
  }

  // ---------- it can always get there ----------

  lemma {:induction false} RunConsistent(site: Site, log: seq<Event>, steps: seq<Step>)
    ensures var s := Run(site, Start(log), steps); Consistent(s.cache) && s.pos <= |s.log|
  {
    if steps != [] {
      var s, step := Run(site, Start(log), steps[..|steps| - 1]), steps[|steps| - 1];
      RunConsistent(site, log, steps[..|steps| - 1]);
      if step.Watch? && s.pos < |s.log| { EventsKeepConsistent(site, s.cache, [s.log[s.pos]]); }
      if step.Sync? && SyncEnabled(site, s, step) { SyncById(site, s.cache, step.arrived, step.removed); }
    }
  }

  /** A complete sync of the current revision is always possible. */
  lemma CanSync(site: Site, s: System) returns (step: Step)
    requires Consistent(s.cache) && s.pos <= |s.log|
    ensures step.Sync? && SyncEnabled(site, s, step) && AllFetched(site, s.cache, step.keys, step.fetch)
  {
    var keys := Enumerate(Live(s.log));
    var fetch: Fetch := (typ, id) => Some(Server(id, typ, map[], ""));
    var arrived := Answers(site, s.cache, keys, fetch);
    var removed := Enumerate(Replay(site.own, s.cache, Adds(arrived)).byId.Keys - EligibleIds(site, Elems(keys)));
    assert s.log[..|s.log|] == s.log;
    step := Sync(|s.log|, keys, fetch, arrived, removed);
  }

  lemma RunMore(site: Site, s: System, steps: seq<Step>, step: Step)
    ensures Run(site, s, steps + [step]) == Do(site, Run(site, s, steps), step)
  {
    assert (steps + [step])[..|steps|] == steps;
  }

  /** And from then on the watcher catches up if nothing else is written. */
  lemma {:induction false} CatchesUp(site: Site, s0: System, steps: seq<Step>, k: nat) returns (all: seq<Step>)
    requires var s := Run(site, s0, steps); s.pos + k == |s.log|
    ensures steps <= all && |all| == |steps| + k
    ensures var s, s1 := Run(site, s0, steps), Run(site, s0, all);
            s1.log == s.log && s1.covered == s.covered && s1.pos == |s1.log|
    decreases k
  {
    if k == 0 {
      all := steps;
    } else {
      RunMore(site, s0, steps, Watch);
      all := CatchesUp(site, s0, steps + [Watch], k - 1);
    }
  }

  /** Whatever has happened, lost watches and failed syncs included, one complete sync and the events still to come lead
      to a replica that knows what etcd offers. */
  lemma AlwaysRecovers(site: Site, log: seq<Event>, steps: seq<Step>) returns (all: seq<Step>)
    requires var s := Run(site, Start(log), steps); PayloadsMatch(site, s.log) && OneKeyPerId(site, s.log)
    ensures steps <= all && Run(site, Start(log), all).log == Run(site, Start(log), steps).log
    ensures var s := Run(site, Start(log), all); s.cache.byId.Keys == Offered(site, s.log)
  {
    RunConsistent(site, log, steps);
    var s := Run(site, Start(log), steps);
    var sync := CanSync(site, s);
    RunMore(site, Start(log), steps, sync);
    all := CatchesUp(site, Start(log), steps + [sync], |s.log| - s.pos);
    CaughtUpAgrees(site, log, all);
  }

  /** The sync is needed: an event that falls into a gap between two watches is missed, though the watcher has caught
      up. */
  lemma GapIsMissed(site: Site, id: string, typ: string, sv: Server)
    requires '/' !in id && '/' !in typ && typ !in site.blacklist && sv.id == id
    ensures var s := Run(site, Start([]), [Write(Put(GetKey(id, typ), Some(sv))), Rewatch]);
            s.pos == |s.log| && id in Offered(site, s.log) && id !in s.cache.byId && !s.covered
  {
    var e := Put(GetKey(id, typ), Some(sv));
    EligibleKey(site, id, typ);
    RunMore(site, Start([]), [], Write(e));
    RunMore(site, Start([]), [Write(e)], Rewatch);
    assert [] + [Write(e)] == [Write(e)] && [Write(e)] + [Rewatch] == [Write(e), Rewatch];
    assert [] + [e] == [e] && [e][..0] == [];
    assert Live([e]) == Live([]) + {e.key};
  }
}
