/** How cluster/etcd_service_discovery.go feeds the replica: snapshot syncs with parallel fetches, and watch events. */
module Discovery {
  import opened Base
  import opened Names
  import opened Replicas

  /** The identity of this process and its list of ignored server types. */
  datatype Site = Site(own: string, blacklist: seq<string>)

  /** What a fetch of a server's key gives: the parsed payload, or None for any error. */
  type Fetch = (string, string) -> Option<Server>

  /** The (type, ID) of a key that concerns this process: it parses, and its type is not ignored unless it is our
      own. */
  function Eligible(site: Site, key: string): Option<(string, string)> {
    match ParseEtcdKey(key)
    case None => None
    case Some((typ, id)) => if typ in site.blacklist && id != site.own then None else Some((typ, id))
  }

  ghost function EligibleIds(site: Site, keys: set<string>): set<string> {
    set k | k in keys && Eligible(site, k).Some? :: Eligible(site, k).value.1
  }

  /** The key of a server concerns this process exactly if both its fields are free of slashes and its type is not
      ignored or the server is this process itself. */
  lemma EligibleKey(site: Site, id: string, typ: string)
    ensures Eligible(site, GetKey(id, typ))
            == if '/' !in id && '/' !in typ && (id == site.own || typ !in site.blacklist) then Some((typ, id)) else None
  {
    KeyRoundTripIff(id, typ);
  }

  /** Some key among `keys` offers server `id` to this process. */
  ghost predicate Backed(site: Site, keys: set<string>, id: string) {
    exists typ :: && GetKey(id, typ) in keys && '/' !in id && '/' !in typ
                  && (id == site.own || typ !in site.blacklist)
  }

  ghost predicate UnderPrefix(keys: set<string>) { forall k :: k in keys ==> "servers/" <= k }

  lemma EligibleIsBacked(site: Site, keys: set<string>, id: string)
    requires UnderPrefix(keys)
    ensures id in EligibleIds(site, keys) <==> Backed(site, keys, id)
  {
    if id in EligibleIds(site, keys) {
      var k :| k in keys && Eligible(site, k).Some? && Eligible(site, k).value.1 == id;
      ParsedKeyIsItsKey(k);
      var typ := Eligible(site, k).value.0;
      EligibleKey(site, id, typ);
      assert GetKey(id, typ) in keys;
    }
    if Backed(site, keys, id) {
      var typ :| && GetKey(id, typ) in keys && '/' !in id && '/' !in typ
                 && (id == site.own || typ !in site.blacklist);
      EligibleKey(site, id, typ);
    }
  }

  // ---------- SyncServers ----------

  /** The keys whose servers a sync has to fetch: eligible and not yet known. */
  ghost function Works(site: Site, known: map<string, Server>, keys: seq<string>): seq<(string, string)> {
    if keys == [] then []
    else
      var e := Eligible(site, keys[|keys| - 1]);
      Works(site, known, keys[..|keys| - 1]) + if e.Some? && e.value.1 !in known then [e.value] else []
  }

  ghost function Fetched(fetch: Fetch, works: seq<(string, string)>): seq<Server> {
    if works == [] then []
    else
      var w := works[|works| - 1];
      Fetched(fetch, works[..|works| - 1]) + if fetch(w.0, w.1).Some? then [fetch(w.0, w.1).value] else []
  }

  ghost function Answers(site: Site, c: Cache, keys: seq<string>, fetch: Fetch): seq<Server> {
    Fetched(fetch, Works(site, c.byId, keys))
  }

  ghost function SyncOps(arrived: seq<Server>, removed: seq<string>): seq<Op> { Adds(arrived) + Deletes(removed) }

  /** One possible course of a sync: the fetched servers arrive in some order and are added, then the IDs that the
      snapshot does not back are removed in some order. */
  ghost predicate SyncCourse(site: Site, c: Cache, keys: seq<string>, fetch: Fetch,
                             arrived: seq<Server>, removed: seq<string>) {
    && multiset(arrived) == multiset(Answers(site, c, keys, fetch))
    && Elems(removed) == Replay(site.own, c, Adds(arrived)).byId.Keys - EligibleIds(site, Elems(keys))
  }

  /** What the two halves of a course leave in the by-ID map. */
  lemma SyncById(site: Site, c: Cache, arrived: seq<Server>, removed: seq<string>)
    requires Consistent(c)
    ensures var c1 := Replay(site.own, c, SyncOps(arrived, removed));
            Consistent(c1) && c1.byId == Replay(site.own, c, Adds(arrived)).byId - Elems(removed)
  {
    ReplayConcat(site.own, c, Adds(arrived), Deletes(removed));
    ReplayKeepsConsistent(site.own, c, SyncOps(arrived, removed));
    ReplayKeepsConsistent(site.own, c, Adds(arrived));
    DeletesById(site.own, Replay(site.own, c, Adds(arrived)), removed);
  }

  /** Every course ends with exactly the eligible IDs of the snapshot that were known or fetched. */
  lemma SyncOutcome(site: Site, c: Cache, keys: seq<string>, fetch: Fetch, arrived: seq<Server>, removed: seq<string>)
    requires Consistent(c) && SyncCourse(site, c, keys, fetch, arrived, removed)
    ensures Replay(site.own, c, SyncOps(arrived, removed)).byId.Keys
            == EligibleIds(site, Elems(keys)) * (c.byId.Keys + IdsOf(Answers(site, c, keys, fetch)))
  {
    SyncById(site, c, arrived, removed);
    AddedKeys(site.own, c, arrived);
    SameMembers(arrived, Answers(site, c, keys, fetch));
    assert IdsOf(arrived) == IdsOf(Answers(site, c, keys, fetch));
  }

  lemma AddedKeys(own: string, c: Cache, svs: seq<Server>)
    ensures Replay(own, c, Adds(svs)).byId.Keys == c.byId.Keys + IdsOf(svs)
  {
    AddsById(own, c, svs);
    forall id ensures id in Replay(own, c, Adds(svs)).byId.Keys <==> id in c.byId.Keys + IdsOf(svs) {
      assert First(svs, id).Some? <==> id in IdsOf(svs);
    }
  }

  /** Known servers stay as they were; a new ID gets the first server that arrived for it. */
  lemma SyncValue(site: Site, c: Cache, keys: seq<string>, fetch: Fetch,
                  arrived: seq<Server>, removed: seq<string>, id: string)
    requires Consistent(c) && SyncCourse(site, c, keys, fetch, arrived, removed)
    requires id in Replay(site.own, c, SyncOps(arrived, removed)).byId
    ensures var sv := Replay(site.own, c, SyncOps(arrived, removed)).byId[id];
            if id in c.byId then sv == c.byId[id]
            else First(arrived, id) == Some(sv) && sv in Answers(site, c, keys, fetch) && sv.id == id
  {
    SyncById(site, c, arrived, removed);
    AddsById(site.own, c, arrived);
    SameMembers(arrived, Answers(site, c, keys, fetch));
  }

  lemma SameMembers(a: seq<Server>, b: seq<Server>)
    requires multiset(a) == multiset(b)
    ensures forall sv :: sv in a <==> sv in b
  {
    forall sv ensures sv in a <==> sv in b {
      assert sv in a <==> sv in multiset(a);
      assert sv in b <==> sv in multiset(b);
    }
  }

  /** Every fetch succeeded and brought a server with the ID of its key. */
  ghost predicate AllFetched(site: Site, c: Cache, keys: seq<string>, fetch: Fetch) {
    forall w :: w in Works(site, c.byId, keys) ==> fetch(w.0, w.1).Some? && fetch(w.0, w.1).value.id == w.1
  }

  lemma {:induction false} WorksCover(site: Site, known: map<string, Server>, keys: seq<string>, k: string)
    requires k in keys && Eligible(site, k).Some? && Eligible(site, k).value.1 !in known
    ensures Eligible(site, k).value in Works(site, known, keys)
  {
    if k != keys[|keys| - 1] {
      WorksCover(site, known, keys[..|keys| - 1], k);
    }
  }

  lemma {:induction false} WorksUnknown(site: Site, known: map<string, Server>, keys: seq<string>, w: (string, string))
    requires w in Works(site, known, keys)
    ensures w.1 !in known && exists k :: k in keys && Eligible(site, k) == Some(w)
  {
    var last := keys[|keys| - 1];
    if w in Works(site, known, keys[..|keys| - 1]) {
      WorksUnknown(site, known, keys[..|keys| - 1], w);
      var k :| k in keys[..|keys| - 1] && Eligible(site, k) == Some(w);
      assert k in keys;
    } else {
      assert last in keys && Eligible(site, last) == Some(w);
    }
  }

  /** A sync fetches exactly the servers that are not known and have a key that is not to be ignored. */
  lemma WorksIff(site: Site, known: map<string, Server>, keys: seq<string>, typ: string, id: string)
    requires UnderPrefix(Elems(keys))
    ensures (typ, id) in Works(site, known, keys)
            <==> && id !in known && GetKey(id, typ) in keys && '/' !in id && '/' !in typ
                 && (id == site.own || typ !in site.blacklist)
  {
    EligibleKey(site, id, typ);
    if (typ, id) in Works(site, known, keys) {
      WorksUnknown(site, known, keys, (typ, id));
      var k :| k in keys && Eligible(site, k) == Some((typ, id));
      assert k in Elems(keys);
      ParsedKeyIsItsKey(k);
    }
    if Eligible(site, GetKey(id, typ)).Some? && GetKey(id, typ) in keys && id !in known {
      WorksCover(site, known, keys, GetKey(id, typ));
    }
  }

  lemma {:induction false} FetchedCovers(fetch: Fetch, works: seq<(string, string)>, w: (string, string))
    requires w in works && fetch(w.0, w.1).Some?
    ensures fetch(w.0, w.1).value in Fetched(fetch, works)
  {
    if w != works[|works| - 1] {
      FetchedCovers(fetch, works[..|works| - 1], w);
    }
  }

  /** When all fetches succeed the replica ends with exactly the eligible IDs of the snapshot. */
  lemma CompleteSync(site: Site, c: Cache, keys: seq<string>, fetch: Fetch, arrived: seq<Server>, removed: seq<string>)
    requires Consistent(c) && SyncCourse(site, c, keys, fetch, arrived, removed) && AllFetched(site, c, keys, fetch)
    ensures Replay(site.own, c, SyncOps(arrived, removed)).byId.Keys == EligibleIds(site, Elems(keys))
  {
    SyncOutcome(site, c, keys, fetch, arrived, removed);
    var answers := Answers(site, c, keys, fetch);
    forall id | id in EligibleIds(site, Elems(keys)) && id !in c.byId ensures id in IdsOf(answers) {
      var k :| k in keys && Eligible(site, k).Some? && Eligible(site, k).value.1 == id;
      WorksCover(site, c.byId, keys, k);
      FetchedCovers(fetch, Works(site, c.byId, keys), Eligible(site, k).value);
    }
  }

  /** What a sync leaves, in terms of the keys of its snapshot: only servers that some key offers to this process,
      whatever fetches fail; all of those if none does; and the own server, if it was known and has any key, even under
      an ignored type. */
  lemma SyncLeaves(site: Site, c: Cache, keys: seq<string>, fetch: Fetch, arrived: seq<Server>, removed: seq<string>,
                   id: string)
    requires Consistent(c) && SyncCourse(site, c, keys, fetch, arrived, removed) && UnderPrefix(Elems(keys))
    ensures var known := Replay(site.own, c, SyncOps(arrived, removed)).byId;
            && (id in known ==> Backed(site, Elems(keys), id))
            && (id in c.byId && Backed(site, Elems(keys), id) ==> id in known && known[id] == c.byId[id])
            && (AllFetched(site, c, keys, fetch) ==> (id in known <==> Backed(site, Elems(keys), id)))
  {
    EligibleIsBacked(site, Elems(keys), id);
    SyncOutcome(site, c, keys, fetch, arrived, removed);
    if AllFetched(site, c, keys, fetch) { CompleteSync(site, c, keys, fetch, arrived, removed); }
    if id in c.byId && id in Replay(site.own, c, SyncOps(arrived, removed)).byId {
      SyncValue(site, c, keys, fetch, arrived, removed, id);
    }
  }

  // ---------- the order in which fetches finish ----------

  /** Two different servers were fetched for one ID that the snapshot backs and the replica did not know. */
  ghost predicate Clash(site: Site, c: Cache, keys: seq<string>, fetch: Fetch) {
    exists s, t :: s in Answers(site, c, keys, fetch) && t in Answers(site, c, keys, fetch) && s.id == t.id && s != t
                   && s.id !in c.byId && s.id in EligibleIds(site, Elems(keys))
  }

  lemma {:induction false} FirstOfHead(sv: Server, rest: seq<Server>)
    ensures First([sv] + rest, sv.id) == Some(sv)
  {
    var svs := [sv] + rest;
    if rest == [] {
      assert svs[..0] == [] && First(svs[..0], sv.id) == None;
    } else {
      assert svs[..|svs| - 1] == [sv] + rest[..|rest| - 1];
      FirstOfHead(sv, rest[..|rest| - 1]);
    }
  }

  /** Any fetched server may arrive first. */
  lemma CourseStartingWith(site: Site, c: Cache, keys: seq<string>, fetch: Fetch, sv: Server)
    returns (arrived: seq<Server>, removed: seq<string>)
    requires Consistent(c) && sv in Answers(site, c, keys, fetch)
    requires sv.id !in c.byId && sv.id in EligibleIds(site, Elems(keys))
    ensures SyncCourse(site, c, keys, fetch, arrived, removed)
    ensures var m := Replay(site.own, c, SyncOps(arrived, removed)).byId; sv.id in m && m[sv.id] == sv
  {
    var all := Answers(site, c, keys, fetch);
    var i :| 0 <= i < |all| && all[i] == sv;
    var rest := all[..i] + all[i + 1..];
    arrived := [sv] + rest;
    assert all == all[..i] + [sv] + all[i + 1..];
    FirstOfHead(sv, rest);
    removed := Enumerate(Replay(site.own, c, Adds(arrived)).byId.Keys - EligibleIds(site, Elems(keys)));
    SyncById(site, c, arrived, removed);
    AddsById(site.own, c, arrived);
  }

  lemma Enumerate(ids: set<string>) returns (order: seq<string>)
    ensures Elems(order) == ids
  {
    order := [];
    var todo := ids;
    while todo != {}
      invariant todo <= ids && Elems(order) == ids - todo
      decreases |todo|
    {
      var id :| id in todo;
      ElemsAppend(order, id);
      order, todo := order + [id], todo - {id};
    }
  }

  /** The servers a sync leaves do not depend on the order in which fetches finish and removals happen exactly when no
      two fetches clash. */
  lemma SyncOrderIrrelevantIff(site: Site, c: Cache, keys: seq<string>, fetch: Fetch)
    requires Consistent(c)
    ensures (forall a1, r1, a2, r2 ::
               SyncCourse(site, c, keys, fetch, a1, r1) && SyncCourse(site, c, keys, fetch, a2, r2) ==>
               Replay(site.own, c, SyncOps(a1, r1)).byId == Replay(site.own, c, SyncOps(a2, r2)).byId)
            <==> !Clash(site, c, keys, fetch)
  {
    var all := Answers(site, c, keys, fetch);
    if s, t :| s in all && t in all && s.id == t.id && s != t
               && s.id !in c.byId && s.id in EligibleIds(site, Elems(keys)) {
      var a1, r1 := CourseStartingWith(site, c, keys, fetch, s);
      var a2, r2 := CourseStartingWith(site, c, keys, fetch, t);
    } else {
      forall a1, r1, a2, r2 | SyncCourse(site, c, keys, fetch, a1, r1) && SyncCourse(site, c, keys, fetch, a2, r2)
        ensures Replay(site.own, c, SyncOps(a1, r1)).byId == Replay(site.own, c, SyncOps(a2, r2)).byId
      {
        SameWithoutClash(site, c, keys, fetch, a1, r1, a2, r2);
      }
    }
  }

  lemma SameWithoutClash(site: Site, c: Cache, keys: seq<string>, fetch: Fetch,
                         a1: seq<Server>, r1: seq<string>, a2: seq<Server>, r2: seq<string>)
    requires Consistent(c) && !Clash(site, c, keys, fetch)
    requires SyncCourse(site, c, keys, fetch, a1, r1) && SyncCourse(site, c, keys, fetch, a2, r2)
    ensures Replay(site.own, c, SyncOps(a1, r1)).byId == Replay(site.own, c, SyncOps(a2, r2)).byId
  {
    SyncOutcome(site, c, keys, fetch, a1, r1);
    SyncOutcome(site, c, keys, fetch, a2, r2);
    var m1, m2 := Replay(site.own, c, SyncOps(a1, r1)).byId, Replay(site.own, c, SyncOps(a2, r2)).byId;
    assert m1.Keys == m2.Keys;
    forall id | id in m1 ensures m1[id] == m2[id] {
      SyncValue(site, c, keys, fetch, a1, r1, id);
      SyncValue(site, c, keys, fetch, a2, r2, id);
    }
  }

  lemma {:induction false} WorkOf(site: Site, known: map<string, Server>, keys: seq<string>, w: (string, string))
    returns (k: string)
    requires w in Works(site, known, keys)
    ensures k in keys && Eligible(site, k) == Some(w)
  {
    var last := keys[|keys| - 1];
    if Eligible(site, last) == Some(w) {
      k := last;
    } else {
      k := WorkOf(site, known, keys[..|keys| - 1], w);
    }
  }

  lemma {:induction false} AnswerOf(fetch: Fetch, works: seq<(string, string)>, sv: Server)
    returns (w: (string, string))
    requires sv in Fetched(fetch, works)
    ensures w in works && fetch(w.0, w.1) == Some(sv)
  {
    var last := works[|works| - 1];
    if fetch(last.0, last.1) == Some(sv) {
      w := last;
    } else {
      w := AnswerOf(fetch, works[..|works| - 1], sv);
    }
  }

  /** No two eligible keys of the snapshot name the same ID. */
  ghost predicate DistinctIds(site: Site, keys: seq<string>) {
    forall k, l :: k in keys && l in keys && Eligible(site, k).Some? && Eligible(site, l).Some? && k != l ==>
      Eligible(site, k).value.1 != Eligible(site, l).value.1
  }

  /** In particular the order never matters when the snapshot's IDs are distinct and every server that is fetched
      carries the ID of its key; failed fetches cannot clash. */
  lemma DistinctIdsNeverClash(site: Site, c: Cache, keys: seq<string>, fetch: Fetch)
    requires DistinctIds(site, keys)
    requires forall w :: w in Works(site, c.byId, keys) && fetch(w.0, w.1).Some? ==> fetch(w.0, w.1).value.id == w.1
    ensures !Clash(site, c, keys, fetch)
  {
    var works := Works(site, c.byId, keys);
    forall s, t | s in Fetched(fetch, works) && t in Fetched(fetch, works) && s.id == t.id ensures s == t {
      var w := AnswerOf(fetch, works, s);
      var v := AnswerOf(fetch, works, t);
      var k := WorkOf(site, c.byId, keys, w);
      var l := WorkOf(site, c.byId, keys, v);
    }
  }

  // ---------- watch events ----------

  /** A watch event; the payload of a put is what parsing its value gives. */
  datatype Event = Put(key: string, payload: Option<Server>) | Del(key: string)

  /** The cache operation a watch event causes, if any. */
  ghost function EventOps(site: Site, e: Event): seq<Op> {
    match Eligible(site, e.key)
    case None => []
    case Some((typ, id)) =>
      match e
      case Put(_, payload) => if payload.Some? then [Add(payload.value)] else []
      case Del(_) => [Delete(id)]
  }

  ghost function HandleAll(site: Site, c: Cache, es: seq<Event>): Cache {
    if es == [] then c else Replay(site.own, HandleAll(site, c, es[..|es| - 1]), EventOps(site, es[|es| - 1]))
  }

  lemma {:induction false} EventsKeepConsistent(site: Site, c: Cache, es: seq<Event>)
    requires Consistent(c)
    ensures Consistent(HandleAll(site, c, es))
  {
    if es != [] {
      var mid := HandleAll(site, c, es[..|es| - 1]);
      EventsKeepConsistent(site, c, es[..|es| - 1]);
      ReplayKeepsConsistent(site.own, mid, EventOps(site, es[|es| - 1]));
    }
  }

  /** What an event on a server's key does: nothing at all if a field has a slash or the type is ignored and the server
      is not this process; otherwise a put adds its payload, if that parses, and a delete removes the ID in the key. */
  lemma EventMeans(site: Site, c: Cache, e: Event, id: string, typ: string)
    requires e.key == GetKey(id, typ)
    ensures HandleAll(site, c, [e])
            == if '/' in id || '/' in typ || (typ in site.blacklist && id != site.own) then c
               else if e.Del? then Apply(site.own, c, Delete(id))
               else if e.payload.None? then c
               else Apply(site.own, c, Add(e.payload.value))
  {
    EligibleKey(site, id, typ);
    ReplayOne(site.own, c, EventOps(site, e));
    assert [e][..0] == [];
    assert HandleAll(site, c, [e]) == Replay(site.own, HandleAll(site, c, []), EventOps(site, e));
  }

  // ---------- the object ----------

  class ServiceDiscovery {
    const own: string
    const blacklist: seq<string>
    var byId: map<string, Server>
    var byType: map<string, map<string, Server>>
    /** What each registered listener has been told. */
    var listeners: seq<seq<Note>>

    ghost function View(): Cache
      reads this
    {
      Cache(byId, byType, listeners)
    }

    ghost function Here(): Site { Site(own, blacklist) }

    constructor (own: string, blacklist: seq<string>)
      ensures View() == Cache(map[], map[], []) && Consistent(View())
      ensures Here() == Site(own, blacklist)
    {
      this.own, this.blacklist := own, blacklist;
      byId, byType, listeners := map[], map[], [];
    }

    method AddListener()
      modifies this
      ensures View() == old(View()).(logs := old(listeners) + [[]])
    {
      listeners := listeners + [[]];
    }

    method NotifyListeners(n: Note)
      modifies this
      ensures View() == Notify(old(View()), n)
    {
      var i := 0;
      ghost var before := listeners;
      while i < |listeners|
        invariant 0 <= i <= |listeners| == |before|
        invariant byId == old(byId) && byType == old(byType)
        invariant forall k :: 0 <= k < |before| ==> listeners[k] == if k < i then before[k] + [n] else before[k]
      {
        listeners := listeners[i := listeners[i] + [n]];
        i := i + 1;
      }
      assert listeners == Notify(old(View()), n).logs;
    }

    method AddServer(sv: Server)
      modifies this
      ensures View() == Apply(own, old(View()), Add(sv))
    {
      if sv.id !in byId {
        byId := byId[sv.id := sv];
        if sv.typ !in byType {
          byType := byType[sv.typ := map[]];
        }
        byType := byType[sv.typ := byType[sv.typ][sv.id := sv]];
        if sv.id != own {
          NotifyListeners(Added(sv));
        }
      }
    }

    method DeleteServer(id: string)
      modifies this
      ensures View() == Apply(own, old(View()), Delete(id))
    {
      if id in byId {
        var sv := byId[id];
        byId := byId - {sv.id};
        if sv.typ in byType {
          byType := byType[sv.typ := byType[sv.typ] - {sv.id}];
        }
        NotifyListeners(Removed(sv));
      }
    }

    method IsServerTypeBlacklisted(typ: string) returns (listed: bool)
      ensures listed <==> typ in blacklist
    {
      for i := 0 to |blacklist|
        invariant typ !in blacklist[..i]
      {
        if blacklist[i] == typ {
          return true;
        }
      }
      return false;
    }

    /** Ranging over the by-ID map visits its keys in any order. */
    method DeleteLocalInvalidServers(actual: set<string>) returns (ghost removed: seq<string>)
      modifies this
      ensures View() == Replay(own, old(View()), Deletes(removed))
      ensures Elems(removed) == old(byId).Keys - actual
    {
      var todo := byId.Keys;
      removed := [];
      ghost var c := View();
      while todo != {}
        invariant todo <= c.byId.Keys
        invariant View() == Replay(own, c, Deletes(removed))
        invariant Elems(removed) == c.byId.Keys - todo - actual
        decreases |todo|
      {
        var k :| k in todo;
        todo := todo - {k};
        if k !in actual {
          DeleteServer(k);
          ReplayDeleteMore(own, c, removed, k);
          removed := removed + [k];
        }
      }
    }

    /** The parallel getter: whichever worker finishes next appends its server to the result, or nothing on an error. */
    method ParallelGet(works: seq<(string, string)>, fetch: Fetch) returns (result: seq<Server>)
      ensures multiset(result) == multiset(Fetched(fetch, works))
    {
      result := [];
      var pending := works;
      while pending != []
        invariant multiset(result) + multiset(Fetched(fetch, pending)) == multiset(Fetched(fetch, works))
        decreases |pending|
      {
        var i :| 0 <= i < |pending|;
        var sv := fetch(pending[i].0, pending[i].1);
        FetchedWithout(fetch, pending, i);
        FetchedOne(fetch, pending[i]);
        if sv.Some? {
          result := result + [sv.value];
        }
        pending := pending[..i] + pending[i + 1..];
      }
    }

    /** SyncServers on the keys of a snapshot, or on a failed query; the first sync and the later ones differ only in
        where `fetch` takes a payload from. */
    method SyncServers(snapshot: Option<seq<string>>, fetch: Fetch)
      returns (ok: bool, ghost arrived: seq<Server>, ghost removed: seq<string>)
      requires Consistent(View())
      modifies this
      ensures Consistent(View()) && ok == snapshot.Some?
      ensures !ok ==> View() == old(View())
      ensures ok ==> SyncCourse(Here(), old(View()), snapshot.value, fetch, arrived, removed)
                     && View() == Replay(own, old(View()), SyncOps(arrived, removed))
      ensures ok && UnderPrefix(Elems(snapshot.value)) ==>
                forall id :: id in byId ==> Backed(Here(), Elems(snapshot.value), id)
    {
      arrived, removed := [], [];
      if snapshot.None? {
        return false, [], [];
      }
      ghost var c := View();
      var keys := snapshot.value;
      var allIds, works := CollectWork(keys);
      var servers := ParallelGet(works, fetch);
      arrived := servers;
      for i := 0 to |servers|
        invariant View() == Replay(own, c, Adds(servers[..i]))
      {
        AddServer(servers[i]);
        ghost var ops := Adds(servers[..i + 1]);
        assert ops[..i] == Adds(servers[..i]);
      }
      assert servers[..|servers|] == servers;
      removed := DeleteLocalInvalidServers(allIds);
      ReplayConcat(own, c, Adds(arrived), Deletes(removed));
      ReplayKeepsConsistent(own, c, SyncOps(arrived, removed));
      if UnderPrefix(Elems(keys)) {
        forall id { SyncLeaves(Here(), c, keys, fetch, arrived, removed, id); }
      }
      return true, arrived, removed;
    }

    /** The loop over the snapshot: the IDs it backs and the servers to load. */
    method CollectWork(keys: seq<string>) returns (allIds: set<string>, works: seq<(string, string)>)
      ensures allIds == EligibleIds(Here(), Elems(keys))
      ensures works == Works(Here(), byId, keys)
    {
      allIds, works := {}, [];
      for i := 0 to |keys|
        invariant allIds == EligibleIds(Here(), Elems(keys[..i]))
        invariant works == Works(Here(), byId, keys[..i])
      {
        assert keys[..i + 1][..i] == keys[..i];
        assert keys[..i + 1] == keys[..i] + [keys[i]];
        ElemsAppend(keys[..i], keys[i]);
        var parsed := ParseEtcdKey(keys[i]);
        if parsed.Some? {
          var (typ, id) := parsed.value;
          var ignored := IsServerTypeBlacklisted(typ);
          if !(ignored && id != own) {
            allIds := allIds + {id};
            if id !in byId {
              works := works + [(typ, id)];
            }
          }
        }
      }
      assert keys[..|keys|] == keys;
    }

    /** The events of one watch response, in order. */
    method HandleWatchResponse(events: seq<Event>)
      modifies this
      ensures View() == HandleAll(Here(), old(View()), events)
    {
      ghost var c := View();
      for n := 0 to |events|
        invariant View() == HandleAll(Here(), c, events[..n])
      {
        assert events[..n + 1][..n] == events[..n];
        ghost var mid := View();
        var parsed := ParseEtcdKey(events[n].key);
        if parsed.Some? {
          var (typ, id) := parsed.value;
          var ignored := IsServerTypeBlacklisted(typ);
          if !(ignored && own != id) {
            match events[n] {
              case Put(_, payload) =>
                if payload.Some? {
                  AddServer(payload.value);
                }
              case Del(_) =>
                DeleteServer(id);
            }
          }
        }
        ReplayOne(own, mid, EventOps(Here(), events[n]));
      }
      assert events[..|events|] == events;
    }

    /** A copy of what is filed under the type, or an error exactly when that is nothing. With the indexes in agreement
        these are exactly the servers of the type that are known by ID. */
    method GetServersByType(typ: string) returns (servers: Option<map<string, Server>>)
      ensures servers.None? <==> Bucket(View(), typ) == map[]
      ensures servers.Some? ==> servers.value == Bucket(View(), typ)
      ensures Consistent(View()) ==> Bucket(View(), typ) == map id | id in byId && byId[id].typ == typ :: byId[id]
    {
      if typ in byType && |byType[typ]| > 0 {
        var copy := map[];
        var todo := byType[typ].Keys;
        while todo != {}
          invariant todo <= byType[typ].Keys
          invariant copy == map id | id in byType[typ].Keys - todo :: byType[typ][id]
          decreases |todo|
        {
          var k :| k in todo;
          copy := copy[k := byType[typ][k]];
          todo := todo - {k};
        }
        assert |Bucket(View(), typ).Keys| > 0;
        return Some(copy);
      }
      return None;
    }

    /** A server is found by ID exactly when it is listed under some type, and then it is the one listed under its
        own. */
    method GetServer(id: string) returns (sv: Option<Server>)
      ensures sv == if id in byId then Some(byId[id]) else None
      ensures Consistent(View()) && sv.None? ==> forall typ :: id !in Bucket(View(), typ)
      ensures Consistent(View()) && sv.Some? ==>
                && sv.value.id == id
                && (forall typ :: id in Bucket(View(), typ) <==> typ == sv.value.typ)
                && (forall typ :: id in Bucket(View(), typ) ==> Bucket(View(), typ)[id] == sv.value)
    {
      if id in byId {
        return Some(byId[id]);
      }
      return None;
    }
  }

  lemma ReplayDeleteMore(own: string, c: Cache, ids: seq<string>, id: string)
    ensures Replay(own, c, Deletes(ids + [id])) == Apply(own, Replay(own, c, Deletes(ids)), Delete(id))
    ensures Elems(ids + [id]) == Elems(ids) + {id}
  {
    var ops := Deletes(ids + [id]);
    assert ops[..|ops| - 1] == Deletes(ids);
    ElemsAppend(ids, id);
  }

  lemma ReplayOne(own: string, c: Cache, ops: seq<Op>)
    requires |ops| <= 1
    ensures Replay(own, c, ops) == if ops == [] then c else Apply(own, c, ops[0])
  {
    if ops != [] { assert ops[..0] == []; }
  }

  lemma {:induction false} FetchedConcat(fetch: Fetch, a: seq<(string, string)>, b: seq<(string, string)>)
    ensures Fetched(fetch, a + b) == Fetched(fetch, a) + Fetched(fetch, b)
    decreases |b|
  {
    if b == [] {
      assert a + b == a;
    } else {
      assert (a + b)[..|a + b| - 1] == a + b[..|b| - 1];
      FetchedConcat(fetch, a, b[..|b| - 1]);
    }
  }

  lemma SplitAt(works: seq<(string, string)>, i: nat)
    requires i < |works|
    ensures works == works[..i] + ([works[i]] + works[i + 1..])
  {
  }

  lemma FetchedThree(fetch: Fetch, a: seq<(string, string)>, w: seq<(string, string)>, b: seq<(string, string)>)
    ensures Fetched(fetch, a + (w + b)) == Fetched(fetch, a) + (Fetched(fetch, w) + Fetched(fetch, b))
  {
    FetchedConcat(fetch, a, w + b);
    FetchedConcat(fetch, w, b);
  }

  /** Which work finishes first does not matter for what is left. */
  lemma FetchedWithout(fetch: Fetch, works: seq<(string, string)>, i: nat)
    requires i < |works|
    ensures multiset(Fetched(fetch, works))
            == multiset(Fetched(fetch, works[..i] + works[i + 1..])) + multiset(Fetched(fetch, [works[i]]))
  {
    SplitAt(works, i);
    FetchedThree(fetch, works[..i], [works[i]], works[i + 1..]);
    FetchedConcat(fetch, works[..i], works[i + 1..]);
    MoveToEnd(Fetched(fetch, works[..i]), Fetched(fetch, [works[i]]), Fetched(fetch, works[i + 1..]));
  }

  lemma MoveToEnd(a: seq<Server>, w: seq<Server>, b: seq<Server>)
    ensures multiset(a + (w + b)) == multiset(a + b) + multiset(w)
  {
    assert multiset(a + (w + b)) == multiset(a) + multiset(w + b);
  }

  lemma FetchedOne(fetch: Fetch, w: (string, string))
    ensures Fetched(fetch, [w]) == if fetch(w.0, w.1).Some? then [fetch(w.0, w.1).value] else []
  {
    assert [w][..0] == [];
  }
}
