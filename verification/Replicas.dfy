/** The local replica kept by cluster/etcd_service_discovery.go, as a value: the servers by ID, the same servers by
    type, and what every listener has been told. Each operation is one atomic step here. */
module Replicas {
  import opened Base

  datatype Server = Server(id: string, typ: string, metadata: map<string, string>, hostname: string)

  datatype Note = Added(sv: Server) | Removed(sv: Server)

  /** logs[k] is the sequence of calls the k-th listener has received. */
  datatype Cache = Cache(byId: map<string, Server>, byType: map<string, map<string, Server>>, logs: seq<seq<Note>>)

  datatype Op = Add(sv: Server) | Delete(id: string)

  ghost function Notify(c: Cache, n: Note): Cache {
    c.(logs := seq(|c.logs|, k requires 0 <= k < |c.logs| => c.logs[k] + [n]))
  }

  ghost function Bucket(c: Cache, typ: string): map<string, Server> { if typ in c.byType then c.byType[typ] else map[] }

  ghost function Store(c: Cache, sv: Server): Cache { c.(byId := c.byId[sv.id := sv]) }

  ghost function Index(c: Cache, sv: Server): Cache { c.(byType := c.byType[sv.typ := Bucket(c, sv.typ)[sv.id := sv]]) }

  ghost function Unstore(c: Cache, sv: Server): Cache { c.(byId := c.byId - {sv.id}) }

  ghost function Unindex(c: Cache, sv: Server): Cache {
    if sv.typ in c.byType then c.(byType := c.byType[sv.typ := c.byType[sv.typ] - {sv.id}]) else c
  }

  /** The own server is not announced to listeners when it is added, but its removal is. */
  ghost function Announce(own: string, c: Cache, sv: Server): Cache { if sv.id != own then Notify(c, Added(sv)) else c }

  /** addServer: the first write of an ID wins. */
  ghost function AddServer(own: string, c: Cache, sv: Server): Cache {
    if sv.id in c.byId then c else Announce(own, Index(Store(c, sv), sv), sv)
  }

  /** deleteServer */
  ghost function DeleteServer(c: Cache, id: string): Cache {
    if id !in c.byId then c else Notify(Unindex(Unstore(c, c.byId[id]), c.byId[id]), Removed(c.byId[id]))
  }

  ghost function Apply(own: string, c: Cache, op: Op): Cache {
    match op
    case Add(sv) => AddServer(own, c, sv)
    case Delete(id) => DeleteServer(c, id)
  }

  ghost function Replay(own: string, c: Cache, ops: seq<Op>): Cache {
    if ops == [] then c else Apply(own, Replay(own, c, ops[..|ops| - 1]), ops[|ops| - 1])
  }

  lemma {:induction false} ReplayConcat(own: string, c: Cache, a: seq<Op>, b: seq<Op>)
    ensures Replay(own, c, a + b) == Replay(own, Replay(own, c, a), b)
    decreases |b|
  {
    if b == [] {
      assert a + b == a;
    } else {
      assert (a + b)[..|a + b| - 1] == a + b[..|b| - 1];
      ReplayConcat(own, c, a, b[..|b| - 1]);
    }
  }

  // ---------- the two indexes agree ----------

  /** byType[t][id] = sv iff byId[id] = sv and sv has type t; and every server is stored under its own ID. */
  ghost predicate Consistent(c: Cache) {
    && (forall id :: id in c.byId ==>
          && c.byId[id].id == id && id in Bucket(c, c.byId[id].typ)
          && Bucket(c, c.byId[id].typ)[id] == c.byId[id])
    && (forall t, id :: id in Bucket(c, t) ==> id in c.byId && c.byId[id] == Bucket(c, t)[id] && c.byId[id].typ == t)
  }

  /** Every server that is filed under a type has that type and is filed under its own ID. This holds even between the
      two halves of an operation, when the indexes do not agree. */
  ghost predicate Filed(c: Cache) {
    forall t, id :: id in Bucket(c, t) ==> Bucket(c, t)[id].typ == t && Bucket(c, t)[id].id == id
  }

  lemma AddKeepsConsistent(own: string, c: Cache, sv: Server)
    requires Consistent(c) && sv.id !in c.byId
    ensures Consistent(AddServer(own, c, sv))
  {
    var c1 := AddServer(own, c, sv);
    assert forall t :: Bucket(c1, t) == if t == sv.typ then Bucket(c, t)[sv.id := sv] else Bucket(c, t);
  }

  lemma DeleteKeepsConsistent(c: Cache, id: string)
    requires Consistent(c) && id in c.byId
    ensures Consistent(DeleteServer(c, id))
  {
    var c1, sv := DeleteServer(c, id), c.byId[id];
    assert id in Bucket(c, sv.typ);
    assert forall t :: Bucket(c1, t) == if t == sv.typ then Bucket(c, t) - {id} else Bucket(c, t);
  }

  lemma ApplyKeepsConsistent(own: string, c: Cache, op: Op)
    requires Consistent(c)
    ensures Consistent(Apply(own, c, op))
  {
    match op {
      case Add(sv) => if sv.id !in c.byId { AddKeepsConsistent(own, c, sv); }
      case Delete(id) => if id in c.byId { DeleteKeepsConsistent(c, id); }
    }
  }

  lemma {:induction false} ReplayKeepsConsistent(own: string, c: Cache, ops: seq<Op>)
    requires Consistent(c)
    ensures Consistent(Replay(own, c, ops))
  {
    if ops != [] {
      ReplayKeepsConsistent(own, c, ops[..|ops| - 1]);
      ApplyKeepsConsistent(own, Replay(own, c, ops[..|ops| - 1]), ops[|ops| - 1]);
    }
  }

  // ---------- listeners ----------

  /** A listener's own picture of the other servers after `log`, starting from `m`; None when the log tells it to add a
      server it has, or to remove one it does not have. */
  ghost function Track(own: string, m: map<string, Server>, log: seq<Note>): Option<map<string, Server>> {
    if log == [] then Some(m) else Hear(own, Track(own, m, log[..|log| - 1]), log[|log| - 1])
  }

  ghost function Hear(own: string, picture: Option<map<string, Server>>, n: Note): Option<map<string, Server>> {
    match picture
    case None => None
    case Some(k) =>
      match n
      case Added(sv) => if sv.id in k || sv.id == own then None else Some(k[sv.id := sv])
      case Removed(sv) =>
        if sv.id == own then Some(k)
        else if sv.id in k && k[sv.id] == sv then Some(k - {sv.id})
        else None
  }

  lemma TrackOne(own: string, m: map<string, Server>, n: Note)
    ensures n.Added? && n.sv.id != own && n.sv.id !in m ==> Track(own, m, [n]) == Some(m[n.sv.id := n.sv])
    ensures n.Removed? && n.sv.id == own ==> Track(own, m, [n]) == Some(m)
    ensures n.Removed? && n.sv.id != own && n.sv.id in m && m[n.sv.id] == n.sv ==>
              Track(own, m, [n]) == Some(m - {n.sv.id})
  {
    assert [n][..0] == [];
    assert Track(own, m, [n][..0]) == Some(m);
  }

  /** Listener k, told about the step from `c` to `c1`, can follow it. */
  ghost predicate Followed(own: string, c: Cache, c1: Cache, k: nat) {
    && k < |c.logs| == |c1.logs| && c.logs[k] <= c1.logs[k]
    && Track(own, c.byId - {own}, c1.logs[k][|c.logs[k]|..]) == Some(c1.byId - {own})
  }

  lemma AddIsFollowed(own: string, c: Cache, sv: Server, k: nat)
    requires k < |c.logs| && sv.id !in c.byId
    ensures Followed(own, c, AddServer(own, c, sv), k)
  {
    var c1 := AddServer(own, c, sv);
    TrackOne(own, c.byId - {own}, Added(sv));
    assert c1.logs[k][|c.logs[k]|..] == if sv.id == own then [] else [Added(sv)];
    assert c1.byId - {own} == if sv.id == own then c.byId - {own} else (c.byId - {own})[sv.id := sv];
  }

  lemma DeleteIsFollowed(own: string, c: Cache, id: string, k: nat)
    requires k < |c.logs| && id in c.byId && c.byId[id].id == id
    ensures Followed(own, c, DeleteServer(c, id), k)
  {
    var c1 := DeleteServer(c, id);
    TrackOne(own, c.byId - {own}, Removed(c.byId[id]));
    assert c1.logs[k][|c.logs[k]|..] == [Removed(c.byId[id])];
    assert c1.byId - {own} == if id == own then c.byId - {own} else (c.byId - {own}) - {id};
  }

  /** Each operation tells every listener exactly what it needs to follow along. */
  lemma ApplyIsFollowed(own: string, c: Cache, op: Op, k: nat)
    requires Consistent(c) && k < |c.logs|
    ensures Followed(own, c, Apply(own, c, op), k)
  {
    if op.Add? && op.sv.id !in c.byId {
      AddIsFollowed(own, c, op.sv, k);
    } else if op.Delete? && op.id in c.byId {
      DeleteIsFollowed(own, c, op.id, k);
    } else {
      assert c.logs[k][|c.logs[k]|..] == [];
    }
  }

  lemma {:induction false} TrackConcat(own: string, m: map<string, Server>, a: seq<Note>, b: seq<Note>)
    requires Track(own, m, a).Some?
    ensures Track(own, m, a + b) == Track(own, Track(own, m, a).value, b)
    decreases |b|
  {
    if b == [] {
      assert a + b == a;
    } else {
      var all, last := a + b, b[|b| - 1];
      assert all[..|all| - 1] == a + b[..|b| - 1] && all[|all| - 1] == last;
      TrackConcat(own, m, a, b[..|b| - 1]);
      assert Track(own, m, all) == Hear(own, Track(own, m, a + b[..|b| - 1]), last);
    }
  }

  /** Listener replay, over any run from any moment: folding what a listener has been told since rebuilds exactly the
      by-ID map without the own server. */
  lemma {:induction false} ListenerRebuilds(own: string, c: Cache, ops: seq<Op>, k: nat)
    requires Consistent(c) && k < |c.logs|
    ensures Followed(own, c, Replay(own, c, ops), k)
  {
    if ops == [] {
      assert c.logs[k][|c.logs[k]|..] == [];
    } else {
      var mid := Replay(own, c, ops[..|ops| - 1]);
      ListenerRebuilds(own, c, ops[..|ops| - 1], k);
      ReplayKeepsConsistent(own, c, ops[..|ops| - 1]);
      ApplyIsFollowed(own, mid, ops[|ops| - 1], k);
      var c1 := Replay(own, c, ops);
      var a, b := mid.logs[k][|c.logs[k]|..], c1.logs[k][|mid.logs[k]|..];
      assert c1.logs[k][|c.logs[k]|..] == a + b;
      TrackConcat(own, c.byId - {own}, a, b);
    }
  }

  /** The notes of a log that concern one ID. */
  ghost function About(log: seq<Note>, id: string): seq<Note> {
    if log == [] then []
    else About(log[..|log| - 1], id) + if log[|log| - 1].sv.id == id then [log[|log| - 1]] else []
  }

  ghost predicate Alternate(known: bool, notes: seq<Note>) {
    forall i :: 0 <= i < |notes| ==> (notes[i].Added? <==> known == (i % 2 == 1))
  }

  lemma {:induction false} FollowedNotesAlternate(own: string, m: map<string, Server>, log: seq<Note>, id: string)
    requires id != own && Track(own, m, log).Some?
    ensures Alternate(id in m, About(log, id))
    ensures id in Track(own, m, log).value <==> (id in m) == (|About(log, id)| % 2 == 0)
  {
    if log != [] {
      FollowedNotesAlternate(own, m, log[..|log| - 1], id);
    }
  }

  /** Over every run from any moment, the adds and removes that a listener is told about another ID alternate, starting
      with an add if it was not known; and the last one says whether it is known now. */
  lemma NotesAlternate(own: string, c: Cache, ops: seq<Op>, k: nat, id: string)
    requires Consistent(c) && k < |c.logs| && id != own
    ensures var c1 := Replay(own, c, ops);
            && |c1.logs| == |c.logs| && |c.logs[k]| <= |c1.logs[k]|
            && var notes := About(c1.logs[k][|c.logs[k]|..], id);
               && Alternate(id in c.byId, notes)
               && (id in c1.byId <==> (id in c.byId) == (|notes| % 2 == 0))
  {
    ListenerRebuilds(own, c, ops, k);
    FollowedNotesAlternate(own, c.byId - {own}, Replay(own, c, ops).logs[k][|c.logs[k]|..], id);
  }

  ghost function AddedOf(id: string): Note -> bool { (n: Note) => n.Added? && n.sv.id == id }

  ghost function RemovedOf(id: string): Note -> bool { (n: Note) => n.Removed? && n.sv.id == id }

  /** How often `id` came into, or went out of, the by-ID map. */
  ghost function Arrivals(own: string, c: Cache, ops: seq<Op>, id: string): nat {
    if ops == [] then 0
    else
      var before := Replay(own, c, ops[..|ops| - 1]);
      Arrivals(own, c, ops[..|ops| - 1], id)
      + if id !in before.byId && id in Replay(own, c, ops).byId then 1 else 0
  }

  ghost function Departures(own: string, c: Cache, ops: seq<Op>, id: string): nat {
    if ops == [] then 0
    else
      var before := Replay(own, c, ops[..|ops| - 1]);
      Departures(own, c, ops[..|ops| - 1], id)
      + if id in before.byId && id !in Replay(own, c, ops).byId then 1 else 0
  }

  /** The most that one operation tells a listener. */
  lemma ApplyTells(own: string, c: Cache, op: Op, k: nat, id: string) returns (told: seq<Note>)
    requires Consistent(c) && k < |c.logs|
    ensures var c1 := Apply(own, c, op);
            && |c1.logs| == |c.logs| && c1.logs[k] == c.logs[k] + told
            && HowMany(told, RemovedOf(id)) == (if id in c.byId && id !in c1.byId then 1 else 0)
            && HowMany(told, AddedOf(id)) == (if id != own && id !in c.byId && id in c1.byId then 1 else 0)
  {
    told := [];
    if op.Add? && op.sv.id !in c.byId && op.sv.id != own {
      told := [Added(op.sv)];
    } else if op.Delete? && op.id in c.byId {
      told := [Removed(c.byId[op.id])];
    }
    if told != [] {
      assert [] + told == told;
      CountAppend([], told[0], RemovedOf(id));
      CountAppend([], told[0], AddedOf(id));
    }
  }

  /** Over every run from any moment a listener is told of every departure of every server, the own one included, and of
      every arrival except those of the own one; of each exactly once. */
  lemma {:induction false} ToldExactly(own: string, c: Cache, ops: seq<Op>, k: nat, id: string)
    requires Consistent(c) && k < |c.logs|
    ensures var c1 := Replay(own, c, ops);
            && |c1.logs| == |c.logs| && c.logs[k] <= c1.logs[k]
            && var notes := c1.logs[k][|c.logs[k]|..];
               && HowMany(notes, RemovedOf(id)) == Departures(own, c, ops, id)
               && HowMany(notes, AddedOf(id)) == if id == own then 0 else Arrivals(own, c, ops, id)
  {
    if ops == [] {
      assert c.logs[k][|c.logs[k]|..] == [];
    } else {
      var before, mid := ops[..|ops| - 1], Replay(own, c, ops[..|ops| - 1]);
      ToldExactly(own, c, before, k, id);
      ReplayKeepsConsistent(own, c, before);
      var told := ApplyTells(own, mid, ops[|ops| - 1], k, id);
      ToldMore(c, mid, Replay(own, c, ops), k, told, id);
    }
  }

  lemma ToldMore(c: Cache, mid: Cache, c1: Cache, k: nat, told: seq<Note>, id: string)
    requires k < |c.logs| == |mid.logs| == |c1.logs| && c.logs[k] <= mid.logs[k] && c1.logs[k] == mid.logs[k] + told
    ensures c.logs[k] <= c1.logs[k]
    ensures var notes, notes1 := mid.logs[k][|c.logs[k]|..], c1.logs[k][|c.logs[k]|..];
            && HowMany(notes1, RemovedOf(id)) == HowMany(notes, RemovedOf(id)) + HowMany(told, RemovedOf(id))
            && HowMany(notes1, AddedOf(id)) == HowMany(notes, AddedOf(id)) + HowMany(told, AddedOf(id))
  {
    var notes := mid.logs[k][|c.logs[k]|..];
    assert c1.logs[k][|c.logs[k]|..] == notes + told;
    CountConcat(notes, told, RemovedOf(id));
    CountConcat(notes, told, AddedOf(id));
  }

  // ---------- what a batch of adds or deletes does to the by-ID map ----------

  ghost function Adds(svs: seq<Server>): seq<Op> { seq(|svs|, i requires 0 <= i < |svs| => Add(svs[i])) }

  ghost function Deletes(ids: seq<string>): seq<Op> { seq(|ids|, i requires 0 <= i < |ids| => Delete(ids[i])) }

  /** The first server with a given ID. */
  ghost function First(svs: seq<Server>, id: string): (r: Option<Server>)
    ensures r.Some? ==> r.value in svs && r.value.id == id
    ensures r.None? <==> forall sv :: sv in svs ==> sv.id != id
  {
    if svs == [] then None
    else
      var p := First(svs[..|svs| - 1], id);
      if p.Some? then p else if svs[|svs| - 1].id == id then Some(svs[|svs| - 1]) else None
  }

  ghost function IdsOf(svs: seq<Server>): set<string> { set sv | sv in svs :: sv.id }

  lemma {:induction false} AddsAt(own: string, c: Cache, svs: seq<Server>, id: string)
    ensures var m := Replay(own, c, Adds(svs)).byId;
            && (id in m <==> id in c.byId || First(svs, id).Some?)
            && (id in m ==> m[id] == if id in c.byId then c.byId[id] else First(svs, id).value)
  {
    if svs != [] {
      var rest := svs[..|svs| - 1];
      assert Adds(svs)[..|svs| - 1] == Adds(rest);
      AddsAt(own, c, rest, id);
    }
  }

  /** After a batch of adds every ID has the server it had, or else the first one added for it. */
  lemma AddsById(own: string, c: Cache, svs: seq<Server>)
    ensures var m := Replay(own, c, Adds(svs)).byId;
            && (forall id :: id in m <==> id in c.byId || First(svs, id).Some?)
            && (forall id :: id in m ==> m[id] == if id in c.byId then c.byId[id] else First(svs, id).value)
  {
    forall id { AddsAt(own, c, svs, id); }
  }

  lemma {:induction false} DeletesById(own: string, c: Cache, ids: seq<string>)
    requires Consistent(c)
    ensures Replay(own, c, Deletes(ids)).byId == c.byId - Elems(ids)
  {
    if ids != [] {
      var rest, last := ids[..|ids| - 1], ids[|ids| - 1];
      assert Deletes(ids)[..|ids| - 1] == Deletes(rest);
      assert ids == rest + [last];
      ElemsAppend(rest, last);
      DeletesById(own, c, rest);
      ReplayKeepsConsistent(own, c, Deletes(rest));
    }
  }
}
