/** The route dictionary of conn/message/message.go: two maps that compress a route to a code
    and a code back to its route. */
module Dictionary {
  import opened Base

  datatype Dict = Dict(routes: map<Bytes, Uint16>, codes: map<Uint16, Bytes>)

  datatype Entry = Entry(route: Bytes, code: Uint16)

  /** The two maps are each other's inverse. */
  ghost predicate Inverse(d: Dict) {
    && (forall r :: r in d.routes ==> d.routes[r] in d.codes && d.codes[d.routes[r]] == r)
    && (forall c :: c in d.codes ==> d.codes[c] in d.routes && d.routes[d.codes[c]] == c)
  }

  /** Everything `d` says, `e` says too. */
  ghost predicate Grown(d: Dict, e: Dict) {
    && (forall r :: r in d.routes ==> r in e.routes && e.routes[r] == d.routes[r])
    && (forall c :: c in d.codes ==> c in e.codes && e.codes[c] == d.codes[c])
  }

  /** `order` is one of the orders in which ranging over the map `dict` may visit its entries. */
  ghost predicate Enumerates(order: seq<Entry>, dict: map<Bytes, Uint16>) {
    && (forall i :: 0 <= i < |order| ==> order[i].route in dict && dict[order[i].route] == order[i].code)
    && (forall i, j :: 0 <= i < j < |order| ==> order[i].route != order[j].route)
    && (forall r :: r in dict ==> Entry(r, dict[r]) in order)
  }

  /** What SetDictionary does for one visiting order: entries go in until one clashes. */
  ghost function Install(d: Dict, trim: Bytes -> Bytes, order: seq<Entry>): (Dict, bool)
    decreases |order|
  {
    if order == [] then (d, true)
    else
      var r, c := trim(order[0].route), order[0].code;
      if r in d.routes || c in d.codes then (d, false)
      else Install(Dict(d.routes[r := c], d.codes[c := r]), trim, order[1..])
  }

  /** The order-free reason why every entry of `dict` can be installed: after trimming no route and no
      code is taken already or used twice. */
  ghost predicate Installable(d: Dict, trim: Bytes -> Bytes, dict: map<Bytes, Uint16>) {
    && (forall r :: r in dict ==> trim(r) !in d.routes && dict[r] !in d.codes)
    && (forall r, s :: r in dict && s in dict && r != s ==> trim(r) != trim(s) && dict[r] != dict[s])
  }

  /** Installable, said about one order; the form the induction needs. */
  ghost predicate NoClash(d: Dict, trim: Bytes -> Bytes, order: seq<Entry>) {
    && (forall i :: 0 <= i < |order| ==> trim(order[i].route) !in d.routes && order[i].code !in d.codes)
    && (forall i, j :: 0 <= i < j < |order| ==>
          trim(order[i].route) != trim(order[j].route) && order[i].code != order[j].code)
  }

  /** Complete or cut short, an installation keeps the maps inverse and forgets nothing. */
  lemma {:induction false} InstallKeepsInverse(d: Dict, trim: Bytes -> Bytes, order: seq<Entry>)
    requires Inverse(d)
    ensures Inverse(Install(d, trim, order).0)
    ensures Grown(d, Install(d, trim, order).0)
    decreases |order|
  {
    if order != [] {
      var r, c := trim(order[0].route), order[0].code;
      if r !in d.routes && c !in d.codes {
        InstallKeepsInverse(Dict(d.routes[r := c], d.codes[c := r]), trim, order[1..]);
      }
    }
  }

  lemma {:induction false} InstallOkIff(d: Dict, trim: Bytes -> Bytes, order: seq<Entry>)
    ensures Install(d, trim, order).1 <==> NoClash(d, trim, order)
    decreases |order|
  {
    if order != [] {
      var r, c := trim(order[0].route), order[0].code;
      if r !in d.routes && c !in d.codes {
        var d1, rest := Dict(d.routes[r := c], d.codes[c := r]), order[1..];
        InstallOkIff(d1, trim, rest);
        if NoClash(d, trim, order) {
          assert forall i :: 0 <= i < |rest| ==> rest[i] == order[i + 1];
        } else if NoClash(d1, trim, rest) {
          assert forall i :: 0 < i < |order| ==> order[i] == rest[i - 1];
          assert NoClash(d, trim, order);
        }
      }
    }
  }

  /** `e` is `d` with exactly the given entries, their routes trimmed, added to both maps. */
  ghost predicate Extends(d: Dict, trim: Bytes -> Bytes, entries: seq<Entry>, e: Dict) {
    && Grown(d, e)
    && (forall i :: 0 <= i < |entries| ==>
          && trim(entries[i].route) in e.routes && e.routes[trim(entries[i].route)] == entries[i].code
          && entries[i].code in e.codes && e.codes[entries[i].code] == trim(entries[i].route))
    && (forall r :: r in e.routes ==>
          r in d.routes || exists i :: 0 <= i < |entries| && trim(entries[i].route) == r)
    && (forall c :: c in e.codes ==> c in d.codes || exists i :: 0 <= i < |entries| && entries[i].code == c)
  }

  lemma ExtendsFirst(d: Dict, trim: Bytes -> Bytes, entries: seq<Entry>, e: Dict)
    requires entries != []
    requires var r, c := trim(entries[0].route), entries[0].code;
             && r !in d.routes && c !in d.codes
             && Extends(Dict(d.routes[r := c], d.codes[c := r]), trim, entries[1..], e)
    ensures Extends(d, trim, entries, e)
  {
    var rest := entries[1..];
    assert forall i :: 0 < i < |entries| ==> entries[i] == rest[i - 1];
    assert forall i :: 0 <= i < |rest| ==> rest[i] == entries[i + 1];
  }

  lemma {:induction false} InstallResult(d: Dict, trim: Bytes -> Bytes, order: seq<Entry>)
    requires Install(d, trim, order).1
    ensures Extends(d, trim, order, Install(d, trim, order).0)
    decreases |order|
  {
    if order != [] {
      var r, c := trim(order[0].route), order[0].code;
      InstallResult(Dict(d.routes[r := c], d.codes[c := r]), trim, order[1..]);
      ExtendsFirst(d, trim, order, Install(d, trim, order).0);
    }
  }

  /** A call leaves exactly the entries that come before the first one that clashes with the dictionary or with an entry
      before it: all of them if none does. */
  lemma {:induction false} InstallLeavesPrefix(d: Dict, trim: Bytes -> Bytes, order: seq<Entry>) returns (k: nat)
    ensures k <= |order| && NoClash(d, trim, order[..k]) && Extends(d, trim, order[..k], Install(d, trim, order).0)
    ensures if Install(d, trim, order).1 then k == |order|
            else k < |order| && !NoClash(d, trim, order[..k + 1])
  {
    k := FirstClash(d, trim, order);
    InstallOkIff(d, trim, order[..k]);
    InstallResult(d, trim, order[..k]);
    if k < |order| { InstallOkIff(d, trim, order[..k + 1]); }
  }

  lemma {:induction false} FirstClash(d: Dict, trim: Bytes -> Bytes, order: seq<Entry>) returns (k: nat)
    ensures k <= |order| && Install(d, trim, order[..k]) == (Install(d, trim, order).0, true)
    ensures if Install(d, trim, order).1 then k == |order|
            else k < |order| && !Install(d, trim, order[..k + 1]).1
    decreases |order|
  {
    k := 0;
    if order != [] {
      var r, c := trim(order[0].route), order[0].code;
      if r !in d.routes && c !in d.codes {
        k := FirstClash(Dict(d.routes[r := c], d.codes[c := r]), trim, order[1..]);
        assert order[..k + 1][1..] == order[1..][..k];
        if k + 1 < |order| { assert order[..k + 2][1..] == order[1..][..k + 1]; }
        k := k + 1;
      }
    }
  }

  lemma NoClashIffInstallable(d: Dict, trim: Bytes -> Bytes, dict: map<Bytes, Uint16>, order: seq<Entry>)
    requires Enumerates(order, dict)
    ensures NoClash(d, trim, order) <==> Installable(d, trim, dict)
  {
    if NoClash(d, trim, order) {
      forall r | r in dict ensures trim(r) !in d.routes && dict[r] !in d.codes {
        assert Entry(r, dict[r]) in order;
      }
      forall r, s | r in dict && s in dict && r != s ensures trim(r) != trim(s) && dict[r] != dict[s] {
        var i :| 0 <= i < |order| && order[i] == Entry(r, dict[r]);
        var j :| 0 <= j < |order| && order[j] == Entry(s, dict[s]);
      }
    }
  }

  /** Whether a call succeeds, and what it leaves when it does, does not depend on the visiting order. */
  lemma InstallOrderIrrelevant(d: Dict, trim: Bytes -> Bytes, dict: map<Bytes, Uint16>, o1: seq<Entry>, o2: seq<Entry>)
    requires Inverse(d)
    requires Enumerates(o1, dict) && Enumerates(o2, dict)
    ensures Install(d, trim, o1).1 == Install(d, trim, o2).1
    ensures Install(d, trim, o1).1 ==> Install(d, trim, o1).0 == Install(d, trim, o2).0
  {
    InstallOkIff(d, trim, o1);
    InstallOkIff(d, trim, o2);
    NoClashIffInstallable(d, trim, dict, o1);
    NoClashIffInstallable(d, trim, dict, o2);
    if NoClash(d, trim, o1) {
      var e1, e2 := Install(d, trim, o1).0, Install(d, trim, o2).0;
      InstallRoutesWithin(d, trim, dict, o1, o2);
      InstallRoutesWithin(d, trim, dict, o2, o1);
      assert e1.routes == e2.routes;
      InstallKeepsInverse(d, trim, o1);
      InstallKeepsInverse(d, trim, o2);
      assert e1.codes == e2.codes;
    }
  }

  /** One call, summed up without its visiting order. */
  lemma InstallMeans(d: Dict, trim: Bytes -> Bytes, dict: map<Bytes, Uint16>, order: seq<Entry>)
    requires Enumerates(order, dict)
    ensures Install(d, trim, order).1 <==> Installable(d, trim, dict)
    ensures Inverse(d) ==> Inverse(Install(d, trim, order).0) && Grown(d, Install(d, trim, order).0)
  {
    InstallOkIff(d, trim, order);
    NoClashIffInstallable(d, trim, dict, order);
    if Inverse(d) { InstallKeepsInverse(d, trim, order); }
  }

  lemma InstallRoutesWithin(d: Dict, trim: Bytes -> Bytes, dict: map<Bytes, Uint16>, o1: seq<Entry>, o2: seq<Entry>)
    requires Enumerates(o1, dict) && Enumerates(o2, dict)
    requires NoClash(d, trim, o1) && NoClash(d, trim, o2)
    ensures forall r :: r in Install(d, trim, o1).0.routes ==>
              r in Install(d, trim, o2).0.routes && Install(d, trim, o2).0.routes[r] == Install(d, trim, o1).0.routes[r]
  {
    InstallOkIff(d, trim, o1);
    InstallOkIff(d, trim, o2);
    InstallResult(d, trim, o1);
    InstallResult(d, trim, o2);
    var e1, e2 := Install(d, trim, o1).0, Install(d, trim, o2).0;
    forall r | r in e1.routes ensures r in e2.routes && e2.routes[r] == e1.routes[r] {
      if r !in d.routes {
        var i :| 0 <= i < |o1| && trim(o1[i].route) == r;
        assert Entry(o1[i].route, dict[o1[i].route]) in o2;
        var j :| 0 <= j < |o2| && o2[j] == o1[i];
      }
    }
  }

  /** The dictionary after a sequence of SetDictionary calls, whether they succeed or not. */
  ghost function InstallAll(d: Dict, trim: Bytes -> Bytes, calls: seq<seq<Entry>>): Dict
    decreases |calls|
  {
    if calls == [] then d else InstallAll(Install(d, trim, calls[0]).0, trim, calls[1..])
  }

  lemma {:induction false} CallsKeepInverse(d: Dict, trim: Bytes -> Bytes, calls: seq<seq<Entry>>)
    requires Inverse(d)
    ensures Inverse(InstallAll(d, trim, calls))
    ensures Grown(d, InstallAll(d, trim, calls))
    decreases |calls|
  {
    if calls != [] {
      InstallKeepsInverse(d, trim, calls[0]);
      CallsKeepInverse(Install(d, trim, calls[0]).0, trim, calls[1..]);
    }
  }

  /** The package-level maps `routes` and `codes`. */
  class RouteDictionary {
    /** strings.TrimSpace */
    const trim: Bytes -> Bytes
    var routes: map<Bytes, Uint16>
    var codes: map<Uint16, Bytes>

    ghost function View(): Dict
      reads this
    {
      Dict(routes, codes)
    }

    constructor (trim: Bytes -> Bytes)
      ensures View() == Dict(map[], map[]) && Inverse(View())
      ensures this.trim == trim
    {
      this.trim := trim;
      routes, codes := map[], map[];
    }

    /** `order` is the order in which the runtime happens to range over `dict`; a nil map is an empty one. */
    method SetDictionary(ghost dict: map<Bytes, Uint16>, order: seq<Entry>) returns (ok: bool)
      requires Enumerates(order, dict)
      modifies this
      ensures (View(), ok) == Install(old(View()), trim, order)
      ensures ok <==> Installable(old(View()), trim, dict)
      ensures old(Inverse(View())) ==> Inverse(View()) && Grown(old(View()), View())
    {
      ghost var d0 := View();
      InstallMeans(d0, trim, dict, order);
      var i := 0;
      while i < |order|
        invariant 0 <= i <= |order|
        invariant Install(View(), trim, order[i..]) == Install(d0, trim, order)
      {
        var r, code := trim(order[i].route), order[i].code;
        assert order[i..][1..] == order[i + 1..];
        if r in routes || code in codes {
          return false;
        }
        routes := routes[r := code];
        codes := codes[code := r];
        i := i + 1;
      }
      return true;
    }
  }
}
