/** Printed names and their parsers: routes (route/route.go) and etcd keys (cluster/etcd_service_discovery.go). */
module Names {
  import opened Base

  // ---------- strings.Split ----------

  function Split(s: string, sep: char): (parts: seq<string>)
    ensures |parts| >= 1
  {
    if s == [] then [[]]
    else if s[0] == sep then [[]] + Split(s[1..], sep)
    else
      var rest := Split(s[1..], sep);
      [[s[0]] + rest[0]] + rest[1..]
  }

  ghost function Join(parts: seq<string>, sep: char): string
    requires |parts| >= 1
  {
    if |parts| == 1 then parts[0] else parts[0] + [sep] + Join(parts[1..], sep)
  }

  /** Splitting loses nothing and leaves no separator behind. */
  lemma {:induction false} JoinSplit(s: string, sep: char)
    ensures Join(Split(s, sep), sep) == s
    ensures forall i :: 0 <= i < |Split(s, sep)| ==> sep !in Split(s, sep)[i]
  {
    if s != [] {
      var rest := Split(s[1..], sep);
      JoinSplit(s[1..], sep);
      assert Split(s, sep)[1..] == if s[0] == sep then rest else rest[1..];
      assert s == [s[0]] + s[1..];
    }
  }

  lemma {:induction false} SplitFree(s: string, sep: char)
    ensures |Split(s, sep)| == 1 <==> sep !in s
    ensures sep !in s ==> Split(s, sep) == [s]
  {
    if s != [] {
      SplitFree(s[1..], sep);
      assert s == [s[0]] + s[1..];
    }
  }

  lemma {:induction false} SplitConcat(a: string, b: string, sep: char)
    ensures Split(a + [sep] + b, sep) == Split(a, sep) + Split(b, sep)
  {
    var s := a + [sep] + b;
    if a == [] {
      assert s[1..] == b;
    } else {
      assert s[1..] == a[1..] + [sep] + b && s[0] == a[0];
      SplitConcat(a[1..], b, sep);
    }
  }

  ghost function Is(sep: char): char -> bool { (c: char) => c == sep }

  /** There is one part more than there are separators. */
  lemma {:induction false} SplitCounts(s: string, sep: char)
    ensures |Split(s, sep)| == 1 + HowMany(s, Is(sep))
  {
    if s != [] {
      SplitCounts(s[1..], sep);
      assert s == [s[0]] + s[1..];
      CountConcat([s[0]], s[1..], Is(sep));
      assert [s[0]] == [] + [s[0]];
      CountAppend([], s[0], Is(sep));
    }
  }

  // ---------- routes ----------

  datatype Route = Route(svType: string, service: string, name: string)

  datatype RouteResult = Ok(route: Route) | FieldCantBeEmpty | InvalidRoute

  /** unicode.IsSpace */
  predicate IsSpace(c: char) {
    || '\U{0009}' <= c <= '\U{000D}' || c == ' ' || c == '\U{0085}' || c == '\U{00A0}' || c == '\U{1680}'
    || '\U{2000}' <= c <= '\U{200A}' || c == '\U{2028}' || c == '\U{2029}' || c == '\U{202F}' || c == '\U{205F}'
    || c == '\U{3000}'
  }

  /** Nothing is left of the string when it is trimmed. */
  predicate Blank(s: string) { forall i :: 0 <= i < |s| ==> IsSpace(s[i]) }

  function Short(r: Route): string { r.service + "." + r.name }

  function String(r: Route): string { if r.svType != "" then r.svType + "." + r.service + "." + r.name else Short(r) }

  function DecodeRoute(s: string): RouteResult {
    var parts := Split(s, '.');
    if exists i :: 0 <= i < |parts| && Blank(parts[i]) then FieldCantBeEmpty
    else if |parts| == 3 then Ok(Route(parts[0], parts[1], parts[2]))
    else if |parts| == 2 then Ok(Route("", parts[0], parts[1]))
    else InvalidRoute
  }

  /** Some part between dots is blank. */
  ghost predicate HasBlankPart(s: string) {
    exists parts :: |parts| >= 1 && Join(parts, '.') == s && (forall i :: 0 <= i < |parts| ==> '.' !in parts[i])
                    && exists i :: 0 <= i < |parts| && Blank(parts[i])
  }

  /** When a string is accepted as a route, and with which error it is refused: a blank part counts first, then the
      number of dots, which has to be one or two. */
  lemma DecodeRouteMeans(s: string)
    ensures var dots := HowMany(s, Is('.'));
            && (DecodeRoute(s) == FieldCantBeEmpty <==> HasBlankPart(s))
            && (DecodeRoute(s).Ok? <==> !HasBlankPart(s) && 1 <= dots <= 2)
            && (DecodeRoute(s).Ok? ==> (DecodeRoute(s).route.svType == "" <==> dots == 1))
  {
    SplitCounts(s, '.');
    BlankPartIff(s);
    if DecodeRoute(s).Ok? { assert !Blank(Split(s, '.')[0]); }
  }

  lemma BlankPartIff(s: string)
    ensures HasBlankPart(s) <==> exists i :: 0 <= i < |Split(s, '.')| && Blank(Split(s, '.')[i])
  {
    JoinSplit(s, '.');
    var parts := Split(s, '.');
    if HasBlankPart(s) {
      var other :| && |other| >= 1 && Join(other, '.') == s && (forall i :: 0 <= i < |other| ==> '.' !in other[i])
                   && exists i :: 0 <= i < |other| && Blank(other[i]);
      SplitJoin(other, '.');
    }
    if i :| 0 <= i < |parts| && Blank(parts[i]) {
      assert |parts| >= 1 && Join(parts, '.') == s;
    }
  }

  /** Splitting is the only way to take a string apart at its separators. */
  lemma {:induction false} SplitJoin(parts: seq<string>, sep: char)
    requires |parts| >= 1 && forall i :: 0 <= i < |parts| ==> sep !in parts[i]
    ensures Split(Join(parts, sep), sep) == parts
  {
    SplitFree(parts[0], sep);
    if |parts| > 1 {
      SplitJoin(parts[1..], sep);
      SplitConcat(parts[0], Join(parts[1..], sep), sep);
      assert [parts[0]] + parts[1..] == parts;
    }
  }

  /** A field that survives printing: dot-free and not blank. */
  ghost predicate PlainField(s: string) { '.' !in s && !Blank(s) }

  /** Whatever string Decode accepts, the route it returns prints as that string. */
  lemma DecodeThenString(s: string)
    requires DecodeRoute(s).Ok?
    ensures String(DecodeRoute(s).route) == s
  {
    var parts := Split(s, '.');
    JoinSplit(s, '.');
    assert !Blank(parts[0]);
    assert Join(parts[1..], '.') == if |parts| == 3 then parts[1] + "." + Join(parts[2..], '.') else parts[1];
  }

  /** A printed route decodes to itself exactly when service and name are plain and the server type is plain or
      missing. */
  lemma StringThenDecodeIff(r: Route)
    ensures DecodeRoute(String(r)) == Ok(r)
            <==> PlainField(r.service) && PlainField(r.name) && (r.svType == "" || PlainField(r.svType))
  {
    if DecodeRoute(String(r)) == Ok(r) {
      JoinSplit(String(r), '.');
    } else if PlainField(r.service) && PlainField(r.name) && (r.svType == "" || PlainField(r.svType)) {
      PlainParts(r);
    }
  }

  lemma PlainParts(r: Route)
    requires PlainField(r.service) && PlainField(r.name) && (r.svType == "" || PlainField(r.svType))
    ensures Split(String(r), '.') == if r.svType == "" then [r.service, r.name] else [r.svType, r.service, r.name]
  {
    SplitFree(r.service, '.');
    SplitFree(r.name, '.');
    if r.svType == "" {
      SplitConcat(r.service, r.name, '.');
    } else {
      SplitFree(r.svType, '.');
      SplitConcat(r.svType, r.service, '.');
      SplitConcat(r.svType + "." + r.service, r.name, '.');
    }
  }

  // ---------- etcd keys ----------

  function GetKey(serverId: string, serverType: string): string { "servers/" + serverType + "/" + serverId }

  /** The server type and ID a key names; a key that does not have three parts names none. */
  function ParseEtcdKey(key: string): Option<(string, string)> {
    var parts := Split(key, '/');
    if |parts| == 3 then Some((parts[1], parts[2])) else None
  }

  /** A key made for a server parses exactly when neither part contains a slash, and then gives both back. */
  lemma KeyRoundTripIff(id: string, typ: string)
    ensures ParseEtcdKey(GetKey(id, typ)) == if '/' !in id && '/' !in typ then Some((typ, id)) else None
  {
    SplitFree("servers", '/');
    SplitFree(typ, '/');
    SplitFree(id, '/');
    assert "servers" + "/" == "servers/";
    assert "servers" + "/" + typ == "servers/" + typ;
    SplitConcat("servers", typ, '/');
    assert GetKey(id, typ) == "servers/" + typ + "/" + id;
    SplitConcat("servers/" + typ, id, '/');
  }

  /** Conversely a key under "servers/" that parses is the key of what it names. */
  lemma ParsedKeyIsItsKey(key: string)
    requires ParseEtcdKey(key).Some? && "servers/" <= key
    ensures var (typ, id) := ParseEtcdKey(key).value; key == GetKey(id, typ) && '/' !in typ && '/' !in id
  {
    var rest := key[8..];
    var parts := Split(rest, '/');
    assert key == "servers" + "/" + rest;
    SplitConcat("servers", rest, '/');
    SplitFree("servers", '/');
    JoinSplit(rest, '/');
    assert rest == parts[0] + "/" + Join(parts[1..], '/') == parts[0] + "/" + parts[1];
  }
}
