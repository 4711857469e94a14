/** The message layer of conn/message: a flag byte, a base-128 ID, a route (a dictionary code or length
    and bytes) and an optionally deflated payload. Bit tests are written as arithmetic on the flag byte. */
module Messages {
  import opened Base
  import opened Dictionary

  const REQUEST := 0
  const NOTIFY := 1
  const RESPONSE := 2

  datatype CodecError = WrongMessageType | InvalidMessage | RouteInfoNotFound | DeflateFailed | InflateFailed

  /** The value of a Message. `compressed` records that the route came from the dictionary. */
  datatype Msg = Msg(typ: Byte, id: Uint64, route: Bytes, data: Bytes, compressed: bool, err: bool)

  /** compress/zlib as a pair of functions. */
  datatype Zlib = Zlib(deflate: Bytes -> Option<Bytes>, inflate: Bytes -> Option<Bytes>)

  /** RFC 1950: inflating what deflate produced gives the input back. */
  ghost predicate Lawful(z: Zlib) {
    forall d :: z.deflate(d).Some? ==> z.inflate(z.deflate(d).value) == Some(d)
  }

  predicate Routable(typ: Byte) { typ == REQUEST || typ == NOTIFY }

  predicate HasId(typ: Byte) { typ == REQUEST || typ == RESPONSE }

  predicate InvalidType(typ: Byte) { typ > RESPONSE }

  // ---------- the flag byte ----------

  function Bit(b: bool, weight: Byte): Byte { if b then weight else 0 }

  function TypeOf(flag: Byte): Byte { flag / 2 % 8 }

  predicate RouteBit(flag: Byte) { flag % 2 == 1 }

  predicate GzipBit(flag: Byte) { flag / 16 % 2 == 1 }

  predicate ErrorBit(flag: Byte) { flag / 32 % 2 == 1 }

  function Flag(typ: Byte, compressed: bool, err: bool, gzip: bool): Byte
    requires !InvalidType(typ)
  {
    2 * typ + Bit(compressed, 0x01) + Bit(err, 0x20) + Bit(gzip, 0x10)
  }

  /** The four fields share the byte without touching each other. */
  lemma FlagFields(typ: Byte, compressed: bool, err: bool, gzip: bool)
    requires !InvalidType(typ)
    ensures var flag := Flag(typ, compressed, err, gzip);
            TypeOf(flag) == typ && RouteBit(flag) == compressed && ErrorBit(flag) == err && GzipBit(flag) == gzip
  {
    assert typ == 0 || typ == 1 || typ == 2;
  }

  // ---------- the ID: base 128, least significant group first ----------

  ghost function EncodeId(n: nat): (s: Bytes)
    ensures |s| >= 1
  {
    if n < 128 then [n] else [n % 128 + 128] + EncodeId(n / 128)
  }

  ghost function Pow128(k: nat): (p: nat)
    ensures p >= 1
  {
    if k == 0 then 1 else 128 * Pow128(k - 1)
  }

  /** The seven payload bits of an ID byte. */
  function Group(b: Byte): nat { b % 128 }

  /** Arithmetic modulo 2^64. */
  function Wrap(n: nat): Uint64 { if n < UINT64_SPAN then n else n % UINT64_SPAN }

  datatype IdScan = IdScan(id: Uint64, end: Option<nat>)

  /** The decoding loop from index `i`: a shift past 64 bits adds nothing and sums wrap. The end is
      missing when the input runs out before a byte below 128. */
  ghost function ScanId(data: Bytes, i: nat, acc: Uint64): (r: IdScan)
    requires 1 <= i
    ensures r.end.Some? ==> i < r.end.value <= |data|
    decreases |data| - i
  {
    if i >= |data| then IdScan(acc, None)
    else
      var acc1 := Wrap(acc + Group(data[i]) * Pow128(i - 1));
      if data[i] < 128 then IdScan(acc1, Some(i + 1)) else ScanId(data, i + 1, acc1)
  }

  lemma {:induction false} IdLength(n: nat, k: nat)
    requires 1 <= k && n < Pow128(k)
    ensures |EncodeId(n)| <= k
  {
    if n >= 128 {
      assert Pow128(1) == 128 * Pow128(0) == 128;
      IdLength(n / 128, k - 1);
    }
  }

  lemma Uint64FitsTenGroups(n: Uint64)
    ensures |EncodeId(n)| <= 10
  {
    assert Pow128(5) == 34359738368 by {
      assert Pow128(2) == 128 * Pow128(1) && Pow128(1) == 128 * Pow128(0);
      assert Pow128(3) == 128 * Pow128(2) && Pow128(4) == 128 * Pow128(3);
    }
    assert Pow128(7) == 128 * Pow128(6) && Pow128(6) == 128 * Pow128(5);
    assert Pow128(9) == 128 * Pow128(8) && Pow128(8) == 128 * Pow128(7);
    IdLength(n, 10);
  }

  lemma SplitGroup(n: nat, p: nat)
    ensures n % 128 * p + n / 128 * (128 * p) == n * p
  {
    assert n == n % 128 + 128 * (n / 128);
    assert (n % 128 + 128 * (n / 128)) * p == n % 128 * p + 128 * (n / 128) * p;
  }

  /** Self-delimiting and exact: an encoded ID is read back whole, whatever follows it, without overflow. */
  lemma {:induction false} ScanEncodedId(data: Bytes, i: nat, acc: Uint64, n: nat)
    requires 1 <= i && i + |EncodeId(n)| <= |data|
    requires data[i..i + |EncodeId(n)|] == EncodeId(n)
    requires acc + n * Pow128(i - 1) < UINT64_SPAN
    ensures ScanId(data, i, acc) == IdScan(acc + n * Pow128(i - 1), Some(i + |EncodeId(n)|))
    decreases n
  {
    var p := Pow128(i - 1);
    assert data[i] == EncodeId(n)[0];
    if n < 128 {
      ScanLast(data, i, acc);
    } else {
      assert n % 128 * p + n / 128 * Pow128(i) == n * p by { SplitGroup(n, p); }
      assert data[i + 1..i + 1 + |EncodeId(n / 128)|] == EncodeId(n)[1..];
      assert n / 128 * Pow128(i) >= 0;
      assert Group(data[i]) == n % 128;
      ScanMore(data, i, acc);
      ScanEncodedId(data, i + 1, acc + n % 128 * p, n / 128);
    }
  }

  lemma ScanLast(data: Bytes, i: nat, acc: Uint64)
    requires 1 <= i < |data| && data[i] < 128
    requires acc + data[i] * Pow128(i - 1) < UINT64_SPAN
    ensures ScanId(data, i, acc) == IdScan(acc + data[i] * Pow128(i - 1), Some(i + 1))
  {
    assert Group(data[i]) == data[i];
  }

  lemma ScanMore(data: Bytes, i: nat, acc: Uint64)
    requires 1 <= i < |data| && data[i] >= 128
    requires acc + Group(data[i]) * Pow128(i - 1) < UINT64_SPAN
    ensures ScanId(data, i, acc) == ScanId(data, i + 1, acc + Group(data[i]) * Pow128(i - 1))
  {
  }

  // ---------- Encode ----------

  datatype Payload = Payload(bytes: Bytes, gzip: bool)

  /** The payload goes out deflated only when that makes it shorter. */
  function Compress(z: Zlib, on: bool, data: Bytes): (p: Option<Payload>)
    ensures p.Some? && p.value.gzip ==> on && |p.value.bytes| < |data| && z.deflate(data) == Some(p.value.bytes)
    ensures p.Some? && !p.value.gzip ==> p.value.bytes == data
  {
    if !on then Some(Payload(data, false))
    else match z.deflate(data)
      case None => None
      case Some(d) => Some(if |d| < |data| then Payload(d, true) else Payload(data, false))
  }

  function HighByte(code: Uint16): Byte { code / 256 }

  function LowByte(code: Uint16): Byte { code % 256 }

  /** byte(len(route)): the length modulo 256. */
  function LengthByte(route: Bytes): Byte { if |route| < 256 then |route| else |route| % 256 }

  /** The receiving side of Compress. */
  function Expand(z: Zlib, gzip: bool, body: Bytes): Option<Bytes> { if gzip then z.inflate(body) else Some(body) }

  lemma ExpandCompressed(z: Zlib, on: bool, data: Bytes)
    requires Lawful(z) && Compress(z, on, data).Some?
    ensures var p := Compress(z, on, data).value; Expand(z, p.gzip, p.bytes) == Some(data)
  {
    var d := z.deflate(data);
  }

  ghost function IdPart(m: Msg): Bytes { if HasId(m.typ) then EncodeId(m.id) else [] }

  ghost function RoutePart(routes: map<Bytes, Uint16>, m: Msg): Bytes {
    if !Routable(m.typ) then []
    else if m.route in routes then [HighByte(routes[m.route]), LowByte(routes[m.route])]
    else [LengthByte(m.route)] + m.route
  }

  /** The bytes of `m` under a given flag byte and payload; what Encode sends has this form. */
  ghost function Framed(flag: Byte, routes: map<Bytes, Uint16>, m: Msg, p: Bytes): (b: Bytes)
    ensures |b| >= 1 && b[0] == flag
  {
    [flag] + (IdPart(m) + RoutePart(routes, m)) + p
  }

  lemma AppendedIsFramed(flag: Byte, routes: map<Bytes, Uint16>, m: Msg)
    ensures [flag] + IdPart(m) + RoutePart(routes, m) == Framed(flag, routes, m, [])
  {
  }

  lemma FramedParts(flag: Byte, patched: Byte, routes: map<Bytes, Uint16>, m: Msg, p: Bytes)
    ensures Framed(flag, routes, m, []) + p == Framed(flag, routes, m, p)
    ensures Framed(flag, routes, m, [])[0 := patched] == Framed(patched, routes, m, [])
  {
  }

  datatype Encoding = Encoded(bytes: Bytes, data: Bytes) | EncodeFailed(error: CodecError)

  /** Encode: the bytes to send and the payload that message.Data holds afterwards. */
  ghost function Encode(z: Zlib, on: bool, routes: map<Bytes, Uint16>, m: Msg): Encoding {
    if InvalidType(m.typ) then EncodeFailed(WrongMessageType)
    else match Compress(z, on, m.data)
      case None => EncodeFailed(DeflateFailed)
      case Some(p) =>
        Encoded(Framed(Flag(m.typ, m.route in routes, m.err, p.gzip), routes, m, p.bytes), p.bytes)
  }

  /** The head that Encode builds first, with the gzip bit clear. */
  ghost function Head(routes: map<Bytes, Uint16>, m: Msg): Bytes
    requires !InvalidType(m.typ)
  {
    Framed(Flag(m.typ, m.route in routes, m.err, false), routes, m, [])
  }

  lemma EncodedPlain(z: Zlib, on: bool, routes: map<Bytes, Uint16>, m: Msg)
    requires !InvalidType(m.typ) && Compress(z, on, m.data) == Some(Payload(m.data, false))
    ensures Encode(z, on, routes, m) == Encoded(Head(routes, m) + m.data, m.data)
  {
    var flag := Flag(m.typ, m.route in routes, m.err, false);
    FramedParts(flag, flag, routes, m, m.data);
  }

  /** Setting the gzip bit of a head. */
  lemma PatchedHead(routes: map<Bytes, Uint16>, m: Msg, p: Bytes)
    requires !InvalidType(m.typ)
    ensures Head(routes, m)[0] + 0x10 <= 255
    ensures Head(routes, m)[0 := Head(routes, m)[0] + 0x10] + p
            == Framed(Flag(m.typ, m.route in routes, m.err, true), routes, m, p)
  {
    var flag, patched := Flag(m.typ, m.route in routes, m.err, false), Flag(m.typ, m.route in routes, m.err, true);
    assert flag + 0x10 == patched;
    FramedParts(flag, patched, routes, m, []);
    FramedParts(patched, patched, routes, m, p);
  }

  lemma EncodedDeflated(z: Zlib, routes: map<Bytes, Uint16>, m: Msg)
    requires !InvalidType(m.typ) && z.deflate(m.data).Some? && |z.deflate(m.data).value| < |m.data|
    ensures Head(routes, m)[0] + 0x10 <= 255
    ensures var d := z.deflate(m.data).value;
            Encode(z, true, routes, m) == Encoded(Head(routes, m)[0 := Head(routes, m)[0] + 0x10] + d, d)
  {
    PatchedHead(routes, m, z.deflate(m.data).value);
  }

  // ---------- Decode ----------

  datatype RouteScan = RouteAt(route: Bytes, compressed: bool, end: nat) | RouteError(error: CodecError) | RoutePanic

  function BigEndian16(high: int, low: int): int { 256 * high + low }

  /** Reading the length byte is not guarded in the source: past the end it panics. */
  function ScanRoute(codes: map<Uint16, Bytes>, flag: Byte, data: Bytes, offset: nat): (r: RouteScan)
    requires offset <= |data|
    ensures r.RouteAt? ==> offset <= r.end <= |data|
  {
    if !Routable(TypeOf(flag)) then RouteAt([], false, offset)
    else if RouteBit(flag) then
      if offset + 2 > |data| then RouteError(InvalidMessage)
      else
        var code := BigEndian16(data[offset], data[offset + 1]);
        if code in codes then RouteAt(codes[code], true, offset + 2) else RouteError(RouteInfoNotFound)
    else if offset >= |data| then RoutePanic
    else
      var end := offset + 1 + data[offset];
      if end > |data| then RouteError(InvalidMessage) else RouteAt(data[offset + 1..end], false, end)
  }

  datatype Decoding = Decoded(msg: Msg) | DecodeFailed(error: CodecError) | Panicked

  /** The ID and where it ends; an unterminated ID leaves the offset at 1. */
  ghost function IdOf(data: Bytes): (r: (Uint64, nat))
    requires |data| >= 2
    ensures 1 <= r.1 <= |data|
  {
    if HasId(TypeOf(data[0])) then
      var s := ScanId(data, 1, 0);
      (s.id, if s.end.Some? then s.end.value else 1)
    else (0, 1)
  }

  ghost function Decode(z: Zlib, codes: map<Uint16, Bytes>, data: Bytes): Decoding {
    if |data| < 2 then DecodeFailed(InvalidMessage)
    else if InvalidType(TypeOf(data[0])) then DecodeFailed(WrongMessageType)
    else
      var (id, offset) := IdOf(data);
      match ScanRoute(codes, data[0], data, offset)
      case RouteError(e) => DecodeFailed(e)
      case RoutePanic => Panicked
      case RouteAt(route, compressed, end) =>
        var body := Expand(z, GzipBit(data[0]), data[end..]);
        if body.None? then DecodeFailed(InflateFailed)
        else Decoded(Msg(TypeOf(data[0]), id, route, body.value, compressed, ErrorBit(data[0])))
  }

  // ---------- what the two promise together ----------

  /** What the wire can carry of `m`: no ID for a Notify, no route for a Response. */
  ghost function Canonical(routes: map<Bytes, Uint16>, m: Msg): Msg {
    Msg(m.typ, if HasId(m.typ) then m.id else 0, if Routable(m.typ) then m.route else [], m.data,
        Routable(m.typ) && m.route in routes, m.err)
  }

  /** The route fits: it is not sent, it has a code, or its length fits one byte. */
  ghost predicate RouteFits(routes: map<Bytes, Uint16>, m: Msg) {
    !Routable(m.typ) || m.route in routes || |m.route| <= 255
  }

  lemma FramedId(flag: Byte, routes: map<Bytes, Uint16>, m: Msg, p: Bytes)
    requires TypeOf(flag) == m.typ && !InvalidType(m.typ)
    ensures |Framed(flag, routes, m, p)| >= 2
    ensures IdOf(Framed(flag, routes, m, p)) == (Canonical(routes, m).id, 1 + |IdPart(m)|)
  {
    var b := Framed(flag, routes, m, p);
    if HasId(m.typ) {
      assert b == [flag] + EncodeId(m.id) + (RoutePart(routes, m) + p);
      assert b[1..1 + |EncodeId(m.id)|] == EncodeId(m.id);
      assert Pow128(0) == 1;
      ScanEncodedId(b, 1, 0, m.id);
    }
  }

  lemma ScanCodedRoute(d: Dict, flag: Byte, data: Bytes, o: nat, route: Bytes)
    requires Inverse(d) && route in d.routes
    requires Routable(TypeOf(flag)) && RouteBit(flag)
    requires o + 2 <= |data| && data[o] == HighByte(d.routes[route]) && data[o + 1] == LowByte(d.routes[route])
    ensures ScanRoute(d.codes, flag, data, o) == RouteAt(route, true, o + 2)
  {
    assert BigEndian16(data[o], data[o + 1]) == d.routes[route];
  }

  /** A route sent in full comes back if its length fits the length byte, and too short otherwise. */
  lemma ScanPlainRoute(codes: map<Uint16, Bytes>, flag: Byte, data: Bytes, o: nat, route: Bytes)
    requires Routable(TypeOf(flag)) && !RouteBit(flag)
    requires o + 1 + |route| <= |data| && data[o] == LengthByte(route) && data[o + 1..o + 1 + |route|] == route
    ensures var r := ScanRoute(codes, flag, data, o);
            if |route| <= 255 then r == RouteAt(route, false, o + 1 + |route|)
            else r.RouteAt? && |r.route| < |route|
  {
  }

  /** What follows the ID. */
  lemma FramedRest(flag: Byte, routes: map<Bytes, Uint16>, m: Msg, p: Bytes)
    ensures var b, o := Framed(flag, routes, m, p), 1 + |IdPart(m)|;
            o <= |b| && b[o..] == RoutePart(routes, m) + p
  {
  }

  lemma FramedCodedRoute(d: Dict, flag: Byte, m: Msg, p: Bytes)
    requires Inverse(d) && TypeOf(flag) == m.typ && RouteBit(flag) && Routable(m.typ) && m.route in d.routes
    ensures var b, o := Framed(flag, d.routes, m, p), 1 + |IdPart(m)|;
            o + 2 + |p| == |b| && ScanRoute(d.codes, flag, b, o) == RouteAt(m.route, true, o + 2)
  {
    var b, o := Framed(flag, d.routes, m, p), 1 + |IdPart(m)|;
    FramedRest(flag, d.routes, m, p);
    assert b[o] == b[o..][0] && b[o + 1] == b[o..][1];
    ScanCodedRoute(d, flag, b, o, m.route);
  }

  lemma FramedPlainRoute(d: Dict, flag: Byte, m: Msg, p: Bytes)
    requires TypeOf(flag) == m.typ && !RouteBit(flag) && Routable(m.typ) && m.route !in d.routes
    ensures var b, o := Framed(flag, d.routes, m, p), 1 + |IdPart(m)|;
            && o + 1 + |m.route| + |p| == |b|
            && var r := ScanRoute(d.codes, flag, b, o);
               if |m.route| <= 255 then r == RouteAt(m.route, false, o + 1 + |m.route|)
               else r.RouteAt? && |r.route| < |m.route|
  {
    var b, o := Framed(flag, d.routes, m, p), 1 + |IdPart(m)|;
    FramedRest(flag, d.routes, m, p);
    var rest := b[o..];
    assert b[o] == rest[0] && b[o + 1..o + 1 + |m.route|] == rest[1..1 + |m.route|] == m.route;
    ScanPlainRoute(d.codes, flag, b, o, m.route);
  }

  lemma FramedRoute(d: Dict, flag: Byte, m: Msg, p: Bytes)
    requires Inverse(d) && TypeOf(flag) == m.typ && RouteBit(flag) == (m.route in d.routes)
    ensures var b, o, c := Framed(flag, d.routes, m, p), 1 + |IdPart(m)|, Canonical(d.routes, m);
            && o <= |b|
            && var r := ScanRoute(d.codes, flag, b, o);
               if RouteFits(d.routes, m) then r == RouteAt(c.route, c.compressed, |b| - |p|)
               else r.RouteAt? && |r.route| < |m.route|
  {
    FramedRest(flag, d.routes, m, p);
    if Routable(m.typ) {
      if m.route in d.routes {
        FramedCodedRoute(d, flag, m, p);
      } else {
        FramedPlainRoute(d, flag, m, p);
      }
    }
  }

  lemma DecodeFramed(z: Zlib, d: Dict, flag: Byte, m: Msg, p: Bytes)
    requires Inverse(d) && !InvalidType(m.typ)
    requires TypeOf(flag) == m.typ && RouteBit(flag) == (m.route in d.routes) && ErrorBit(flag) == m.err
    requires Expand(z, GzipBit(flag), p) == Some(m.data)
    ensures Decode(z, d.codes, Framed(flag, d.routes, m, p)) == Decoded(Canonical(d.routes, m))
            <==> RouteFits(d.routes, m)
  {
    FramedId(flag, d.routes, m, p);
    FramedRoute(d, flag, m, p);
    var b := Framed(flag, d.routes, m, p);
    assert b[|b| - |p|..] == p;
  }

  /** Round trip. Whatever Encode sends, Decode gives back the type, the error flag, the original data, the ID
      and the route exactly when the route fits; an uncoded route of 256 bytes or more never comes back. */
  lemma RoundTripIff(z: Zlib, on: bool, d: Dict, m: Msg)
    requires Lawful(z) && Inverse(d) && Encode(z, on, d.routes, m).Encoded?
    ensures Decode(z, d.codes, Encode(z, on, d.routes, m).bytes) == Decoded(Canonical(d.routes, m))
            <==> RouteFits(d.routes, m)
  {
    ExpandCompressed(z, on, m.data);
    var p := Compress(z, on, m.data).value;
    FlagFields(m.typ, m.route in d.routes, m.err, p.gzip);
    DecodeFramed(z, d, Flag(m.typ, m.route in d.routes, m.err, p.gzip), m, p.bytes);
  }

  /** The failing family of RoundTripIff is not empty. */
  lemma LongRouteIsLost(z: Zlib, d: Dict, route: Bytes, data: Bytes)
    requires Lawful(z) && Inverse(d) && route !in d.routes && |route| == 256
    ensures var m := Msg(NOTIFY, 0, route, data, false, false);
            Decode(z, d.codes, Encode(z, false, d.routes, m).bytes)
            == Decoded(Msg(NOTIFY, 0, [], route + data, false, false))
  {
    var m := Msg(NOTIFY, 0, route, data, false, false);
    var b := Encode(z, false, d.routes, m).bytes;
    assert b[1..] == RoutePart(d.routes, m) + data == [0] + route + data;
    assert b[1] == b[1..][0] == 0;
    assert b[2..] == b[1..][1..] == route + data;
    assert ScanRoute(d.codes, b[0], b, 1) == RouteAt([], false, 2);
  }

  lemma DecodedIsCanonical(z: Zlib, d: Dict, data: Bytes)
    requires Inverse(d) && Decode(z, d.codes, data).Decoded?
    ensures var m := Decode(z, d.codes, data).msg;
            && RouteFits(d.routes, m)
            && Canonical(d.routes, m) == m.(compressed := Canonical(d.routes, m).compressed)
  {
    var o := IdOf(data).1;
    var r := ScanRoute(d.codes, data[0], data, o);
    assert r.RouteAt?;
    if Routable(TypeOf(data[0])) && RouteBit(data[0]) {
      assert d.codes[BigEndian16(data[o], data[o + 1])] in d.routes;
    }
  }

  /** Every message Decode accepts can be sent again, unless compressing its data fails, and comes back the same. Only
      the mark that the route came as a code may change: it is then set exactly if the route has one. */
  lemma ReencodeStable(z: Zlib, on: bool, d: Dict, data: Bytes)
    requires Lawful(z) && Inverse(d) && Decode(z, d.codes, data).Decoded?
    ensures var m := Decode(z, d.codes, data).msg;
            var sent := Encode(z, on, d.routes, m);
            && (sent.Encoded? <==> !on || z.deflate(m.data).Some?)
            && (sent.Encoded? ==>
                  Decode(z, d.codes, sent.bytes)
                  == Decoded(m.(compressed := Routable(m.typ) && m.route in d.routes)))
  {
    DecodedIsCanonical(z, d, data);
    var m := Decode(z, d.codes, data).msg;
    if Encode(z, on, d.routes, m).Encoded? { RoundTripIff(z, on, d, m); }
  }

  /** Encode overwrites message.Data. Encoding the same message object a second time still delivers the original
      data exactly when the first call did not replace the payload by a shorter, deflated one. */
  lemma SecondEncodeIff(z: Zlib, on: bool, d: Dict, m: Msg)
    requires Lawful(z) && Inverse(d) && RouteFits(d.routes, m)
    requires Encode(z, on, d.routes, m).Encoded?
    requires Encode(z, on, d.routes, m.(data := Encode(z, on, d.routes, m).data)).Encoded?
    ensures var m2 := m.(data := Encode(z, on, d.routes, m).data);
            Decode(z, d.codes, Encode(z, on, d.routes, m2).bytes) == Decoded(Canonical(d.routes, m))
            <==> !(on && |z.deflate(m.data).value| < |m.data|)
  {
    RoundTripIff(z, on, d, m.(data := Encode(z, on, d.routes, m).data));
  }

  /** A lawful zlib that shortens one input. */
  function Shortener(): Zlib {
    Zlib(d => Some(if d == [0, 0] then [] else [1] + d),
         b => if b == [] then Some([0, 0]) else if b[0] == 1 then Some(b[1..]) else None)
  }

  lemma ShortenerIsLawful()
    ensures Lawful(Shortener())
  {
    forall d: Bytes ensures Shortener().inflate(Shortener().deflate(d).value) == Some(d) {
      assert ([1] + d)[1..] == d;
    }
  }

  /** With it the second of two Encode calls on one message delivers no data. */
  lemma SecondEncodeLosesData(d: Dict)
    requires Inverse(d)
    ensures var z, m := Shortener(), Msg(RESPONSE, 0, [], [0, 0], false, false);
            var first := Encode(z, true, d.routes, m);
            && Lawful(z) && first.Encoded? && Decode(z, d.codes, first.bytes) == Decoded(m)
            && var second := Encode(z, true, d.routes, m.(data := first.data));
               second.Encoded? && Decode(z, d.codes, second.bytes) == Decoded(m.(data := []))
  {
    var z, m := Shortener(), Msg(RESPONSE, 0, [], [0, 0], false, false);
    ShortenerIsLawful();
    assert Compress(z, true, [0, 0]) == Some(Payload([], true));
    assert Compress(z, true, []) == Some(Payload([], false));
    RoundTripIff(z, true, d, m);
    RoundTripIff(z, true, d, m.(data := []));
  }

  /** Growing the dictionary by any later calls never changes what accepted bytes mean. */
  lemma GrowthKeepsMeaning(z: Zlib, d: Dict, trim: Bytes -> Bytes, calls: seq<seq<Entry>>, data: Bytes)
    requires Inverse(d) && Decode(z, d.codes, data).Decoded?
    ensures Decode(z, InstallAll(d, trim, calls).codes, data) == Decode(z, d.codes, data)
  {
    CallsKeepInverse(d, trim, calls);
  }

  /** The bytes of a message sent now mean that message under every later dictionary. */
  lemma SentMeaningSurvivesGrowth(z: Zlib, on: bool, d: Dict, trim: Bytes -> Bytes, calls: seq<seq<Entry>>, m: Msg)
    requires Lawful(z) && Inverse(d) && Encode(z, on, d.routes, m).Encoded? && RouteFits(d.routes, m)
    ensures Decode(z, InstallAll(d, trim, calls).codes, Encode(z, on, d.routes, m).bytes)
            == Decoded(Canonical(d.routes, m))
  {
    RoundTripIff(z, on, d, m);
    GrowthKeepsMeaning(z, d, trim, calls, Encode(z, on, d.routes, m).bytes);
  }

  lemma {:induction false} ScanEndsAt(data: Bytes, i: nat, acc: Uint64)
    requires 1 <= i < |data|
    ensures ScanId(data, i, acc).end == Some(|data|)
            <==> data[|data| - 1] < 128 && forall k :: i <= k < |data| - 1 ==> data[k] >= 128
    decreases |data| - i
  {
    if data[i] >= 128 && i + 1 < |data| {
      ScanEndsAt(data, i + 1, Wrap(acc + Group(data[i]) * Pow128(i - 1)));
    }
  }

  /** Decode panics on exactly one family of inputs: a Request without a route code whose ID ends on the last byte. */
  lemma PanicIff(z: Zlib, codes: map<Uint16, Bytes>, data: Bytes)
    ensures Decode(z, codes, data).Panicked?
            <==> && |data| >= 2 && TypeOf(data[0]) == REQUEST && !RouteBit(data[0])
                 && data[|data| - 1] < 128 && forall k :: 1 <= k < |data| - 1 ==> data[k] >= 128
  {
    if |data| >= 2 {
      ScanEndsAt(data, 1, 0);
    }
  }

  /** The shortest of them: two zero bytes. */
  lemma TwoZeroesPanic(z: Zlib, codes: map<Uint16, Bytes>)
    ensures Decode(z, codes, [0, 0]).Panicked?
  {
    PanicIff(z, codes, [0, 0]);
  }

  // ---------- the format in the protocol's own numbers ----------

  /** A flag byte: 1 for a coded route, twice the type, 16 for a deflated payload, 32 for an error. */
  ghost function Bits(typ: int, coded: bool, gzip: bool, err: bool): int {
    (if coded then 1 else 0) + 2 * typ + (if gzip then 16 else 0) + (if err then 32 else 0)
  }

  /** What a received flag byte says; its two highest bits do not matter. */
  ghost predicate FlagSays(flag: int, typ: int, coded: bool, gzip: bool, err: bool) {
    0 <= typ < 8 && flag - Bits(typ, coded, gzip, err) in {0, 64, 128, 192}
  }

  /** Every byte is made up of its fields. */
  lemma FlagParts(flag: Byte)
    ensures FlagSays(flag, TypeOf(flag), RouteBit(flag), GzipBit(flag), ErrorBit(flag))
  {
    var half: int, sixteenth: int, last: int := flag / 2, flag / 16, flag / 32;
    assert sixteenth == half / 8 && last == sixteenth / 2;
    assert flag == 2 * half + flag % 2 && half == 8 * sixteenth + half % 8;
    assert sixteenth == 2 * last + sixteenth % 2 && last == 2 * (last / 2) + last % 2;
    assert 0 <= last / 2 < 4;
  }

  lemma FlagSaysOnce(flag: int, t1: int, c1: bool, g1: bool, e1: bool, t2: int, c2: bool, g2: bool, e2: bool)
    requires FlagSays(flag, t1, c1, g1, e1) && FlagSays(flag, t2, c2, g2, e2)
    ensures t1 == t2 && c1 == c2 && g1 == g2 && e1 == e2
  {
  }

  lemma FlagSaysIff(flag: Byte, typ: Byte, coded: bool, gzip: bool, err: bool)
    ensures FlagSays(flag, typ, coded, gzip, err)
            <==> && TypeOf(flag) == typ && RouteBit(flag) == coded && GzipBit(flag) == gzip && ErrorBit(flag) == err
  {
    FlagParts(flag);
    if FlagSays(flag, typ, coded, gzip, err) {
      FlagSaysOnce(flag, typ, coded, gzip, err, TypeOf(flag), RouteBit(flag), GzipBit(flag), ErrorBit(flag));
    }
  }

  /** The number that base-128 groups denote, the first one counting least. */
  ghost function Varint(s: Bytes): nat {
    if s == [] then 0 else (if s[0] >= 128 then s[0] - 128 else s[0]) + 128 * Varint(s[1..])
  }

  /** Groups to be continued have 128 added; only the last one has not. */
  ghost predicate Ends(s: Bytes) {
    |s| >= 1 && s[|s| - 1] < 128 && forall i :: 0 <= i < |s| - 1 ==> s[i] >= 128
  }

  ghost predicate Continues(s: Bytes) { forall i :: 0 <= i < |s| ==> s[i] >= 128 }

  lemma {:induction false} EncodeIdShape(n: nat)
    ensures var s := EncodeId(n); Ends(s) && (n >= 128 || |s| == 1) && (n >= 1 ==> s[|s| - 1] != 0)
  {
    if n >= 128 {
      EncodeIdShape(n / 128);
      var s, rest := EncodeId(n), EncodeId(n / 128);
      assert s == [s[0]] + rest;
      assert forall i :: 0 < i < |s| ==> s[i] == rest[i - 1];
    }
  }

  lemma VarintFirst(b: Byte, rest: Bytes)
    ensures Varint([b] + rest) == (if b >= 128 then b - 128 else b) + 128 * Varint(rest)
  {
    assert ([b] + rest)[1..] == rest;
  }

  lemma {:induction false} EncodeIdValue(n: nat)
    ensures Varint(EncodeId(n)) == n
  {
    if n < 128 {
      VarintFirst(n, []);
      assert [n] + [] == [n];
    } else {
      EncodeIdValue(n / 128);
      VarintFirst(n % 128 + 128, EncodeId(n / 128));
    }
  }

  /** The ID as it is written: none for a Notify, and otherwise base-128 groups without a leading zero. */
  ghost predicate WritesId(m: Msg, id: Bytes) {
    if m.typ == 1 then id == [] else Ends(id) && Varint(id) == m.id && (|id| > 1 ==> id[|id| - 1] != 0)
  }

  /** The route as it is written: none for a Response, a big-endian code if it has one, and otherwise its length modulo
      256 and its bytes. */
  ghost predicate WritesRoute(routes: map<Bytes, Uint16>, m: Msg, route: Bytes) {
    if m.typ > 1 then route == []
    else if m.route in routes then |route| == 2 && 256 * (route[0] as int) + route[1] as int == routes[m.route] as int
    else |route| == 1 + |m.route| && route[0] == |m.route| % 256 && route[1..] == m.route
  }

  /** The data as it is written: deflated exactly if that is shorter. */
  ghost predicate WritesData(z: Zlib, on: bool, data: Bytes, payload: Bytes, gzip: bool) {
    if on && z.deflate(data).Some? && |z.deflate(data).value| < |data| then gzip && Some(payload) == z.deflate(data)
    else !gzip && payload == data
  }

  /** An ID is written in the fewest groups. */
  lemma IdPartWrites(m: Msg)
    requires m.typ <= 2
    ensures WritesId(m, IdPart(m))
  {
    EncodeIdShape(m.id);
    EncodeIdValue(m.id);
  }

  lemma RoutePartWrites(routes: map<Bytes, Uint16>, m: Msg)
    requires m.typ <= 2
    ensures WritesRoute(routes, m, RoutePart(routes, m))
  {
  }

  lemma PayloadWrites(z: Zlib, on: bool, data: Bytes)
    ensures Compress(z, on, data).None? <==> on && z.deflate(data).None?
    ensures Compress(z, on, data).Some? ==>
              WritesData(z, on, data, Compress(z, on, data).value.bytes, Compress(z, on, data).value.gzip)
  {
  }

  lemma FlagIsBits(typ: Byte, coded: bool, err: bool, gzip: bool)
    requires typ <= 2
    ensures Flag(typ, coded, err, gzip) == Bits(typ, coded, gzip, err)
  {
  }

  /** Encode fails exactly for a type above Response, or else if the data is to be deflated and cannot be. */
  lemma EncodeFailsIff(z: Zlib, on: bool, routes: map<Bytes, Uint16>, m: Msg)
    ensures Encode(z, on, routes, m) == EncodeFailed(WrongMessageType) <==> m.typ > 2
    ensures Encode(z, on, routes, m).EncodeFailed? <==> m.typ > 2 || (on && z.deflate(m.data).None?)
  {
  }

  /** What goes out for a message otherwise: the flag, the ID, the route and the data, each as above. */
  lemma EncodeWrites(z: Zlib, on: bool, routes: map<Bytes, Uint16>, m: Msg)
    returns (flag: Byte, id: Bytes, route: Bytes, payload: Bytes, gzip: bool)
    requires Encode(z, on, routes, m).Encoded?
    ensures Encode(z, on, routes, m) == Encoded([flag] + id + route + payload, payload)
    ensures flag == Bits(m.typ, m.route in routes, gzip, m.err) && WritesId(m, id)
    ensures WritesRoute(routes, m, route) && WritesData(z, on, m.data, payload, gzip)
  {
    PayloadWrites(z, on, m.data);
    IdPartWrites(m);
    RoutePartWrites(routes, m);
    var p := Compress(z, on, m.data).value;
    id, route, payload, gzip := IdPart(m), RoutePart(routes, m), p.bytes, p.gzip;
    flag := Flag(m.typ, m.route in routes, m.err, gzip);
    FlagIsBits(m.typ, m.route in routes, m.err, gzip);
    JoinParts(flag, id, route, payload);
  }

  lemma JoinParts(flag: Byte, id: Bytes, route: Bytes, payload: Bytes)
    ensures [flag] + id + route + payload == [flag] + (id + route) + payload
  {
  }

  /** Where the parts of a received message end, and what its flag says about route and payload. */
  datatype Layout = Layout(idEnd: nat, routeEnd: nat, coded: bool, gzip: bool)

  /** The ID of a Request or Response: up to the first group that is not continued. If there is none it takes in
      everything and yet uses up nothing. Numbers wrap at 64 bits. */
  ghost predicate IdSays(b: Bytes, typ: int, id: int, end: nat)
    requires |b| >= 1
  {
    if typ == 1 then id == 0 && end == 1
    else || (1 < end <= |b| && Ends(b[1..end]) && id == Varint(b[1..end]) % UINT64_SPAN)
         || (end == 1 && Continues(b[1..]) && id == Varint(b[1..]) % UINT64_SPAN)
  }

  /** The route of a Request or Notify: a known big-endian code, or a length and that many bytes. */
  ghost predicate RouteSays(codes: map<Uint16, Bytes>, b: Bytes, typ: int, coded: bool, at: nat,
                            route: Bytes, end: nat) {
    if typ > 1 then route == [] && end == at
    else if coded then
      && at + 2 == end <= |b|
      && exists code :: code in codes && 256 * (b[at] as int) + b[at + 1] as int == code && codes[code] == route
    else at < end <= |b| && end == at + 1 + b[at] && route == b[at + 1..end]
  }

  ghost predicate Says(z: Zlib, codes: map<Uint16, Bytes>, b: Bytes, l: Layout, m: Msg) {
    && |b| >= 2 && m.typ <= 2 && FlagSays(b[0], m.typ, l.coded, l.gzip, m.err)
    && IdSays(b, m.typ, m.id, l.idEnd)
    && RouteSays(codes, b, m.typ, l.coded, l.idEnd, m.route, l.routeEnd) && l.routeEnd <= |b|
    && m.compressed == (m.typ <= 1 && l.coded)
    && (if l.gzip then z.inflate(b[l.routeEnd..]) == Some(m.data) else m.data == b[l.routeEnd..])
  }

  lemma WrapAdds(a: nat, b: nat)
    ensures Wrap(Wrap(a) + b) == Wrap(a + b) && Wrap(a) == a % UINT64_SPAN
  {
    if a >= UINT64_SPAN {
      var q := a / UINT64_SPAN;
      assert a == UINT64_SPAN * q + a % UINT64_SPAN;
      assert a + b == UINT64_SPAN * q + (a % UINT64_SPAN + b);
      ModAdds(q, a % UINT64_SPAN + b);
    }
  }

  lemma ModAdds(q: nat, r: nat)
    ensures (UINT64_SPAN * q + r) % UINT64_SPAN == r % UINT64_SPAN
  {
  }

  lemma VarintCons(data: Bytes, i: nat, end: nat)
    requires i < end <= |data|
    ensures Varint(data[i..end]) == Group(data[i]) + 128 * Varint(data[i + 1..end])
  {
    assert data[i..end][1..] == data[i + 1..end];
  }

  lemma SpreadGroup(g: nat, v: nat, p: nat)
    ensures (g + 128 * v) * p == g * p + v * (128 * p)
  {
  }

  ghost function EndOf(data: Bytes, r: IdScan): nat { if r.end.Some? then r.end.value else |data| }

  /** Where the decoding loop stops from index i on. */
  lemma {:induction false} ScanIdStops(data: Bytes, i: nat, acc: Uint64)
    requires 1 <= i <= |data|
    ensures var r := ScanId(data, i, acc);
            && (r.end.Some? ==> i < r.end.value && Ends(data[i..r.end.value]))
            && (r.end.None? ==> Continues(data[i..]))
    decreases |data| - i
  {
    if i < |data| && data[i] >= 128 {
      var acc1 := Wrap(acc + Group(data[i]) * Pow128(i - 1));
      ScanIdStops(data, i + 1, acc1);
      var r := ScanId(data, i + 1, acc1);
      if r.end.Some? {
        EndsCons(data, i, r.end.value);
      } else {
        assert forall k :: 0 < k < |data[i..]| ==> data[i..][k] == data[i + 1..][k - 1];
      }
    }
  }

  lemma SumUp(acc: nat, g: nat, v: nat, p: nat)
    ensures Wrap(Wrap(acc + g * p) + v * (128 * p)) == Wrap(acc + (g + 128 * v) * p)
  {
    WrapAdds(acc + g * p, v * (128 * p));
    SpreadGroup(g, v, p);
  }

  lemma SumStep(data: Bytes, i: nat, end: nat, acc: Uint64)
    requires 1 <= i < end <= |data|
    ensures var acc1 := Wrap(acc + Group(data[i]) * Pow128(i - 1));
            Wrap(acc1 + Varint(data[i + 1..end]) * Pow128(i)) == Wrap(acc + Varint(data[i..end]) * Pow128(i - 1))
  {
    VarintCons(data, i, end);
    SumUp(acc, Group(data[i]), Varint(data[i + 1..end]), Pow128(i - 1));
  }

  /** And what it has computed then. */
  lemma {:induction false} ScanIdSums(data: Bytes, i: nat, acc: Uint64)
    requires 1 <= i <= |data|
    ensures var r := ScanId(data, i, acc);
            i <= EndOf(data, r) <= |data| && r.id == Wrap(acc + Varint(data[i..EndOf(data, r)]) * Pow128(i - 1))
    decreases |data| - i
  {
    if i < |data| {
      var r, acc1 := ScanId(data, i, acc), Wrap(acc + Group(data[i]) * Pow128(i - 1));
      SumStep(data, i, EndOf(data, r), acc);
      if data[i] >= 128 {
        ScanIdSums(data, i + 1, acc1);
        assert r == ScanId(data, i + 1, acc1);
      } else {
        assert r == IdScan(acc1, Some(i + 1)) && Varint(data[i + 1..i + 1]) == 0;
      }
    }
  }

  lemma EndsCons(data: Bytes, i: nat, end: nat)
    requires i + 1 < end <= |data| && data[i] >= 128 && Ends(data[i + 1..end])
    ensures Ends(data[i..end])
  {
    var s, t := data[i..end], data[i + 1..end];
    assert forall k :: 0 < k < |s| ==> s[k] == t[k - 1];
  }

  lemma EndsAt(b: Bytes, e: nat)
    requires 1 < e <= |b| && Ends(b[1..e])
    ensures b[e - 1] < 128 && forall k :: 1 <= k < e - 1 ==> b[k] >= 128
  {
    assert b[1..e][e - 2] == b[e - 1];
    assert forall k :: 1 <= k < e ==> b[k] == b[1..e][k - 1];
  }

  lemma ScansTerminated(b: Bytes, id: Uint64, end: nat)
    requires |b| >= 2 && ScanId(b, 1, 0).end.Some?
    ensures var r := ScanId(b, 1, 0);
            IdSays(b, 0, id, end) <==> end == r.end.value && id == r.id
  {
    ScanIdStops(b, 1, 0);
    ScanIdSums(b, 1, 0);
    var e := ScanId(b, 1, 0).end.value;
    assert Pow128(0) == 1;
    WrapAdds(Varint(b[1..e]), 0);
    OneEnd(b, e, end);
  }

  lemma ScansUnterminated(b: Bytes, id: Uint64, end: nat)
    requires |b| >= 2 && ScanId(b, 1, 0).end.None?
    ensures IdSays(b, 0, id, end) <==> end == 1 && id == ScanId(b, 1, 0).id
  {
    ScanIdStops(b, 1, 0);
    ScanIdSums(b, 1, 0);
    assert Pow128(0) == 1;
    assert b[1..|b|] == b[1..];
    WrapAdds(Varint(b[1..]), 0);
    NoEnd(b, end);
  }

  /** There is one way to read an ID. */
  lemma IdSaysIff(b: Bytes, typ: Byte, id: Uint64, end: nat)
    requires |b| >= 2 && typ == TypeOf(b[0]) && typ <= 2
    ensures IdSays(b, typ, id, end) <==> IdOf(b) == (id, end)
  {
    if HasId(typ) {
      assert IdSays(b, typ, id, end) <==> IdSays(b, 0, id, end);
      if ScanId(b, 1, 0).end.Some? {
        ScansTerminated(b, id, end);
      } else {
        ScansUnterminated(b, id, end);
      }
    }
  }

  lemma OneEnd(b: Bytes, e: nat, end: nat)
    requires 1 < e <= |b| && Ends(b[1..e])
    ensures 1 < end <= |b| && Ends(b[1..end]) ==> end == e
    ensures !Continues(b[1..])
  {
    EndsAt(b, e);
    assert b[1..][e - 2] == b[e - 1] < 128;
    if 1 < end <= |b| && Ends(b[1..end]) { EndsAt(b, end); }
  }

  lemma NoEnd(b: Bytes, end: nat)
    requires |b| >= 1 && Continues(b[1..])
    ensures !(1 < end <= |b| && Ends(b[1..end]))
  {
    if 1 < end <= |b| { assert b[1..][end - 2] == b[end - 1]; }
  }

  lemma RouteSaysIff(codes: map<Uint16, Bytes>, flag: Byte, b: Bytes, at: nat, route: Bytes, end: nat)
    requires at <= |b| && TypeOf(flag) <= 2
    ensures RouteSays(codes, b, TypeOf(flag), RouteBit(flag), at, route, end) && end <= |b|
            <==> ScanRoute(codes, flag, b, at) == RouteAt(route, Routable(TypeOf(flag)) && RouteBit(flag), end)
  {
  }

  /** Decode returns m exactly if the bytes say m in the format above. */
  lemma DecodeOkIff(z: Zlib, codes: map<Uint16, Bytes>, b: Bytes, m: Msg)
    ensures Decode(z, codes, b) == Decoded(m) <==> exists l :: Says(z, codes, b, l, m)
  {
    if |b| >= 2 && TypeOf(b[0]) <= 2 {
      var flag := b[0];
      if Decode(z, codes, b) == Decoded(m) {
        var (id, at) := IdOf(b);
        var r := ScanRoute(codes, flag, b, at);
        var l := Layout(at, r.end, RouteBit(flag), GzipBit(flag));
        FlagSaysIff(flag, m.typ, l.coded, l.gzip, m.err);
        IdSaysIff(b, m.typ, m.id, at);
        RouteSaysIff(codes, flag, b, at, m.route, r.end);
        assert Says(z, codes, b, l, m);
      }
    }
    if l :| Says(z, codes, b, l, m) {
      SaysDecodes(z, codes, b, l, m);
    }
  }

  lemma SaysDecodes(z: Zlib, codes: map<Uint16, Bytes>, b: Bytes, l: Layout, m: Msg)
    requires Says(z, codes, b, l, m)
    ensures Decode(z, codes, b) == Decoded(m)
  {
    FlagSaysIff(b[0], m.typ, l.coded, l.gzip, m.err);
    IdSaysIff(b, m.typ, m.id, l.idEnd);
    RouteSaysIff(codes, b[0], b, l.idEnd, m.route, l.routeEnd);
  }

  /** And when it does not: too short or cut off inside the route, a type above Response, an unknown code, a payload
      that does not inflate; or it panics, when a length byte is due and nothing is left. */
  lemma DecodeFailsBy(z: Zlib, codes: map<Uint16, Bytes>, b: Bytes,
                      typ: Byte, coded: bool, gzip: bool, err: bool, id: Uint64, at: nat)
    requires |b| >= 2 && FlagSays(b[0], typ, coded, gzip, err) && (typ <= 2 ==> IdSays(b, typ, id, at))
    ensures var d := Decode(z, codes, b);
            if typ > 2 then d == DecodeFailed(WrongMessageType)
            else if typ <= 1 && coded && at + 2 > |b| then d == DecodeFailed(InvalidMessage)
            else if typ <= 1 && coded && 256 * (b[at] as int) + b[at + 1] as int !in codes then
              d == DecodeFailed(RouteInfoNotFound)
            else if typ <= 1 && !coded && at == |b| then d == Panicked
            else if typ <= 1 && !coded && at + 1 + b[at] > |b| then d == DecodeFailed(InvalidMessage)
            else var end := if typ == 2 then at else if coded then at + 2 else at + 1 + b[at];
                 if gzip && z.inflate(b[end..]).None? then d == DecodeFailed(InflateFailed) else d.Decoded?
  {
    FlagSaysIff(b[0], typ, coded, gzip, err);
    if typ <= 2 { IdSaysIff(b, typ, id, at); }
  }

  lemma TooShortFails(z: Zlib, codes: map<Uint16, Bytes>, b: Bytes)
    requires |b| < 2
    ensures Decode(z, codes, b) == DecodeFailed(InvalidMessage)
  {
  }

  // ---------- the objects ----------

  class Message {
    var typ: Byte
    var id: Uint64
    var route: Bytes
    var data: Bytes
    var compressed: bool
    var err: bool

    ghost function View(): Msg
      reads this
    {
      Msg(typ, id, route, data, compressed, err)
    }

    constructor ()
      ensures View() == Msg(0, 0, [], [], false, false)
    {
      typ, id, route, data, compressed, err := 0, 0, [], [], false, false;
    }
  }

  class MessagesEncoder {
    const dataCompression: bool
    const zlib: Zlib
    const dictionary: RouteDictionary

    constructor (dataCompression: bool, zlib: Zlib, dictionary: RouteDictionary)
      ensures this.dataCompression == dataCompression && this.zlib == zlib && this.dictionary == dictionary
    {
      this.dataCompression, this.zlib, this.dictionary := dataCompression, zlib, dictionary;
    }

    /** The variable-length loop of Encode. */
    method AppendId(buf0: Bytes, id: Uint64) returns (buf: Bytes)
      ensures buf == buf0 + EncodeId(id)
    {
      buf := buf0;
      var n: int, more := id, true;
      while more
        invariant n >= 0
        invariant more ==> buf + EncodeId(n) == buf0 + EncodeId(id)
        invariant !more ==> buf == buf0 + EncodeId(id)
        decreases more, n
      {
        var b := n % 128;
        ghost var n0, buf1 := n, buf;
        n := n / 128;
        if n != 0 {
          buf := buf + [b + 128];
          assert buf + EncodeId(n) == buf1 + EncodeId(n0);
        } else {
          buf := buf + [b];
          more := false;
        }
      }
    }

    /** The route as Encode appends it: a big-endian code, or a length byte and the bytes. */
    method AppendRoute(buf0: Bytes, message: Message) returns (buf: Bytes)
      ensures buf == buf0 + RoutePart(dictionary.routes, message.View())
    {
      buf := buf0;
      if Routable(message.typ) {
        if message.route in dictionary.routes {
          var code := dictionary.routes[message.route];
          buf := buf + [HighByte(code)];
          buf := buf + [LowByte(code)];
        } else {
          buf := buf + [LengthByte(message.route)];
          buf := buf + message.route;
        }
      }
    }

    /** Everything before the payload, with the gzip bit still clear. */
    method EncodeHead(message: Message) returns (buf: Bytes)
      requires !InvalidType(message.typ)
      ensures buf == Head(dictionary.routes, message.View())
    {
      var flag := Flag(message.typ, message.route in dictionary.routes, message.err, false);
      buf := [flag];
      if HasId(message.typ) {
        buf := AppendId(buf, message.id);
      }
      assert buf == [flag] + IdPart(message.View());
      buf := AppendRoute(buf, message);
      AppendedIsFramed(flag, dictionary.routes, message.View());
    }

    /** Data is replaced by its deflated form when that is what goes out; nothing else of the message changes. */
    method EncodeMessage(message: Message) returns (result: Encoding)
      modifies message`data
      ensures result == Encode(zlib, dataCompression, dictionary.routes, old(message.View()))
      ensures message.data == if result.Encoded? then result.data else old(message.data)
    {
      if InvalidType(message.typ) {
        return EncodeFailed(WrongMessageType);
      }
      ghost var m := message.View();
      var buf := EncodeHead(message);
      if dataCompression {
        var d := zlib.deflate(message.data);
        if d.None? {
          return EncodeFailed(DeflateFailed);
        }
        if |d.value| < |message.data| {
          message.data := d.value;
          EncodedDeflated(zlib, dictionary.routes, m);
          buf := buf[0 := buf[0] + 0x10];
          return Encoded(buf + message.data, message.data);
        }
      }
      EncodedPlain(zlib, dataCompression, dictionary.routes, m);
      return Encoded(buf + message.data, message.data);
    }

    /** The accumulating loop of Decode; `offset` stays at 1 when no byte below 128 turns up. */
    method ReadId(data: Bytes) returns (id: Uint64, offset: nat)
      requires |data| >= 2 && HasId(TypeOf(data[0]))
      ensures (id, offset) == IdOf(data)
    {
      id, offset := 0, 1;
      var i, weight := 1, 1;
      while i < |data|
        invariant 1 <= i <= |data| && offset == 1
        invariant weight == Pow128(i - 1)
        invariant ScanId(data, i, id) == ScanId(data, 1, 0)
      {
        var b := data[i];
        ghost var id0 := id;
        id := Wrap(id + Group(b) * weight);
        if b < 128 {
          assert ScanId(data, i, id0) == IdScan(id, Some(i + 1));
          return id, i + 1;
        }
        assert ScanId(data, i, id0) == ScanId(data, i + 1, id);
        i, weight := i + 1, 128 * weight;
      }
    }

    method DecodeMessage(data: Bytes) returns (outcome: Decoding, m: Message?)
      ensures outcome == Decode(zlib, dictionary.codes, data)
      ensures outcome.Decoded? ==> m != null && fresh(m) && m.View() == outcome.msg
    {
      if |data| < 2 {
        return DecodeFailed(InvalidMessage), null;
      }
      m := new Message();
      var flag, offset := data[0], 1;
      m.typ := TypeOf(flag);
      if InvalidType(m.typ) {
        return DecodeFailed(WrongMessageType), null;
      }
      if HasId(m.typ) {
        m.id, offset := ReadId(data);
      }
      assert (m.id, offset) == IdOf(data);
      m.err := ErrorBit(flag);
      match ScanRoute(dictionary.codes, flag, data, offset) {
        case RouteError(e) => return DecodeFailed(e), null;
        case RoutePanic => return Panicked, null;
        case RouteAt(route, compressed, end) =>
          m.route, m.compressed, offset := route, compressed, end;
      }
      m.data := data[offset..];
      if GzipBit(flag) {
        var inflated := zlib.inflate(m.data);
        if inflated.None? {
          return DecodeFailed(InflateFailed), null;
        }
        m.data := inflated.value;
      }
      outcome := Decoded(Msg(m.typ, m.id, m.route, m.data, m.compressed, m.err));
    }
  }
}
