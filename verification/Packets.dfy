/** The packet layer of conn/codec, the Pomelo communication protocol: one type byte, a three-byte
    big-endian length, the data. */
module Packets {
  import opened Base

  const HEAD_LENGTH := 4
  const MAX_PACKET_SIZE := 0x100_0000
  const HANDSHAKE := 1
  const DATA := 4

  datatype PacketError = WrongPacketType | InvalidHeader | PacketSizeExceeded

  datatype Packet = Packet(typ: Byte, length: nat, data: Bytes)

  datatype Result<+T> = Ok(value: T) | Err(error: PacketError)

  predicate KnownType(typ: Byte) { HANDSHAKE <= typ <= DATA }

  // ---------- lengths ----------

  /** The number that bytes denote, most significant first. */
  ghost function BigEndian(s: Bytes): nat {
    if s == [] then 0 else 256 * BigEndian(s[..|s| - 1]) + s[|s| - 1]
  }

  function Int24(a: nat, b: nat, c: nat): nat { 65536 * a + 256 * b + c }

  lemma BigEndian3(s: Bytes)
    requires |s| == 3
    ensures BigEndian(s) == Int24(s[0], s[1], s[2])
  {
    assert s[..2][..1] == s[..1] && s[..1][..0] == [];
    assert BigEndian(s[..1]) == 256 * BigEndian([]) + s[0];
    assert BigEndian(s[..2]) == 256 * BigEndian(s[..1]) + s[1];
  }

  function HighByte(n: nat): Byte { n / 65536 % 256 }
  function MiddleByte(n: nat): Byte { n / 256 % 256 }
  function LowByte(n: nat): Byte { n % 256 }

  lemma SplitThree(n: nat)
    ensures n == MAX_PACKET_SIZE * (n / 256 / 256 / 256) + Int24(n / 256 / 256 % 256, n / 256 % 256, n % 256)
  {
    var m := n / 256;
    var k := m / 256;
    assert n == 256 * m + n % 256;
    assert m == 256 * k + m % 256;
    assert k == 256 * (k / 256) + k % 256;
  }

  lemma ByteBounds(a: Byte, b: Byte, c: Byte, q: nat, n: nat)
    requires n == MAX_PACKET_SIZE * q + Int24(a, b, c)
    ensures n % MAX_PACKET_SIZE == Int24(a, b, c)
  {
  }

  /** Three bytes hold a length modulo 2^24. */
  lemma LengthBytes(n: nat)
    ensures Int24(HighByte(n), MiddleByte(n), LowByte(n)) == n % MAX_PACKET_SIZE
  {
    assert n / 65536 == n / 256 / 256;
    SplitThree(n);
    ByteBounds(HighByte(n), MiddleByte(n), LowByte(n), n / 256 / 256 / 256, n);
  }

  lemma LengthFits(n: nat)
    requires n < MAX_PACKET_SIZE
    ensures Int24(HighByte(n), MiddleByte(n), LowByte(n)) == n
  {
    var m := n / 256;
    assert n == 256 * m + n % 256 && m == 256 * (m / 256) + m % 256;
    assert n / 65536 == m / 256;
    assert 0 <= m / 256 < 256;
  }

  lemma DivisionByteIs(q: int, r: int)
    requires 0 <= r < 256
    ensures (256 * q + r) / 256 == q && (256 * q + r) % 256 == r
  {
  }

  /** The three length bytes of a number made of three bytes. */
  lemma LengthBytesOf(a: Byte, b: Byte, c: Byte)
    ensures var n := Int24(a, b, c); HighByte(n) == a && MiddleByte(n) == b && LowByte(n) == c && n < MAX_PACKET_SIZE
  {
    var n := Int24(a, b, c);
    assert n == 256 * (256 * a + b) + c;
    DivisionByteIs(256 * a + b, c);
    DivisionByteIs(a, b);
    assert n / 65536 == n / 256 / 256;
  }

  method BytesToInt(b: Bytes) returns (result: nat)
    ensures result == BigEndian(b)
  {
    result := 0;
    for i := 0 to |b|
      invariant result == BigEndian(b[..i])
    {
      assert b[..i + 1][..i] == b[..i];
      result := 256 * result + b[i];
    }
    assert b[..|b|] == b;
  }

  method IntToBytes(n: nat) returns (buf: array<Byte>)
    ensures fresh(buf) && buf.Length == 3
    ensures BigEndian(buf[..]) == n % MAX_PACKET_SIZE
    ensures buf[..] == [HighByte(n), MiddleByte(n), LowByte(n)]
  {
    buf := new Byte[3];
    buf[0] := HighByte(n);
    buf[1] := MiddleByte(n);
    buf[2] := LowByte(n);
    LengthBytes(n);
    BigEndian3(buf[..]);
  }

  // ---------- encoding ----------

  ghost function Frame(typ: Byte, data: Bytes): (b: Bytes)
    ensures |b| == HEAD_LENGTH + |data|
  {
    [typ, HighByte(|data|), MiddleByte(|data|), LowByte(|data|)] + data
  }

  ghost function EncodePacket(typ: Byte, data: Bytes): Result<Bytes> {
    if !KnownType(typ) then Err(WrongPacketType)
    else if |data| > MAX_PACKET_SIZE then Err(PacketSizeExceeded)
    else Ok(Frame(typ, data))
  }

  method Encode(typ: Byte, data: Bytes) returns (r: Result<array<Byte>>)
    ensures match EncodePacket(typ, data)
            case Ok(bytes) => r.Ok? && fresh(r.value) && r.value[..] == bytes
            case Err(e) => r == Err(e)
  {
    if !KnownType(typ) {
      return Err(WrongPacketType);
    }
    if |data| > MAX_PACKET_SIZE {
      return Err(PacketSizeExceeded);
    }
    var buf := new Byte[|data| + HEAD_LENGTH];
    buf[0] := typ;
    var length := IntToBytes(|data|);
    forall i | 0 <= i < 3 { buf[1 + i] := length[i]; }
    forall i | 0 <= i < |data| { buf[HEAD_LENGTH + i] := data[i]; }
    assert length[..] == [HighByte(|data|), MiddleByte(|data|), LowByte(|data|)];
    assert buf[..] == Frame(typ, data);
    return Ok(buf);
  }

  // ---------- decoding ----------

  /** The size a four-byte header announces. */
  ghost function SizeOf(header: Bytes): nat
    requires |header| >= HEAD_LENGTH
  {
    Int24(header[1], header[2], header[3])
  }

  method ParseHeader(header: Bytes) returns (r: Result<(nat, Byte)>)
    ensures |header| != HEAD_LENGTH ==> r == Err(InvalidHeader)
    ensures |header| == HEAD_LENGTH ==>
              r == if KnownType(header[0]) then Ok((SizeOf(header), header[0])) else Err(WrongPacketType)
  {
    if |header| != HEAD_LENGTH {
      return Err(InvalidHeader);
    }
    if !KnownType(header[0]) {
      return Err(WrongPacketType);
    }
    var size := BytesToInt(header[1..]);
    BigEndian3(header[1..]);
    // Three bytes stay below MAX_PACKET_SIZE, so the size check that follows in the source never fires.
    assert size < MAX_PACKET_SIZE;
    return Ok((size, header[0]));
  }

  /** The packets that `b` starts with, up to the first one that is not complete. */
  ghost function Parse(b: Bytes): Result<seq<Packet>>
    decreases |b|
  {
    if |b| < HEAD_LENGTH then Ok([])
    else if !KnownType(b[0]) then Err(WrongPacketType)
    else if SizeOf(b) > |b| - HEAD_LENGTH then Ok([])
    else
      var end := HEAD_LENGTH + SizeOf(b);
      Prepend([Packet(b[0], SizeOf(b), b[HEAD_LENGTH..end])], Parse(b[end..]))
  }

  ghost function Prepend(ps: seq<Packet>, r: Result<seq<Packet>>): (all: Result<seq<Packet>>)
    ensures ps == [] ==> all == r
    ensures r == Ok([]) ==> all == Ok(ps)
  {
    assert r == Ok([]) ==> ps + r.value == ps;
    assert r.Ok? && ps == [] ==> ps + r.value == r.value;
    if r.Ok? then Ok(ps + r.value) else r
  }

  lemma PrependMore(ps: seq<Packet>, p: Packet, r: Result<seq<Packet>>)
    ensures Prepend(ps, Prepend([p], r)) == Prepend(ps + [p], r)
  {
    if r.Ok? { assert ps + ([p] + r.value) == ps + [p] + r.value; }
  }

  /** One turn of the stream loop. */
  lemma ParseStep(b: Bytes, ps: seq<Packet>)
    requires |b| >= HEAD_LENGTH && KnownType(b[0]) && SizeOf(b) <= |b| - HEAD_LENGTH
    ensures var end := HEAD_LENGTH + SizeOf(b);
            Prepend(ps, Parse(b)) == Prepend(ps + [Packet(b[0], SizeOf(b), b[HEAD_LENGTH..end])], Parse(b[end..]))
  {
    var end := HEAD_LENGTH + SizeOf(b);
    PrependMore(ps, Packet(b[0], SizeOf(b), b[HEAD_LENGTH..end]), Parse(b[end..]));
  }

  /** The stream loop: `buf` is what is left of the buffer after the header (size, typ) was taken off it. */
  method Decode(data: Bytes) returns (r: Result<seq<Packet>>)
    ensures r == Parse(data)
  {
    var buf := data;
    var packets := [];
    if |buf| < HEAD_LENGTH {
      return Ok([]);
    }
    var head := ParseHeader(buf[..HEAD_LENGTH]);
    if head.Err? {
      return Err(head.error);
    }
    var (size, typ) := head.value;
    ghost var start := buf;
    buf := buf[HEAD_LENGTH..];
    while size <= |buf|
      invariant |start| >= HEAD_LENGTH && buf == start[HEAD_LENGTH..]
      invariant KnownType(start[0]) && typ == start[0] && size == SizeOf(start)
      invariant Parse(data) == Prepend(packets, Parse(start))
      decreases |buf|
    {
      ParseStep(start, packets);
      packets := packets + [Packet(typ, size, buf[..size])];
      assert buf[..size] == start[HEAD_LENGTH..HEAD_LENGTH + size];
      assert buf[size..] == start[HEAD_LENGTH + size..];
      buf := buf[size..];
      assert Parse(data) == Prepend(packets, Parse(buf));
      if |buf| < HEAD_LENGTH {
        return Ok(packets);
      }
      head := ParseHeader(buf[..HEAD_LENGTH]);
      if head.Err? {
        return Err(head.error);
      }
      size, typ := head.value.0, head.value.1;
      start := buf;
      buf := buf[HEAD_LENGTH..];
    }
    return Ok(packets);
  }

  // ---------- what decoding means ----------

  /** A packet the wire can carry. */
  ghost predicate Sendable(p: Packet) {
    KnownType(p.typ) && p.length == |p.data| && |p.data| < MAX_PACKET_SIZE
  }

  ghost predicate AllSendable(ps: seq<Packet>) { forall i :: 0 <= i < |ps| ==> Sendable(ps[i]) }

  ghost function Stream(ps: seq<Packet>): Bytes {
    if ps == [] then [] else Frame(ps[0].typ, ps[0].data) + Stream(ps[1..])
  }

  /** No complete packet at the front: too short for a header, or for what the header announces. */
  ghost predicate Incomplete(b: Bytes) {
    |b| < HEAD_LENGTH || (KnownType(b[0]) && SizeOf(b) > |b| - HEAD_LENGTH)
  }

  ghost predicate BadHeader(b: Bytes) { |b| >= HEAD_LENGTH && !KnownType(b[0]) }

  lemma FrameSize(typ: Byte, data: Bytes, rest: Bytes)
    requires |data| < MAX_PACKET_SIZE
    ensures var b := Frame(typ, data) + rest; b[0] == typ && SizeOf(b) == |data|
  {
    var n := |data|;
    LengthFits(n);
    var b := Frame(typ, data) + rest;
    assert b[1] == HighByte(n) && b[2] == MiddleByte(n) && b[3] == LowByte(n);
  }

  lemma FrameHeader(typ: Byte, data: Bytes, rest: Bytes)
    requires |data| < MAX_PACKET_SIZE
    ensures var b := Frame(typ, data) + rest;
            && b[0] == typ && SizeOf(b) == |data|
            && b[HEAD_LENGTH..HEAD_LENGTH + |data|] == data && b[HEAD_LENGTH + |data|..] == rest
  {
    FrameSize(typ, data, rest);
  }

  lemma ParseFrame(p: Packet, rest: Bytes)
    requires Sendable(p)
    ensures Parse(Frame(p.typ, p.data) + rest) == Prepend([p], Parse(rest))
  {
    FrameHeader(p.typ, p.data, rest);
  }

  lemma StreamCons(ps: seq<Packet>, rest: Bytes)
    requires ps != []
    ensures Stream(ps) + rest == Frame(ps[0].typ, ps[0].data) + (Stream(ps[1..]) + rest)
  {
  }

  lemma PrependTwice(ps: seq<Packet>, r: Result<seq<Packet>>)
    requires ps != []
    ensures Prepend([ps[0]], Prepend(ps[1..], r)) == Prepend(ps, r)
  {
    if r.Ok? {
      assert [ps[0]] + (ps[1..] + r.value) == ps + r.value;
    }
  }

  lemma {:induction false} ParseStream(ps: seq<Packet>, rest: Bytes)
    requires AllSendable(ps)
    ensures Parse(Stream(ps) + rest) == Prepend(ps, Parse(rest))
  {
    if ps == [] {
      assert Stream(ps) + rest == rest;
    } else {
      StreamCons(ps, rest);
      ParseFrame(ps[0], Stream(ps[1..]) + rest);
      ParseStream(ps[1..], rest);
      PrependTwice(ps, Parse(rest));
    }
  }

  lemma ReframeHeader(b: Bytes)
    requires |b| >= HEAD_LENGTH && SizeOf(b) <= |b| - HEAD_LENGTH
    ensures Frame(b[0], b[HEAD_LENGTH..HEAD_LENGTH + SizeOf(b)]) == b[..HEAD_LENGTH + SizeOf(b)]
    ensures SizeOf(b) < MAX_PACKET_SIZE
  {
    LengthBytesOf(b[1], b[2], b[3]);
    var n := SizeOf(b);
    var data := b[HEAD_LENGTH..HEAD_LENGTH + n];
    assert b[..HEAD_LENGTH] == [b[0], HighByte(n), MiddleByte(n), LowByte(n)];
    assert b[..HEAD_LENGTH + n] == b[..HEAD_LENGTH] + data;
  }

  /** Every input splits into complete packets and a rest that is incomplete or has a bad header. */
  lemma {:induction false} Splits(b: Bytes) returns (ps: seq<Packet>, rest: Bytes)
    ensures AllSendable(ps) && b == Stream(ps) + rest && (Incomplete(rest) || BadHeader(rest))
    decreases |b|
  {
    if Incomplete(b) || BadHeader(b) {
      ps, rest := [], b;
    } else {
      ReframeHeader(b);
      var end := HEAD_LENGTH + SizeOf(b);
      var p := Packet(b[0], SizeOf(b), b[HEAD_LENGTH..end]);
      var qs;
      qs, rest := Splits(b[end..]);
      ps := [p] + qs;
      assert ps[0] == p && ps[1..] == qs;
      StreamCons(ps, rest);
      assert b[..end] == Frame(p.typ, p.data) && b[end..] == Stream(qs) + rest;
      assert b == b[..end] + b[end..];
    }
  }

  lemma OkSplits(b: Bytes, ps: seq<Packet>)
    requires Parse(b) == Ok(ps)
    ensures && AllSendable(ps) && |Stream(ps)| <= |b| && b[..|Stream(ps)|] == Stream(ps)
            && Incomplete(b[|Stream(ps)|..])
  {
    var qs, rest := Splits(b);
    ParseStream(qs, rest);
    assert Parse(b) == Prepend(qs, Parse(rest));
    assert Incomplete(rest) && Parse(rest) == Ok([]) && qs == ps;
    assert b[|Stream(ps)|..] == rest;
  }

  /** Soundness, completeness and maximality for arbitrary bytes: Decode returns `ps` exactly when the input is the
      encoding of `ps` followed by something that holds no further complete packet. */
  lemma ParseOkIff(b: Bytes, ps: seq<Packet>)
    ensures Parse(b) == Ok(ps)
            <==> && AllSendable(ps) && |Stream(ps)| <= |b| && b[..|Stream(ps)|] == Stream(ps)
                 && Incomplete(b[|Stream(ps)|..])
  {
    if Parse(b) == Ok(ps) { OkSplits(b, ps); }
    if AllSendable(ps) && |Stream(ps)| <= |b| && b[..|Stream(ps)|] == Stream(ps) && Incomplete(b[|Stream(ps)|..]) {
      var tail := b[|Stream(ps)|..];
      assert b == Stream(ps) + tail;
      ParseStream(ps, tail);
    }
  }

  /** Decode fails exactly when complete packets are followed by a header of unknown type; it then returns none of
      them. */
  lemma ParseErrIff(b: Bytes)
    ensures Parse(b).Err? <==> exists ps, rest :: AllSendable(ps) && b == Stream(ps) + rest && BadHeader(rest)
    ensures Parse(b).Err? ==> Parse(b) == Err(WrongPacketType)
  {
    var qs, rest := Splits(b);
    ParseStream(qs, rest);
    if ps, tail :| AllSendable(ps) && b == Stream(ps) + tail && BadHeader(tail) {
      ParseStream(ps, tail);
    }
  }

  /** A stream cut anywhere inside its next packet yields exactly the packets before the cut. */
  lemma StreamRoundTrip(ps: seq<Packet>, next: Packet, cut: nat)
    requires AllSendable(ps) && Sendable(next) && cut < HEAD_LENGTH + |next.data|
    ensures Parse(Stream(ps) + Frame(next.typ, next.data)[..cut]) == Ok(ps)
  {
    var tail := Frame(next.typ, next.data)[..cut];
    FrameHeader(next.typ, next.data, []);
    assert Frame(next.typ, next.data) + [] == Frame(next.typ, next.data);
    assert Incomplete(tail);
    ParseStream(ps, tail);
  }

  /** Encode also accepts data of exactly 2^24 bytes, whose length field wraps to zero: one packet comes back
      unchanged exactly when its data is shorter than that. */
  lemma PacketRoundTripIff(typ: Byte, data: Bytes)
    requires EncodePacket(typ, data).Ok?
    ensures Parse(EncodePacket(typ, data).value) == Ok([Packet(typ, |data|, data)]) <==> |data| < MAX_PACKET_SIZE
  {
    var p, b := Packet(typ, |data|, data), Frame(typ, data);
    if |data| < MAX_PACKET_SIZE {
      assert b + [] == b;
      ParseFrame(p, []);
    } else {
      ParseOkIff(b, [p]);
    }
  }

  lemma FullLengthIsZero()
    ensures HighByte(MAX_PACKET_SIZE) == 0 && MiddleByte(MAX_PACKET_SIZE) == 0 && LowByte(MAX_PACKET_SIZE) == 0
  {
  }

  lemma EmptyThenRest(typ: Byte, rest: Bytes)
    requires KnownType(typ)
    ensures Parse([typ, 0, 0, 0] + rest) == Prepend([Packet(typ, 0, [])], Parse(rest))
  {
    var b := [typ, 0, 0, 0] + rest;
    assert b[HEAD_LENGTH..HEAD_LENGTH] == [] && b[HEAD_LENGTH..] == rest;
  }

  /** What becomes of a packet of exactly 2^24 bytes: the receiver sees an empty packet and takes the data for what
      follows. */
  lemma FullPacketIsReparsed(typ: Byte, data: Bytes)
    requires KnownType(typ) && |data| == MAX_PACKET_SIZE
    ensures EncodePacket(typ, data).Ok?
    ensures Parse(EncodePacket(typ, data).value) == Prepend([Packet(typ, 0, [])], Parse(data))
  {
    var b := Frame(typ, data);
    FullLengthIsZero();
    assert b == [typ, 0, 0, 0] + data;
    EmptyThenRest(typ, data);
  }

  /** So 2^24 zero bytes are sent and then refused as a whole. */
  lemma ZeroesAreRefused()
    ensures var data: Bytes := seq(MAX_PACKET_SIZE, _ => 0);
            EncodePacket(DATA, data).Ok? && Parse(EncodePacket(DATA, data).value) == Err(WrongPacketType)
  {
    FullPacketIsReparsed(DATA, seq(MAX_PACKET_SIZE, _ => 0));
  }

  // ---------- in the protocol's own numbers ----------

  /** Packet types are 1 to 4 and data may have up to 2^24 bytes; nothing else is refused, and the type is looked at
      first. */
  lemma EncodeAcceptsIff(typ: Byte, data: Bytes)
    ensures EncodePacket(typ, data).Ok? <==> 1 <= typ <= 4 && |data| <= 0x100_0000
    ensures EncodePacket(typ, data) == Err(WrongPacketType) <==> typ == 0 || typ >= 5
  {
  }

  /** What is sent: the type, the length in three bytes with the most significant first, the data. */
  lemma EncodeWrites(typ: Byte, data: Bytes) returns (a: Byte, b: Byte, c: Byte)
    requires 1 <= typ <= 4 && |data| < 0x100_0000
    ensures |data| == Int24(a, b, c) == Base256([a, b, c])
    ensures EncodePacket(typ, data) == Ok([typ, a, b, c] + data)
  {
    a, b, c := HighByte(|data|), MiddleByte(|data|), LowByte(|data|);
    LengthFits(|data|);
    Base256Of(a, b, c);
  }

  /** The value of digits to the base 256, the first one counting most. */
  ghost function Base256(s: seq<int>): int { if s == [] then 0 else s[0] * Power256(|s| - 1) + Base256(s[1..]) }

  ghost function Power256(k: nat): nat { if k == 0 then 1 else 256 * Power256(k - 1) }

  lemma Base256Of(a: int, b: int, c: int)
    requires a >= 0 && b >= 0 && c >= 0
    ensures Base256([a, b, c]) == Int24(a, b, c)
  {
    assert [a, b, c][1..] == [b, c] && [b, c][1..] == [c] && [c][1..] == [];
    assert Base256([c]) == c && Base256([b, c]) == 256 * b + c;
    assert Power256(2) == 256 * Power256(1) == 65536;
  }

  /** Every header of type 1 to 4 followed by as many bytes as it announces is read as that packet, and every other
      header is an error, whatever follows. */
  lemma DecodeReads(typ: Byte, a: Byte, b: Byte, c: Byte, data: Bytes, rest: Bytes)
    requires Base256([a, b, c]) == |data|
    ensures Parse([typ, a, b, c] + data + rest)
            == if typ == 0 || typ >= 5 then Err(WrongPacketType)
               else if Parse(rest).Err? then Parse(rest)
               else Ok([Packet(typ, |data|, data)] + Parse(rest).value)
  {
    var bytes := [typ, a, b, c] + data + rest;
    Base256Of(a, b, c);
    assert bytes[0] == typ && bytes[1] == a && bytes[2] == b && bytes[3] == c;
    assert SizeOf(bytes) == |data|;
    assert bytes[HEAD_LENGTH..HEAD_LENGTH + |data|] == data && bytes[HEAD_LENGTH + |data|..] == rest;
  }

  /** A header alone. */
  lemma HeaderDecides(typ: Byte)
    ensures Parse([typ, 0, 0, 0]) == if 1 <= typ <= 4 then Ok([Packet(typ, 0, [])]) else Err(WrongPacketType)
  {
    assert [typ, 0, 0, 0] + [] == [typ, 0, 0, 0];
    if 1 <= typ <= 4 {
      EmptyThenRest(typ, []);
    }
  }
}
