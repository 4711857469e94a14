/** The two wire layers together: messages sent as Data packets. */
module Wire {
  import opened Base
  import opened Dictionary
  import opened Messages
  import opened Packets

  /** The Data packet that carries `m`. */
  ghost function Carry(z: Zlib, on: bool, d: Dict, m: Msg): Packet
    requires Messages.Encode(z, on, d.routes, m).Encoded?
  {
    var b := Messages.Encode(z, on, d.routes, m).bytes;
    Packet(DATA, |b|, b)
  }

  /** `m` can be encoded, its route fits, and the encoding fits one packet. */
  ghost predicate Transmissible(z: Zlib, on: bool, d: Dict, m: Msg) {
    && Messages.Encode(z, on, d.routes, m).Encoded?
    && RouteFits(d.routes, m)
    && |Messages.Encode(z, on, d.routes, m).bytes| < MAX_PACKET_SIZE
  }

  ghost function CarryAll(z: Zlib, on: bool, d: Dict, ms: seq<Msg>): (ps: seq<Packet>)
    requires forall i :: 0 <= i < |ms| ==> Transmissible(z, on, d, ms[i])
    ensures |ps| == |ms|
  {
    seq(|ms|, i requires 0 <= i < |ms| && Transmissible(z, on, d, ms[i]) => Carry(z, on, d, ms[i]))
  }

  /** Any list of messages sent as Data packets, the stream cut anywhere inside a further packet and read under any
      later dictionary, comes back as that list: the same number of packets, and the i-th decodes to the i-th
      message. */
  lemma MessageStreamRoundTrip(z: Zlib, on: bool, d: Dict, trim: Bytes -> Bytes, calls: seq<seq<Entry>>,
                               ms: seq<Msg>, next: Packet, cut: nat)
    requires Lawful(z) && Inverse(d)
    requires forall i :: 0 <= i < |ms| ==> Transmissible(z, on, d, ms[i])
    requires Sendable(next) && cut < HEAD_LENGTH + |next.data|
    ensures var r := Parse(Stream(CarryAll(z, on, d, ms)) + Frame(next.typ, next.data)[..cut]);
            && r.Ok? && |r.value| == |ms|
            && forall i :: 0 <= i < |ms| ==>
                 Messages.Decode(z, InstallAll(d, trim, calls).codes, r.value[i].data)
                 == Decoded(Canonical(d.routes, ms[i]))
  {
    var ps := CarryAll(z, on, d, ms);
    forall i | 0 <= i < |ms|
      ensures Sendable(ps[i])
      ensures Messages.Decode(z, InstallAll(d, trim, calls).codes, ps[i].data) == Decoded(Canonical(d.routes, ms[i]))
    {
      SentMeaningSurvivesGrowth(z, on, d, trim, calls, ms[i]);
    }
    StreamRoundTrip(ps, next, cut);
  }
}
