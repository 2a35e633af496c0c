/** Packets on the wire (reference/RNS/Packet.py), link ids and signalling bytes (reference/RNS/Link.py), and the
    sizes that decide how a message travels (reference/RNS/Link.py, reference/LXMF/LXMessage.py). */
module PacketWire {
  import opened Prelude
  import opened LxmfMessage

  const DST_LEN: nat := TRUNCATED_HASHLENGTH
  const HEADER_MINSIZE: nat := 19
  const HEADER_MAXSIZE: nat := 35

  const ANNOUNCE: nat := 1
  const LINKREQUEST: nat := 2
  const PROOF: nat := 3
  const DESTINATION_LINK: nat := 3

  const RESOURCE: Byte := 0x01
  const RESOURCE_PRF: Byte := 0x05
  const CACHE_REQUEST: Byte := 0x08
  const KEEPALIVE: Byte := 0xFA
  const LRPROOF: Byte := 0xFF

  /** The fields of a packet; transport id present exactly with the second header type. */
  datatype Packet = Packet(contextFlag: bool, transported: bool, destinationType: nat, packetType: nat, hops: Byte,
                           transportId: Option<Bytes>, destination: Bytes, context: Byte, data: Bytes)

  ghost predicate Valid(p: Packet) {
    && p.destinationType < 4 && p.packetType < 4 && |p.destination| == DST_LEN
    && (p.transportId.Some? ==> |p.transportId.value| == DST_LEN)
  }

  function Bit(b: bool): nat {
    if b then 1 else 0
  }

  /** The destination type in the flags: a link proof always says it is for a link. */
  function WireType(p: Packet): nat {
    if p.context == LRPROOF then DESTINATION_LINK else p.destinationType
  }

  function OnWire(p: Packet): Packet {
    p.(destinationType := WireType(p))
  }

  /** get_packed_flags */
  function Flags(p: Packet): Byte
    requires p.destinationType < 4 && p.packetType < 4
  {
    Bit(p.transportId.Some?) * 64 + Bit(p.contextFlag) * 32 + Bit(p.transported) * 16 + WireType(p) * 4 + p.packetType
  }

  function Raw(p: Packet): Bytes
    requires p.destinationType < 4 && p.packetType < 4
  {
    [Flags(p), p.hops] + (if p.transportId.Some? then p.transportId.value else []) + p.destination + [p.context] + p.data
  }

  predicate SecondHeader(raw: Bytes)
    requires |raw| > 0
  {
    raw[0] / 64 % 2 == 1
  }

  /** unpack; None where it fails. The top bit of the flags is not looked at. */
  function Parse(raw: Bytes): Option<Packet> {
    if |raw| < 2 then None
    else
      var at := if SecondHeader(raw) then 2 + DST_LEN else 2;
      if |raw| < at + DST_LEN + 1 then None
      else
        Some(Packet(raw[0] / 32 % 2 == 1, raw[0] / 16 % 2 == 1, raw[0] / 4 % 4, raw[0] % 4, raw[1],
                    if SecondHeader(raw) then Some(raw[2..at]) else None,
                    raw[at..at + DST_LEN], raw[at + DST_LEN], raw[at + DST_LEN + 1..]))
  }

  lemma By4(w: nat, e: nat)
    requires e < 4
    ensures (w * 4 + e) / 4 == w && (w * 4 + e) % 4 == e
  {
  }

  lemma By16(x: nat, z: nat)
    requires z < 16
    ensures (x * 16 + z) / 16 == x && (x * 16 + z) % 16 == z
  {
  }

  lemma LowBits(x: nat, y: nat, d: nat, e: nat)
    requires d < 4 && e < 4 && y == x * 16 + d * 4 + e
    ensures y / 16 == x && y / 4 % 4 == d && y % 4 == e && y % 16 == d * 4 + e
  {
    By16(x, d * 4 + e);
    By4(x * 4 + d, e);
    By4(x, d);
    assert y == x * 16 + (d * 4 + e) == (x * 4 + d) * 4 + e;
  }

  lemma HighBits(a: nat, b: nat, c: nat, y: nat)
    requires a < 2 && b < 2 && c < 2 && y / 16 == a * 4 + b * 2 + c
    ensures y < 128 && y / 64 % 2 == a && y / 32 % 2 == b && y / 16 % 2 == c
  {
  }

  lemma FlagBits(p: Packet)
    requires p.destinationType < 4 && p.packetType < 4
    ensures var f := Flags(p);
            && f < 128 && f / 64 % 2 == Bit(p.transportId.Some?) && f / 32 % 2 == Bit(p.contextFlag)
            && f / 16 % 2 == Bit(p.transported) && f / 4 % 4 == WireType(p) && f % 4 == p.packetType
            && f % 16 == WireType(p) * 4 + p.packetType
  {
    var a, b, c := Bit(p.transportId.Some?), Bit(p.contextFlag), Bit(p.transported);
    LowBits(a * 4 + b * 2 + c, Flags(p), WireType(p), p.packetType);
    HighBits(a, b, c, Flags(p));
  }

  lemma RawAt(p: Packet)
    requires Valid(p)
    ensures var raw := Raw(p);
            var at := if p.transportId.Some? then 2 + DST_LEN else 2;
            && |raw| == at + DST_LEN + 1 + |p.data| && raw[0] == Flags(p) && raw[1] == p.hops
            && raw[at..] == p.destination + [p.context] + p.data
            && (p.transportId.Some? ==> raw[2..at] == p.transportId.value)
  {
    var raw := Raw(p);
    if p.transportId.Some? {
      assert raw[18..] == p.destination + [p.context] + p.data;
    } else {
      assert raw[2..] == p.destination + [p.context] + p.data;
    }
  }

  lemma TailAt(destination: Bytes, context: Byte, data: Bytes)
    requires |destination| == DST_LEN
    ensures var t := destination + [context] + data;
            t[..DST_LEN] == destination && t[DST_LEN] == context && t[DST_LEN + 1..] == data
  {
  }

  /** Whatever is packed is parsed back to the same fields, a link proof as one for a link. */
  lemma ParseRaw(p: Packet)
    requires Valid(p)
    ensures Parse(Raw(p)) == Some(OnWire(p))
  {
    var raw := Raw(p);
    FlagBits(p);
    RawAt(p);
    TailAt(p.destination, p.context, p.data);
    var at := if p.transportId.Some? then 2 + DST_LEN else 2;
    assert raw[at..at + DST_LEN] == raw[at..][..DST_LEN];
    assert raw[at + DST_LEN] == raw[at..][DST_LEN];
    assert raw[at + DST_LEN + 1..] == raw[at..][DST_LEN + 1..];
  }

  /** The packets pack leaves unencrypted. */
  predicate Open(p: Packet) {
    || p.context == LRPROOF || p.packetType == ANNOUNCE || p.packetType == LINKREQUEST
    || (p.packetType == PROOF && (p.context == RESOURCE_PRF || p.destinationType == DESTINATION_LINK))
    || p.context == RESOURCE || p.context == KEEPALIVE || p.context == CACHE_REQUEST
  }

  function Body(p: Packet, encrypt: Bytes -> Bytes): Bytes {
    if Open(p) then p.data else encrypt(p.data)
  }

  /** pack; None where it raises: over the MTU, or a second header on anything but announces and link proofs, for
      which no ciphertext is made. Link proofs never carry a transport id, whatever their flags say. */
  function Pack(p: Packet, mtu: nat, encrypt: Bytes -> Bytes): Option<Bytes>
    requires p.destinationType < 4 && p.packetType < 4
  {
    if p.context != LRPROOF && p.transportId.Some? && p.packetType != ANNOUNCE then None
    else
      var raw := if p.context == LRPROOF then [Flags(p), p.hops] + p.destination + [p.context] + p.data
                 else Raw(p.(data := Body(p, encrypt)));
      if |raw| > mtu then None else Some(raw)
  }

  /** What pack makes is parsed back to the same fields, with one exception: a link proof flagged for transport. */
  lemma PackParses(p: Packet, mtu: nat, encrypt: Bytes -> Bytes)
    requires Valid(p) && Pack(p, mtu, encrypt).Some?
    ensures (Parse(Pack(p, mtu, encrypt).value) == Some(OnWire(p.(data := Body(p, encrypt))))) == !(p.context == LRPROOF && p.transportId.Some?)
  {
    var raw := Pack(p, mtu, encrypt).value;
    var q := p.(data := Body(p, encrypt));
    if p.context == LRPROOF && p.transportId.Some? {
      FlagBits(p);
      assert raw[0] == Flags(p) && |raw| == 2 + DST_LEN + 1 + |p.data|;
      assert Parse(raw).Some? ==> |Parse(raw).value.data| == |raw| - HEADER_MAXSIZE;
    } else {
      assert p.context == LRPROOF ==> raw == Raw(p);
      ParseRaw(q);
    }
  }

  // ---- packet hash and link id ----

  /** get_hashable_part */
  function Hashable(raw: Bytes): Bytes
    requires |raw| >= 1
  {
    var at := if SecondHeader(raw) then 2 + DST_LEN else 2;
    [raw[0] % 16] + if at <= |raw| then raw[at..] else []
  }

  /** What the packet hash is over: neither hops, context flag, transport type nor the way it is routed. */
  ghost predicate SameContent(p: Packet, q: Packet) {
    && WireType(p) == WireType(q) && p.packetType == q.packetType
    && p.destination == q.destination && p.context == q.context && p.data == q.data
  }

  lemma HashableIs(p: Packet)
    requires Valid(p)
    ensures Hashable(Raw(p)) == [(WireType(p) * 4 + p.packetType) as Byte] + (p.destination + [p.context] + p.data)
  {
    FlagBits(p);
    RawAt(p);
  }

  lemma TypesFrom(a: nat, b: nat, c: nat, d: nat)
    requires a < 4 && b < 4 && c < 4 && d < 4 && a * 4 + b == c * 4 + d
    ensures a == c && b == d
  {
  }

  /** Two packets have the same hashable part if and only if they have the same content. */
  lemma HashableExact(p: Packet, q: Packet)
    requires Valid(p) && Valid(q)
    ensures Hashable(Raw(p)) == Hashable(Raw(q)) <==> SameContent(p, q)
  {
    HashableIs(p);
    HashableIs(q);
    var t, u := p.destination + [p.context] + p.data, q.destination + [q.context] + q.data;
    if Hashable(Raw(p)) == Hashable(Raw(q)) {
      assert Hashable(Raw(p))[0] == Hashable(Raw(q))[0];
      TypesFrom(WireType(p), p.packetType, WireType(q), q.packetType);
      assert t == Hashable(Raw(p))[1..] == Hashable(Raw(q))[1..] == u;
      TailAt(p.destination, p.context, p.data);
      TailAt(q.destination, q.context, q.data);
    }
  }

  const ECPUBSIZE: nat := 64

  /** link_id_from_lr_packet, before hashing: what follows the keys is cut off. */
  function LinkIdPart(p: Packet): Bytes
    requires p.destinationType < 4 && p.packetType < 4
  {
    var part := Hashable(Raw(p));
    var diff := |p.data| - ECPUBSIZE;
    if diff > 0 && diff <= |part| then part[..|part| - diff] else part
  }

  function Keys(p: Packet): Bytes {
    if |p.data| > ECPUBSIZE then p.data[..ECPUBSIZE] else p.data
  }

  lemma LinkIdPartIs(p: Packet)
    requires Valid(p)
    ensures LinkIdPart(p) == Hashable(Raw(p.(data := Keys(p))))
  {
    HashableIs(p);
    HashableIs(p.(data := Keys(p)));
  }

  /** Two link requests have the same link id part if and only if they agree on destination, types, context and
      keys: whatever hops or transport they took, and whatever was signalled. */
  lemma LinkIdExact(p: Packet, q: Packet)
    requires Valid(p) && Valid(q)
    ensures LinkIdPart(p) == LinkIdPart(q) <==> SameContent(p.(data := Keys(p)), q.(data := Keys(q)))
  {
    LinkIdPartIs(p);
    LinkIdPartIs(q);
    HashableExact(p.(data := Keys(p)), q.(data := Keys(q)));
  }

  /** So a request rewritten for transport, its signalling bytes replaced, keeps its link id at the far end. */
  lemma LinkIdSurvivesTransport(p: Packet, hops: Byte, transportId: Option<Bytes>, transported: bool, contextFlag: bool, signalling: Bytes)
    requires Valid(p) && |p.data| >= ECPUBSIZE && (transportId.Some? ==> |transportId.value| == DST_LEN)
    ensures var q := p.(hops := hops, transportId := transportId, transported := transported, contextFlag := contextFlag,
                        data := p.data[..ECPUBSIZE] + signalling);
            Parse(Raw(q)) == Some(OnWire(q)) && LinkIdPart(q) == LinkIdPart(p)
  {
    var q := p.(hops := hops, transportId := transportId, transported := transported, contextFlag := contextFlag,
                data := p.data[..ECPUBSIZE] + signalling);
    ParseRaw(q);
    assert Keys(q) == Keys(p);
    LinkIdExact(p, q);
  }

  // ---- signalling ----

  const MTU_RANGE: nat := 0x200000
  const MODE_ENABLED: nat := 1

  /** signalling_bytes; None where the mode is not enabled. */
  function Signal(mtu: nat, mode: nat): Option<Bytes> {
    if mode != MODE_ENABLED then None
    else
      var v := mtu % MTU_RANGE + mode % 8 * MTU_RANGE;
      Some([v / 65536 % 256, v / 256 % 256, v % 256])
  }

  function SignalledMtu(b: Bytes): nat
    requires |b| == 3
  {
    (b[0] as int * 65536 + b[1] as int * 256 + b[2] as int) % MTU_RANGE
  }

  function SignalledMode(b: Bytes): nat
    requires |b| == 3
  {
    b[0] / 32
  }

  lemma SignalValue(v: nat)
    requires MTU_RANGE <= v < 2 * MTU_RANGE
    ensures v / 65536 < 256 && v / 65536 / 32 == 1
    ensures SignalledMtu([v / 65536, v / 256 % 256, v % 256]) == v - MTU_RANGE
  {
    assert v == v / 65536 * 65536 + v / 256 % 256 * 256 + v % 256;
  }

  /** Signalling bytes give back the mode, and the MTU if and only if it is below 2^21. */
  lemma SignalRoundTrip(mtu: nat, mode: nat)
    ensures Signal(mtu, mode).Some? <==> mode == MODE_ENABLED
    ensures mode == MODE_ENABLED ==>
              var b := Signal(mtu, mode).value;
              SignalledMode(b) == mode && (SignalledMtu(b) == mtu <==> mtu < MTU_RANGE)
  {
    SignalValue(mtu % MTU_RANGE + MTU_RANGE);
  }

  // ---- sizes ----

  const IFAC_MIN_SIZE: nat := 1
  const TOKEN_OVERHEAD: nat := 48
  const BLOCKSIZE: nat := 16

  /** A token: initialisation vector, the plaintext padded as in section 6.3 of RFC 5652, and the HMAC. */
  function TokenSize(plaintext: nat): nat {
    16 + (plaintext / BLOCKSIZE + 1) * BLOCKSIZE + 32
  }

  /** A link packet with that plaintext and the short header fits beside the access code. */
  predicate FitsLink(mtu: int, plaintext: nat) {
    IFAC_MIN_SIZE + HEADER_MINSIZE + TokenSize(plaintext) <= mtu
  }

  /** update_mdu */
  function Mdu(mtu: int): int {
    (mtu - IFAC_MIN_SIZE - HEADER_MINSIZE - TOKEN_OVERHEAD) / BLOCKSIZE * BLOCKSIZE - 1
  }

  /** The MDU is exactly the largest plaintext that fits, for every MTU; from 84 on something does. */
  lemma MduExact(mtu: int, plaintext: nat)
    ensures FitsLink(mtu, plaintext) <==> plaintext <= Mdu(mtu)
    ensures FitsLink(mtu, 0) <==> mtu >= 84
  {
  }

  const KEYSIZE: nat := 32
  const ENCRYPTED_MDU: int := (MTU - HEADER_MAXSIZE - IFAC_MIN_SIZE - TOKEN_OVERHEAD - KEYSIZE) / BLOCKSIZE * BLOCKSIZE - 1
  const ENCRYPTED_PACKET_MAX_CONTENT: int := ENCRYPTED_MDU + TIMESTAMP_SIZE - LXMF_OVERHEAD + DESTINATION_LENGTH
  const LINK_PACKET_MAX_CONTENT: int := Mdu(MTU) - LXMF_OVERHEAD

  /** A packed message is two hashes, a signature and its payload. */
  function PackedSize(payload: nat): nat {
    2 * DESTINATION_LENGTH + SIGNATURE_LENGTH + payload
  }

  function ContentSize(payload: nat): int {
    payload - TIMESTAMP_SIZE - STRUCT_OVERHEAD
  }

  /** Direct delivery goes in one packet exactly when the packed message has at most 431 bytes, which is the
      Rust client's test, and exactly when such a packet fits. */
  lemma DirectRule(payload: nat)
    ensures ContentSize(payload) <= LINK_PACKET_MAX_CONTENT <==> !(PackedSize(payload) > 431)
    ensures ContentSize(payload) <= LINK_PACKET_MAX_CONTENT <==> FitsLink(MTU, PackedSize(payload))
  {
    MduExact(MTU, PackedSize(payload));
  }

  /** Without its destination hash, sealed with an ephemeral key, an admitted opportunistic message fits. */
  lemma OpportunisticFits(payload: nat)
    requires ContentSize(payload) <= ENCRYPTED_PACKET_MAX_CONTENT
    ensures IFAC_MIN_SIZE + HEADER_MINSIZE + KEYSIZE + TokenSize(PackedSize(payload) - DESTINATION_LENGTH) <= MTU
  {
  }
}
