/** LXMF messages (reference/LXMF/LXMessage.py): packing, unpacking, and stamps made from tickets. */
module LxmfMessage {
  import opened Prelude

  const DESTINATION_LENGTH: nat := TRUNCATED_HASHLENGTH
  const SIGNATURE_LENGTH: nat := 64
  const TICKET_LENGTH: nat := TRUNCATED_HASHLENGTH
  const TIMESTAMP_SIZE: nat := 8
  const STRUCT_OVERHEAD: nat := 8
  const LXMF_OVERHEAD: nat := 2 * DESTINATION_LENGTH + SIGNATURE_LENGTH + TIMESTAMP_SIZE + STRUCT_OVERHEAD

  /** Values msgpack can carry, as far as messages need them. */
  datatype Value = Time(t: real) | Bin(bytes: Bytes) | Fields(entries: map<nat, Bytes>) | Other(n: nat)

  /** msgpack, the hash, and signatures by key number. */
  datatype Codec = Codec(
    pack: seq<Value> -> Bytes,
    unpack: Bytes -> Option<seq<Value>>,
    hash: Bytes -> Bytes,
    sign: (nat, Bytes) -> Bytes,
    verify: (nat, Bytes, Bytes) -> bool,
    worked: (Bytes, Bytes, nat) -> bool)

  ghost predicate Lawful(c: Codec) {
    && (forall l :: c.unpack(c.pack(l)) == Some(l))
    && (forall k: nat, m :: |c.sign(k, m)| == SIGNATURE_LENGTH && c.verify(k, c.sign(k, m), m))
  }

  datatype Message = Message(destination: Bytes, source: Bytes, timestamp: Value, title: Value, content: Value, fields: Value)

  datatype Packed = Packed(id: Bytes, stamp: Option<Bytes>, bytes: Bytes)

  function Payload(m: Message): seq<Value> {
    [m.timestamp, m.title, m.content, m.fields]
  }

  function Hashed(c: Codec, m: Message): Bytes {
    m.destination + m.source + c.pack(Payload(m))
  }

  function TicketStamp(c: Codec, ticket: Bytes, id: Bytes): Bytes {
    Truncated(c.hash(ticket + id))
  }

  /** get_stamp: from an outbound ticket of the right length, else nothing without a cost, else the stamp
      already there or one that was worked for. */
  function GetStamp(c: Codec, id: Bytes, ticket: Option<Bytes>, cost: Option<nat>, stamp: Option<Bytes>,
                    worked: Option<Bytes>): Option<Bytes> {
    if ticket.Some? && |ticket.value| == TICKET_LENGTH then Some(TicketStamp(c, ticket.value, id))
    else if cost.None? then None
    else if stamp.Some? then stamp
    else worked
  }

  /** pack, with key number `key` of the source. The stamp joins the payload after it was hashed and signed. */
  function Pack(c: Codec, m: Message, key: nat, stamp: Option<Bytes>): Packed {
    var hashed := Hashed(c, m);
    var id := c.hash(hashed);
    var payload := if stamp.Some? then Payload(m) + [Bin(stamp.value)] else Payload(m);
    Packed(id, stamp, m.destination + m.source + c.sign(key, hashed + id) + c.pack(payload))
  }

  datatype Unpacked = Unpacked(message: Message, id: Bytes, stamp: Option<Value>, signature: Bytes, validated: bool)

  /** unpack_from_bytes; the key of the source is known or not. None is an exception: bytes that are not
      msgpack or a payload with fewer than four parts. */
  function Unpack(c: Codec, bytes: Bytes, key: Option<nat>): (r: Option<Unpacked>) {
    var destination := Slice(bytes, 0, 16);
    var source := Slice(bytes, 16, 32);
    var signature := Slice(bytes, 32, 96);
    var packed := Slice(bytes, 96, Max(96, |bytes|));
    var payload := c.unpack(packed);
    if payload.None? || |payload.value| < 4 then None
    else
      var p := payload.value;
      var stamp := if |p| > 4 then Some(p[4]) else None;
      var packed' := if |p| > 4 then c.pack(p[..4]) else packed;
      var hashed := destination + source + packed';
      var id := c.hash(hashed);
      Some(Unpacked(Message(destination, source, p[0], p[1], p[2], p[3]), id, stamp, signature,
                    key.Some? && c.verify(key.value, signature, hashed + id)))
  }

  lemma SliceOf(a: Bytes, b: Bytes, c: Bytes, d: Bytes)
    requires |a| == 16 && |b| == 16 && |c| == 64
    ensures var s := a + b + c + d;
            Slice(s, 0, 16) == a && Slice(s, 16, 32) == b && Slice(s, 32, 96) == c && Slice(s, 96, Max(96, |s|)) == d
  {
  }

  /** Unpacking recovers every field, the stamp and the id, and the signature holds, stamped or not. */
  lemma UnpackPack(c: Codec, m: Message, key: nat, stamp: Option<Bytes>)
    requires Lawful(c) && |m.destination| == |m.source| == DESTINATION_LENGTH
    ensures var p := Pack(c, m, key, stamp);
            var u := Unpack(c, p.bytes, Some(key));
            && u.Some? && u.value.message == m && u.value.id == p.id && u.value.validated
            && u.value.stamp == if stamp.Some? then Some(Bin(stamp.value)) else None
  {
    var hashed := Hashed(c, m);
    var payload := if stamp.Some? then Payload(m) + [Bin(stamp.value)] else Payload(m);
    SliceOf(m.destination, m.source, c.sign(key, hashed + c.hash(hashed)), c.pack(payload));
    assert payload[..4] == Payload(m);
  }

  /** The id names the message: neither the stamp nor the signing key enters it. */
  lemma IdIgnoresStamp(c: Codec, m: Message, key: nat, key': nat, stamp: Option<Bytes>, stamp': Option<Bytes>)
    requires Lawful(c) && |m.destination| == |m.source| == DESTINATION_LENGTH
    ensures Unpack(c, Pack(c, m, key, stamp).bytes, None).Some?
    ensures Unpack(c, Pack(c, m, key, stamp).bytes, None).value.id == Pack(c, m, key', stamp').id
  {
    UnpackPack(c, m, key, stamp);
  }

  /** validate_stamp: by any of the tickets, or else by work. */
  predicate StampAccepted(c: Codec, stamp: Option<Value>, id: Bytes, cost: nat, tickets: seq<Bytes>) {
    || (exists k :: 0 <= k < |tickets| && stamp == Some(Bin(TicketStamp(c, tickets[k], id))))
    || (stamp.Some? && stamp.value.Bin? && c.worked(stamp.value.bytes, id, cost))
  }

  method ValidateStamp(c: Codec, stamp: Option<Value>, id: Bytes, cost: nat, tickets: seq<Bytes>) returns (ok: bool)
    ensures ok == StampAccepted(c, stamp, id, cost, tickets)
  {
    for i := 0 to |tickets|
      invariant forall k :: 0 <= k < i ==> stamp != Some(Bin(TicketStamp(c, tickets[k], id)))
    {
      if stamp == Some(Bin(TicketStamp(c, tickets[i], id))) {
        return true;
      }
    }
    ok := stamp.Some? && stamp.value.Bin? && c.worked(stamp.value.bytes, id, cost);
  }

  /** A stamp from a ticket the receiver counts as valid is accepted, whatever work it asks for. */
  lemma TicketAccepted(c: Codec, m: Message, key: nat, ticket: Bytes, cost: Option<nat>, required: nat, tickets: seq<Bytes>)
    requires Lawful(c) && |m.destination| == |m.source| == DESTINATION_LENGTH
    requires |ticket| == TICKET_LENGTH && ticket in tickets
    ensures var id := c.hash(Hashed(c, m));
            var p := Pack(c, m, key, GetStamp(c, id, Some(ticket), cost, None, None));
            var u := Unpack(c, p.bytes, Some(key));
            u.Some? && u.value.validated && StampAccepted(c, u.value.stamp, u.value.id, required, tickets)
  {
    var id := c.hash(Hashed(c, m));
    UnpackPack(c, m, key, GetStamp(c, id, Some(ticket), cost, None, None));
    var k :| 0 <= k < |tickets| && tickets[k] == ticket;
  }
}
