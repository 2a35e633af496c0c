/** Splitting what is too large for one Resource into segments, with optional metadata in front of the
    first (reference/RNS/Resource.py): reading the segments on one side, appending them on the other. */
module ResourceSegments {
  import opened Prelude

  const MAX_EFFICIENT_SIZE: nat := 1048575
  const METADATA_MAX_SIZE: nat := 16777215

  /** What the caller passes: bytes, or an open file with these contents. */
  datatype Source = InMemory(data: Bytes) | File(data: Bytes)

  // ---- sender ----

  /** The three-byte big-endian length in front of the packed metadata. */
  function Length24(n: nat): Bytes
    requires n <= METADATA_MAX_SIZE
  {
    [n / 65536, n / 256 % 256, n % 256]
  }

  function Header(packed: Option<Bytes>): Bytes
    requires packed.Some? ==> |packed.value| <= METADATA_MAX_SIZE
  {
    if packed.None? then [] else Length24(|packed.value|) + packed.value
  }

  predicate Split(s: Source, header: Bytes) {
    |header| + |s.data| > MAX_EFFICIENT_SIZE
  }

  function TotalSegments(s: Source, header: Bytes): nat {
    if Split(s, header) then (|header| + |s.data| - 1) / MAX_EFFICIENT_SIZE + 1 else 1
  }

  /** seek(position) and read(size) on a buffered file: negative positions and sizes below -1 raise,
      size -1 reads to the end. */
  function SeekRead(data: Bytes, position: int, size: int): (r: Option<Bytes>) {
    if position < 0 || size < -1 then None
    else if position >= |data| then Some([])
    else if size == -1 then Some(data[position..])
    else Some(data[position..Min(position + size, |data|)])
  }

  /** The bytes of segment k that come from the source. */
  function SegmentData(s: Source, header: Bytes, k: nat): Option<Bytes>
    requires k >= 1
  {
    var first := MAX_EFFICIENT_SIZE - |header|;
    if !Split(s, header) then Some(s.data)
    else if k == 1 then SeekRead(s.data, 0, first)
    else SeekRead(s.data, first + (k - 2) * MAX_EFFICIENT_SIZE, MAX_EFFICIENT_SIZE)
  }

  /** The payload of segment k, or None where the constructor raises. Nothing read leaves the caller's
      object in place of the payload: no bytes at all, without the header, or a file that has no length. */
  function SegmentPayload(s: Source, header: Bytes, k: nat): Option<Bytes>
    requires k >= 1
  {
    var d := SegmentData(s, header, k);
    if d.None? then None
    else if d.value == [] then (if s.InMemory? && !Split(s, header) then Some([]) else None)
    else Some((if k == 1 then header else []) + d.value)
  }

  // ---- receiver ----

  datatype Received = Received(file: Bytes, metadata: Option<Bytes>)

  /** The tail of assemble: metadata is cut off the first segment, the rest is appended to the file.
      None is the exception that marks the resource corrupt. */
  function Append(r: Received, payload: Bytes, hasMetadata: bool, k: nat): Option<Received> {
    if !(hasMetadata && k == 1) then Some(r.(file := r.file + payload))
    else if |payload| < 3 then None
    else
      var size: int := payload[0] as int * 65536 + payload[1] as int * 256 + payload[2] as int;
      var end := Min(3 + size, |payload|);
      Some(Received(r.file + payload[end..], Some(payload[3..end])))
  }

  /** Both sides through the first k segments. */
  function Deliver(s: Source, packed: Option<Bytes>, k: nat): (r: Option<Received>)
    requires packed.Some? ==> |packed.value| <= METADATA_MAX_SIZE
  {
    if k == 0 then Some(Received([], None))
    else
      var before := Deliver(s, packed, k - 1);
      var payload := SegmentPayload(s, Header(packed), k);
      if before.None? || payload.None? then None
      else Append(before.value, payload.value, packed.Some?, k)
  }

  // ---- what is delivered ----

  /** When segmentation works: the header leaves room in the first segment, and there is something to send,
      or at least nothing to send it with. */
  predicate Works(s: Source, packed: Option<Bytes>)
    requires packed.Some? ==> |packed.value| <= METADATA_MAX_SIZE
  {
    |Header(packed)| < MAX_EFFICIENT_SIZE && (s.data != [] || (s.InMemory? && packed.None?))
  }

  lemma HeaderCutOff(packed: Bytes, rest: Bytes)
    requires |packed| <= METADATA_MAX_SIZE
    ensures Append(Received([], None), Header(Some(packed)) + rest, true, 1) == Some(Received(rest, Some(packed)))
  {
    var n := |packed|;
    var payload := Header(Some(packed)) + rest;
    assert payload[0] == n / 65536 && payload[1] == n / 256 % 256 && payload[2] == n % 256;
    assert n == n / 65536 * 65536 + n / 256 % 256 * 256 + n % 256;
    assert payload[3..3 + n] == packed;
    assert payload[3 + n..] == rest;
    assert [] + payload[3 + n..] == rest;
  }

  /** How much of the file has arrived after k segments. */
  function Sent(s: Source, header: Bytes, k: nat): nat
    requires |header| < MAX_EFFICIENT_SIZE && k >= 1
  {
    Min(k * MAX_EFFICIENT_SIZE - |header|, |s.data|)
  }

  /** Every segment is nonempty and within the efficient size, and takes up where the one before stopped. */
  lemma SegmentIs(s: Source, header: Bytes, k: nat)
    requires |header| < MAX_EFFICIENT_SIZE && s.data != [] && 1 <= k <= TotalSegments(s, header)
    ensures var from := if k == 1 then 0 else Sent(s, header, k - 1);
            && from < Sent(s, header, k)
            && SegmentData(s, header, k) == Some(s.data[from..Sent(s, header, k)])
    ensures SegmentPayload(s, header, k).Some? && 0 < |SegmentPayload(s, header, k).value| <= MAX_EFFICIENT_SIZE
  {
    if !Split(s, header) {
      assert s.data[0..|s.data|] == s.data;
    } else {
      assert (k - 1) * MAX_EFFICIENT_SIZE <= |header| + |s.data| - 1;
    }
  }

  lemma FirstDelivered(s: Source, packed: Option<Bytes>)
    requires packed.Some? ==> |packed.value| <= METADATA_MAX_SIZE
    requires |Header(packed)| < MAX_EFFICIENT_SIZE && s.data != []
    ensures Deliver(s, packed, 1) == Some(Received(s.data[..Sent(s, Header(packed), 1)], packed))
  {
    var header, rest := Header(packed), s.data[..Sent(s, Header(packed), 1)];
    SegmentIs(s, header, 1);
    assert Deliver(s, packed, 0) == Some(Received([], None));
    assert s.data[0..|rest|] == rest;
    assert SegmentPayload(s, header, 1) == Some(header + rest);
    if packed.Some? {
      HeaderCutOff(packed.value, rest);
    } else {
      assert [] + (header + rest) == rest;
    }
  }

  lemma NextDelivered(s: Source, packed: Option<Bytes>, k: nat, upto: nat)
    requires packed.Some? ==> |packed.value| <= METADATA_MAX_SIZE
    requires |Header(packed)| < MAX_EFFICIENT_SIZE && s.data != [] && 2 <= k <= TotalSegments(s, Header(packed))
    requires upto == Sent(s, Header(packed), k - 1) && Deliver(s, packed, k - 1) == Some(Received(s.data[..upto], packed))
    ensures Deliver(s, packed, k) == Some(Received(s.data[..Sent(s, Header(packed), k)], packed))
  {
    var next := Sent(s, Header(packed), k);
    SegmentIs(s, Header(packed), k);
    Contiguous(s.data, upto, next);
    assert SegmentPayload(s, Header(packed), k) == Some(s.data[upto..next]);
  }

  lemma Contiguous(data: Bytes, a: nat, b: nat)
    requires a <= b <= |data|
    ensures data[..a] + data[a..b] == data[..b] && [] + data[a..b] == data[a..b]
  {
  }

  /** After k segments the receiver holds the metadata and this much of the file. */
  ghost predicate HoldsAfter(s: Source, packed: Option<Bytes>, k: nat)
    requires packed.Some? ==> |packed.value| <= METADATA_MAX_SIZE
    requires |Header(packed)| < MAX_EFFICIENT_SIZE && k >= 1
  {
    Deliver(s, packed, k) == Some(Received(s.data[..Sent(s, Header(packed), k)], packed))
  }

  lemma DeliveredSoFar(s: Source, packed: Option<Bytes>, n: nat)
    requires packed.Some? ==> |packed.value| <= METADATA_MAX_SIZE
    requires |Header(packed)| < MAX_EFFICIENT_SIZE && s.data != [] && 1 <= n <= TotalSegments(s, Header(packed))
    ensures HoldsAfter(s, packed, n)
  {
    FirstDelivered(s, packed);
    for k := 1 to n
      invariant HoldsAfter(s, packed, k)
    {
      NextDelivered(s, packed, k + 1, Sent(s, Header(packed), k));
    }
  }

  lemma {:induction false} OnceBroken(s: Source, packed: Option<Bytes>, j: nat, k: nat)
    requires packed.Some? ==> |packed.value| <= METADATA_MAX_SIZE
    requires j <= k && Deliver(s, packed, j).None?
    ensures Deliver(s, packed, k).None?
  {
    if j < k {
      OnceBroken(s, packed, j, k - 1);
    }
  }

  /** Header too large, or nothing read: one of the first two segments raises or corrupts. */
  lemma BreaksEarly(s: Source, packed: Option<Bytes>)
    requires packed.Some? ==> |packed.value| <= METADATA_MAX_SIZE
    requires !Works(s, packed)
    ensures Deliver(s, packed, TotalSegments(s, Header(packed))).None?
  {
    var header := Header(packed);
    var total := TotalSegments(s, header);
    assert packed.None? ==> header == [];
    assert Deliver(s, packed, 0) == Some(Received([], None));
    if |header| == MAX_EFFICIENT_SIZE + 1 && s.data != [] {
      assert total >= 2;
      assert SegmentPayload(s, header, 2).None?;
      OnceBroken(s, packed, 2, total);
    } else {
      assert Deliver(s, packed, 1).None?;
      OnceBroken(s, packed, 1, total);
    }
  }

  /** The whole journey: the receiver ends up with exactly the file and the metadata if and only if
      segmentation works for them, and with nothing at all otherwise. */
  lemma DeliveredExactly(s: Source, packed: Option<Bytes>)
    requires packed.Some? ==> |packed.value| <= METADATA_MAX_SIZE
    ensures Deliver(s, packed, TotalSegments(s, Header(packed))) ==
              if Works(s, packed) then Some(Received(s.data, packed)) else None
  {
    var header := Header(packed);
    if !Works(s, packed) {
      BreaksEarly(s, packed);
    } else if s.data == [] {
      assert Deliver(s, packed, 0) == Some(Received([], None));
      assert [] + s.data == [];
      assert Deliver(s, packed, 1) == Some(Received([], None));
    } else {
      var total := TotalSegments(s, header);
      DeliveredSoFar(s, packed, total);
      assert Sent(s, header, total) == |s.data|;
      assert s.data[..|s.data|] == s.data;
    }
  }
}
