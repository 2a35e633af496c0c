/** What a Resource carries (reference/RNS/Resource.py): cutting the encrypted stream into parts
    under the collision guard, the hashes that bind payload and proof, and the receiver's check. */
module ResourceContent {
  import opened Prelude
  import opened ResourceReceiver
  import opened ResourceSender
  import opened ResourceTransfer
  import Recovery = ResourceRecovery

  const RANDOM_HASH_SIZE: nat := 4
  const MAPHASH_LEN: nat := 4
  const MAX_DECOMPRESSED_SIZE: nat := 64 * 1024 * 1024

  function Join(parts: seq<Bytes>): Bytes {
    if parts == [] then [] else parts[0] + Join(parts[1..])
  }

  // ---- cutting the stream ----

  /** The stream cut at multiples of sdu. */
  function Chunks(stream: Bytes, sdu: nat): (c: seq<Bytes>)
    requires sdu > 0
    ensures |stream| > 0 ==> |c| > 0
  {
    if |stream| == 0 then []
    else if |stream| <= sdu then [stream]
    else [stream[..sdu]] + Chunks(stream[sdu..], sdu)
  }

  /** The parts put together again are the stream. */
  lemma {:induction false} ChunksJoin(stream: Bytes, sdu: nat)
    requires sdu > 0
    ensures Join(Chunks(stream, sdu)) == stream
  {
    if |stream| > sdu {
      ChunksJoin(stream[sdu..], sdu);
      var rest := Chunks(stream[sdu..], sdu);
      assert ([stream[..sdu]] + rest)[1..] == rest;
      assert stream[..sdu] + stream[sdu..] == stream;
    } else if |stream| > 0 {
      assert [stream][1..] == [];
      assert Join([stream]) == stream + [];
    }
  }

  /** Where part i starts: i * sdu. */
  function Offset(i: nat, sdu: nat): (o: nat) {
    if i == 0 then 0 else Offset(i - 1, sdu) + sdu
  }

  lemma {:induction false} OffsetIs(i: nat, sdu: nat)
    ensures Offset(i, sdu) == i * sdu
  {
    if i > 0 {
      OffsetIs(i - 1, sdu);
      assert (i - 1) * sdu + sdu == i * sdu;
    }
  }

  /** Part i is the slice of at most sdu bytes from i * sdu on. */
  lemma {:induction false} ChunkAt(stream: Bytes, sdu: nat, i: nat)
    requires sdu > 0 && Offset(i, sdu) < |stream|
    ensures i < |Chunks(stream, sdu)|
    ensures Chunks(stream, sdu)[i] == stream[Offset(i, sdu)..Min(Offset(i, sdu) + sdu, |stream|)]
    decreases i
  {
    if i > 0 {
      ChunkAt(stream[sdu..], sdu, i - 1);
      SliceShift(stream, sdu, Offset(i, sdu), Min(Offset(i, sdu) + sdu, |stream|));
    }
  }

  lemma SliceShift(s: Bytes, d: nat, a: nat, b: nat)
    requires d <= a <= b <= |s|
    ensures s[a..b] == s[d..][a - d..b - d]
  {
  }

  lemma {:induction false} ChunkCount(stream: Bytes, sdu: nat)
    requires sdu > 0
    ensures |Chunks(stream, sdu)| == (|stream| + sdu - 1) / sdu
    ensures forall i :: 0 <= i < |Chunks(stream, sdu)| ==> 0 < |Chunks(stream, sdu)[i]| <= sdu
    decreases |stream|
  {
    if |stream| > sdu {
      ChunkCount(stream[sdu..], sdu);
      DivStep(|stream| - 1, sdu);
    } else if |stream| > 0 {
      DivStep(|stream| - 1, sdu);
      assert (|stream| - 1) / sdu == 0;
    } else {
      assert (sdu - 1) / sdu == 0;
    }
  }

  lemma DivUnique(x: nat, d: nat, k: nat, r: nat)
    requires d > 0 && r < d && x == k * d + r
    ensures x / d == k
  {
    var k' := x / d;
    assert x == k' * d + x % d;
    MulGap(k', k, d);
    MulGap(k, k', d);
  }

  lemma MulGap(a: int, b: int, d: nat)
    ensures a > b ==> a * d >= b * d + d
  {
    if a > b {
      assert (a - b - 1) * d >= 0;
      assert a * d == (a - b - 1) * d + b * d + d;
    }
  }

  lemma DivStep(a: nat, d: nat)
    requires d > 0
    ensures (a + d) / d == a / d + 1
  {
    assert (a / d + 1) * d == a / d * d + d;
    DivUnique(a + d, d, a / d + 1, a % d);
  }

  /** Some hash among the last COLLISION_GUARD_SIZE before j equals hash j. */
  ghost predicate CollidesAt(hashes: seq<MapHash>, j: nat)
    requires j < |hashes|
  {
    exists i :: 0 <= i < j && j - i <= COLLISION_GUARD_SIZE && hashes[i] == hashes[j]
  }

  /** The first index from `from` on whose hash collides; the length if there is none. */
  ghost function FirstCollision(hashes: seq<MapHash>, from: nat): (k: nat)
    requires from <= |hashes|
    ensures from <= k <= |hashes|
    decreases |hashes| - from
  {
    if from == |hashes| || CollidesAt(hashes, from) then from else FirstCollision(hashes, from + 1)
  }

  lemma {:induction false} FirstCollisionIs(hashes: seq<MapHash>, from: nat)
    requires from <= |hashes|
    ensures forall i :: from <= i < FirstCollision(hashes, from) ==> !CollidesAt(hashes, i)
    ensures FirstCollision(hashes, from) < |hashes| ==> CollidesAt(hashes, FirstCollision(hashes, from))
    decreases |hashes| - from
  {
    if from < |hashes| && !CollidesAt(hashes, from) {
      FirstCollisionIs(hashes, from + 1);
    }
  }

  datatype MapResult = Mapped(parts: seq<Bytes>, hashes: seq<MapHash>) | Collided(chunk: Bytes)

  /** One pass over the stream: all parts, or the first one that collides. */
  ghost function MapPass(stream: Bytes, sdu: nat, f: Bytes -> MapHash): (r: MapResult)
    requires sdu > 0
  {
    var parts := Chunks(stream, sdu);
    var hashes := Map(f, parts);
    var j := FirstCollision(hashes, 0);
    if j == |parts| then Mapped(parts, hashes) else Collided(parts[j])
  }

  /** A pass succeeds exactly when equal hashes are more than the guard size apart. */
  lemma MapPassGuards(stream: Bytes, sdu: nat, f: Bytes -> MapHash)
    requires sdu > 0
    ensures MapPass(stream, sdu, f).Mapped? <==> Guarded(Map(f, Chunks(stream, sdu)))
  {
    var hashes := Map(f, Chunks(stream, sdu));
    var j := FirstCollision(hashes, 0);
    FirstCollisionIs(hashes, 0);
    if j == |hashes| {
      NoCollisionGuards(hashes);
    } else {
      CollisionBreaksGuard(hashes, j);
    }
  }

  method PartCount(stream: Bytes, sdu: nat) returns (n: nat)
    requires sdu > 0
    ensures n == |Chunks(stream, sdu)|
  {
    ChunkCount(stream, sdu);
    n := (|stream| + sdu - 1) / sdu;
  }

  method PartAt(stream: Bytes, sdu: nat, i: nat) returns (part: Bytes)
    requires sdu > 0 && i < |Chunks(stream, sdu)|
    ensures part == Chunks(stream, sdu)[i]
  {
    ChunkCount(stream, sdu);
    PartStart(stream, sdu, i);
    OffsetIs(i, sdu);
    ChunkAt(stream, sdu, i);
    part := stream[i * sdu..Min((i + 1) * sdu, |stream|)];
  }

  /** The chunk loop. */
  method BuildMap(stream: Bytes, sdu: nat, f: Bytes -> MapHash) returns (r: MapResult)
    requires sdu > 0
    ensures r == MapPass(stream, sdu, f)
  {
    var n := PartCount(stream, sdu);
    ghost var all := Chunks(stream, sdu);
    ghost var hs := Map(f, all);
    var parts: seq<Bytes> := [];
    var hashes: seq<MapHash> := [];
    var guard: seq<MapHash> := [];
    var i := 0;
    while i < n
      invariant 0 <= i <= n == |all|
      invariant parts == all[..i] && hashes == hs[..i]
      invariant Recent(hs, i, guard)
      invariant FirstCollision(hs, 0) == FirstCollision(hs, i)
    {
      var chunk := PartAt(stream, sdu, i);
      var hash := f(chunk);
      GuardDecides(hs, i, guard);
      if hash in guard {
        return Collided(chunk);
      }
      guard := Remember(hs, i, guard, hash);
      parts := parts + [chunk];
      hashes := hashes + [hash];
      i := i + 1;
    }
    r := Mapped(parts, hashes);
  }

  /** The list of recent hashes answers the question of the guard. */
  lemma GuardDecides(hs: seq<MapHash>, i: nat, guard: seq<MapHash>)
    requires i < |hs| && Recent(hs, i, guard)
    ensures hs[i] in guard <==> CollidesAt(hs, i)
  {
    if CollidesAt(hs, i) {
      var j :| 0 <= j < i && i - j <= COLLISION_GUARD_SIZE && hs[j] == hs[i];
      assert guard[j - (i - |guard|)] == hs[j];
    }
  }

  /** `guard` holds the last COLLISION_GUARD_SIZE hashes before i. */
  ghost predicate Recent(hs: seq<MapHash>, i: nat, guard: seq<MapHash>)
    requires i <= |hs|
  {
    && |guard| == Min(i, COLLISION_GUARD_SIZE)
    && forall k :: 0 <= k < |guard| ==> guard[k] == hs[i - |guard| + k]
  }

  /** The list of recent hashes gains one and loses its oldest when it is over-full. */
  method Remember(ghost hs: seq<MapHash>, ghost i: nat, guard: seq<MapHash>, hash: MapHash) returns (g: seq<MapHash>)
    requires i < |hs| && hash == hs[i] && Recent(hs, i, guard)
    ensures Recent(hs, i + 1, g)
  {
    g := guard + [hash];
    if |g| > COLLISION_GUARD_SIZE {
      g := g[1..];
    }
  }

  lemma PartStart(stream: Bytes, sdu: nat, i: nat)
    requires sdu > 0 && i < (|stream| + sdu - 1) / sdu
    ensures i * sdu < |stream| && (i + 1) * sdu == i * sdu + sdu
  {
    var q := (|stream| + sdu - 1) / sdu;
    assert q * sdu <= |stream| + sdu - 1;
    assert (i + 1) * sdu <= q * sdu;
  }

  lemma CollisionBreaksGuard(hashes: seq<MapHash>, j: nat)
    requires j < |hashes| && CollidesAt(hashes, j)
    ensures !Guarded(hashes)
  {
  }

  lemma NoCollisionGuards(hashes: seq<MapHash>)
    requires forall j :: 0 <= j < |hashes| ==> !CollidesAt(hashes, j)
    ensures Guarded(hashes)
  {
    forall i, j | 0 <= i < j < |hashes| && j - i <= COLLISION_GUARD_SIZE ensures hashes[i] != hashes[j] {
      assert !CollidesAt(hashes, j);
    }
  }

  // ---- what the sender advertises ----

  /** The primitives a link brings: hash, stream encryption under the link key, bz2. */
  datatype Codec = Codec(
    hash: Bytes -> Bytes,
    encrypt: Bytes -> Bytes,
    decrypt: Bytes -> Option<Bytes>,
    compress: Bytes -> Bytes,
    decompress: (Bytes, nat) -> Option<Bytes>)

  ghost predicate Lawful(c: Codec) {
    && (forall x :: c.decrypt(c.encrypt(x)) == Some(x))
    && (forall x :: |c.encrypt(x)| > 0)
    && (forall x, n: nat :: |x| < n ==> c.decompress(c.compress(x), n) == Some(x))
  }

  /** get_map_hash */
  function MapHashWith(c: Codec, randomHash: Bytes): Bytes -> MapHash {
    (d: Bytes) => Take(c.hash(d + randomHash), MAPHASH_LEN)
  }

  datatype Outgoing = Outgoing(hash: Bytes, randomHash: Bytes, expectedProof: Bytes, parts: seq<Bytes>)

  predicate Compresses(c: Codec, payload: Bytes, allowed: bool) {
    allowed && |c.compress(payload)| < |payload|
  }

  /** The encrypted stream: a random prefix and the payload, compressed when that is smaller. */
  function Stream(c: Codec, payload: Bytes, allowed: bool, salt: Bytes): Bytes
    requires |salt| == RANDOM_HASH_SIZE
  {
    c.encrypt(salt + if Compresses(c, payload, allowed) then c.compress(payload) else payload)
  }

  /** The hashmap loop of __init__ over a supply of random hashes. `data` is the variable of that name:
      the payload at first, but rebound to the colliding chunk when a pass has to be repeated. */
  ghost function Prepare(c: Codec, stream: Bytes, sdu: nat, data: Bytes, randoms: seq<Bytes>): (o: Option<Outgoing>)
    requires sdu > 0
    decreases |randoms|
  {
    if randoms == [] then None
    else
      var r := randoms[0];
      match MapPass(stream, sdu, MapHashWith(c, r))
      case Mapped(parts, _) =>
        var h := c.hash(data + r);
        Some(Outgoing(h, r, c.hash(data + h), parts))
      case Collided(chunk) => Prepare(c, stream, sdu, chunk, randoms[1..])
  }

  method PrepareResource(c: Codec, stream: Bytes, sdu: nat, payload: Bytes, randoms: seq<Bytes>) returns (o: Option<Outgoing>)
    requires sdu > 0
    ensures o == Prepare(c, stream, sdu, payload, randoms)
  {
    var data := payload;
    var k := 0;
    while k < |randoms|
      invariant 0 <= k <= |randoms|
      invariant Prepare(c, stream, sdu, payload, randoms) == Prepare(c, stream, sdu, data, randoms[k..])
    {
      var r := randoms[k];
      var hash := c.hash(data + r);
      var expectedProof := c.hash(data + hash);
      var m := BuildMap(stream, sdu, MapHashWith(c, r));
      assert randoms[k..][1..] == randoms[k + 1..];
      match m {
        case Mapped(parts, _) =>
          return Some(Outgoing(hash, r, expectedProof, parts));
        case Collided(chunk) =>
          data := chunk;
      }
      k := k + 1;
    }
    o := None;
  }

  /** The first random hash already gave a guarded map. */
  ghost predicate FirstPassMaps(c: Codec, stream: Bytes, sdu: nat, randoms: seq<Bytes>)
    requires sdu > 0
  {
    randoms != [] && MapPass(stream, sdu, MapHashWith(c, randoms[0])).Mapped?
  }

  /** What Prepare returns: the parts are the stream's chunks and guarded, and the hashes are taken over
      the payload if no pass was repeated and over one of the chunks otherwise. */
  lemma {:induction false} Prepared(c: Codec, stream: Bytes, sdu: nat, data: Bytes, randoms: seq<Bytes>) returns (basis: Bytes)
    requires sdu > 0 && Prepare(c, stream, sdu, data, randoms).Some?
    ensures var o := Prepare(c, stream, sdu, data, randoms).value;
            && o.parts == Chunks(stream, sdu) && Guarded(Map(MapHashWith(c, o.randomHash), o.parts))
            && o.hash == c.hash(basis + o.randomHash) && o.expectedProof == c.hash(basis + o.hash)
    ensures FirstPassMaps(c, stream, sdu, randoms) ==> basis == data
    ensures !FirstPassMaps(c, stream, sdu, randoms) ==> basis in Chunks(stream, sdu) && |basis| <= sdu
    decreases |randoms|
  {
    var r := randoms[0];
    MapPassGuards(stream, sdu, MapHashWith(c, r));
    match MapPass(stream, sdu, MapHashWith(c, r)) {
      case Mapped(parts, _) =>
        basis := data;
      case Collided(chunk) =>
        ChunkCount(stream, sdu);
        assert chunk in Chunks(stream, sdu) && |chunk| <= sdu;
        basis := Prepared(c, stream, sdu, chunk, randoms[1..]);
    }
  }

  // ---- what the receiver makes of the parts ----

  datatype Verdict = Accepted(data: Bytes, proof: Bytes) | Rejected

  /** assemble and prove */
  function Assembled(c: Codec, parts: seq<Bytes>, compressed: bool, randomHash: Bytes, hash: Bytes): (v: Verdict) {
    match c.decrypt(Join(parts))
    case None => Rejected
    case Some(plain) =>
      var body := Drop(plain, RANDOM_HASH_SIZE);
      var data := if compressed then c.decompress(body, MAX_DECOMPRESSED_SIZE) else Some(body);
      if data.Some? && c.hash(data.value + randomHash) == hash then Accepted(data.value, c.hash(data.value + hash))
      else Rejected
  }

  /** validate_proof */
  predicate ProofAccepted(o: Outgoing, proofData: Bytes) {
    |proofData| == 64 && proofData[32..] == o.expectedProof
  }

  /** Two different byte strings with the same hash. */
  ghost predicate HashCollision(c: Codec, x: Bytes, y: Bytes) {
    x != y && c.hash(x) == c.hash(y)
  }

  /** The receiver always recovers the payload; it accepts exactly when the advertised hash is the payload's. */
  lemma RecoversPayload(c: Codec, payload: Bytes, allowed: bool, salt: Bytes, sdu: nat, randomHash: Bytes, hash: Bytes)
    requires Lawful(c) && |salt| == RANDOM_HASH_SIZE && sdu > 0 && |payload| < MAX_DECOMPRESSED_SIZE
    ensures var parts := Chunks(Stream(c, payload, allowed, salt), sdu);
            Assembled(c, parts, Compresses(c, payload, allowed), randomHash, hash) ==
              if c.hash(payload + randomHash) == hash then Accepted(payload, c.hash(payload + hash)) else Rejected
  {
    var stream := Stream(c, payload, allowed, salt);
    ChunksJoin(stream, sdu);
    var body := if Compresses(c, payload, allowed) then c.compress(payload) else payload;
    assert Drop(salt + body, RANDOM_HASH_SIZE) == body;
  }

  /** The transfer that carries a prepared resource. */
  function TransferOf(c: Codec, o: Outgoing): Config {
    Config(o.parts, MapHashWith(c, o.randomHash))
  }

  lemma PreparedIsValid(c: Codec, payload: Bytes, allowed: bool, salt: Bytes, sdu: nat, randoms: seq<Bytes>)
    requires Lawful(c) && |salt| == RANDOM_HASH_SIZE && sdu > 0
    requires Prepare(c, Stream(c, payload, allowed, salt), sdu, payload, randoms).Some?
    ensures ValidConfig(TransferOf(c, Prepare(c, Stream(c, payload, allowed, salt), sdu, payload, randoms).value))
  {
    var stream := Stream(c, payload, allowed, salt);
    var o := Prepare(c, stream, sdu, payload, randoms).value;
    var basis := Prepared(c, stream, sdu, payload, randoms);
    assert Hashes(TransferOf(c, o)) == Map(MapHashWith(c, o.randomHash), o.parts);
  }

  /** End to end: over every run of the transfer, lossy or not, of a resource whose first map was guarded,
      an assembled resource is the payload, its hash checks, and its proof is the one the sender expects. */
  lemma DeliveredInEveryRun(c: Codec, payload: Bytes, allowed: bool, salt: Bytes, sdu: nat, randoms: seq<Bytes>,
                            previousWindow: Option<nat>, events: seq<Event>)
    requires Lawful(c) && |salt| == RANDOM_HASH_SIZE && sdu > 0 && |payload| < MAX_DECOMPRESSED_SIZE
    requires FirstPassMaps(c, Stream(c, payload, allowed, salt), sdu, randoms) && InheritedWindow(previousWindow)
    ensures var o := Prepare(c, Stream(c, payload, allowed, salt), sdu, payload, randoms);
            && o.Some? && ValidConfig(TransferOf(c, o.value))
            && var s := Run(TransferOf(c, o.value), previousWindow, events);
               s.assembled.Some? ==>
                 Assembled(c, s.assembled.value, Compresses(c, payload, allowed), o.value.randomHash, o.value.hash)
                   == Accepted(payload, o.value.expectedProof)
  {
    var stream := Stream(c, payload, allowed, salt);
    var o := Prepare(c, stream, sdu, payload, randoms).value;
    PreparedIsValid(c, payload, allowed, salt, sdu, randoms);
    var basis := Prepared(c, stream, sdu, payload, randoms);
    SlotsInEveryRun(TransferOf(c, o), previousWindow, events);
    RecoversPayload(c, payload, allowed, salt, sdu, o.randomHash, o.hash);
  }

  /** And from every reachable state in which both sides are still at it and the receiver can retry, some continuation
      ends with the payload accepted. */
  lemma DeliverableInEveryRun(c: Codec, payload: Bytes, allowed: bool, salt: Bytes, sdu: nat, randoms: seq<Bytes>,
                              previousWindow: Option<nat>, events: seq<Event>, obs: Observation) returns (longer: seq<Event>)
    requires Lawful(c) && |salt| == RANDOM_HASH_SIZE && sdu > 0 && |payload| < MAX_DECOMPRESSED_SIZE
    requires FirstPassMaps(c, Stream(c, payload, allowed, salt), sdu, randoms) && InheritedWindow(previousWindow)
    requires var o := Prepare(c, Stream(c, payload, allowed, salt), sdu, payload, randoms);
             && o.Some? && ValidConfig(TransferOf(c, o.value))
             && var s := Run(TransferOf(c, o.value), previousWindow, events);
                Recovery.Live(s) && (s.rcv.retries > 0 || s.rcv.completed + 1 == |s.rcv.parts|)
    ensures events <= longer
    ensures var o := Prepare(c, Stream(c, payload, allowed, salt), sdu, payload, randoms).value;
            var s := Run(TransferOf(c, o), previousWindow, longer);
            && s.assembled.Some?
            && Assembled(c, s.assembled.value, Compresses(c, payload, allowed), o.randomHash, o.hash)
                 == Accepted(payload, o.expectedProof)
  {
    var o := Prepare(c, Stream(c, payload, allowed, salt), sdu, payload, randoms).value;
    longer := Recovery.RecoverableInEveryRun(TransferOf(c, o), previousWindow, events, obs);
    DeliveredInEveryRun(c, payload, allowed, salt, sdu, randoms, previousWindow, longer);
  }

  /** Hash and proof are taken over `basis`: the payload if the first random hash gave a guarded map, and a part of
      the stream if a pass had to be repeated. The receiver accepts if and only if that is the payload, or else
      two byte strings with one hash are exhibited; so a payload longer than one part is accepted if and only if
      the first map was guarded. */
  lemma AcceptedIffFirstPassMaps(c: Codec, payload: Bytes, allowed: bool, salt: Bytes, sdu: nat, randoms: seq<Bytes>)
    returns (basis: Bytes)
    requires Lawful(c) && |salt| == RANDOM_HASH_SIZE && sdu > 0 && |payload| < MAX_DECOMPRESSED_SIZE
    requires Prepare(c, Stream(c, payload, allowed, salt), sdu, payload, randoms).Some?
    ensures if FirstPassMaps(c, Stream(c, payload, allowed, salt), sdu, randoms) then basis == payload
            else basis in Chunks(Stream(c, payload, allowed, salt), sdu) && |basis| <= sdu
    ensures var o := Prepare(c, Stream(c, payload, allowed, salt), sdu, payload, randoms).value;
            || HashCollision(c, payload + o.randomHash, basis + o.randomHash)
            || (Assembled(c, o.parts, Compresses(c, payload, allowed), o.randomHash, o.hash).Accepted? == (basis == payload))
    ensures var o := Prepare(c, Stream(c, payload, allowed, salt), sdu, payload, randoms).value;
            |payload| > sdu ==>
              || HashCollision(c, payload + o.randomHash, basis + o.randomHash)
              || (Assembled(c, o.parts, Compresses(c, payload, allowed), o.randomHash, o.hash).Accepted?
                  == FirstPassMaps(c, Stream(c, payload, allowed, salt), sdu, randoms))
  {
    var stream := Stream(c, payload, allowed, salt);
    var o := Prepare(c, stream, sdu, payload, randoms).value;
    basis := Prepared(c, stream, sdu, payload, randoms);
    RecoversPayload(c, payload, allowed, salt, sdu, o.randomHash, o.hash);
    SameSuffix(payload, basis, o.randomHash);
  }

  lemma SameSuffix(x: Bytes, y: Bytes, suffix: Bytes)
    ensures x + suffix == y + suffix <==> x == y
  {
    if x + suffix == y + suffix {
      assert |x| + |suffix| == |x + suffix| == |y + suffix| == |y| + |suffix|;
      assert x == (x + suffix)[..|x|] == (y + suffix)[..|x|] == y;
    }
  }

  /** The sender completes only for a receiver that held the payload, or one that found a hash collision. */
  lemma ProofBindsPayload(c: Codec, payload: Bytes, allowed: bool, salt: Bytes, sdu: nat, randoms: seq<Bytes>, held: Bytes)
    requires |salt| == RANDOM_HASH_SIZE && sdu > 0
    requires FirstPassMaps(c, Stream(c, payload, allowed, salt), sdu, randoms)
    requires var o := Prepare(c, Stream(c, payload, allowed, salt), sdu, payload, randoms).value;
             |o.hash| == 32 && ProofAccepted(o, o.hash + c.hash(held + o.hash))
    ensures var o := Prepare(c, Stream(c, payload, allowed, salt), sdu, payload, randoms).value;
            held == payload || HashCollision(c, held + o.hash, payload + o.hash)
  {
    var o := Prepare(c, Stream(c, payload, allowed, salt), sdu, payload, randoms).value;
    var p := c.hash(held + o.hash);
    assert (o.hash + p)[32..] == p;
    SameSuffix(held, payload, o.hash);
  }

  // ---- a repeated pass, concretely ----

  function ForgetsZero(b: Bytes): Bytes {
    if |b| > 0 && b[|b| - 1] == 0 then [] else b
  }

  /** Primitives that change next to nothing, and a hash that forgets byte strings ending in zero. */
  function ToyCodec(): Codec {
    Codec(ForgetsZero, (b: Bytes) => [1] + b, (b: Bytes) => if |b| > 0 then Some(b[1..]) else None,
          (b: Bytes) => b, (b: Bytes, n: nat) => Some(b))
  }

  const TOY_RANDOMS: seq<Bytes> := [[0, 0, 0, 0], [0, 0, 0, 1]]

  lemma ToyStream()
    ensures Lawful(ToyCodec())
    ensures Chunks(Stream(ToyCodec(), [1, 2, 3, 4, 5], false, [9, 9, 9, 9]), 4) == [[1, 9, 9, 9], [9, 1, 2, 3], [4, 5]]
  {
    var s: Bytes := [1, 9, 9, 9, 9, 1, 2, 3, 4, 5];
    assert Stream(ToyCodec(), [1, 2, 3, 4, 5], false, [9, 9, 9, 9]) == s;
    assert s[4..] == [9, 1, 2, 3, 4, 5] && s[4..][4..] == [4, 5];
    assert s[..4] == [1, 9, 9, 9] && s[4..][..4] == [9, 1, 2, 3];
    assert Chunks([4, 5], 4) == [[4, 5]];
    assert Chunks(s[4..], 4) == [[9, 1, 2, 3]] + Chunks(s[4..][4..], 4);
  }

  lemma ToyHashes(chunk: Bytes)
    requires |chunk| > 0
    ensures MapHashWith(ToyCodec(), TOY_RANDOMS[0])(chunk) == []
    ensures var h := MapHashWith(ToyCodec(), TOY_RANDOMS[1])(chunk); |h| == 4 && h[0] == chunk[0]
  {
    var x, y := chunk + TOY_RANDOMS[0], chunk + TOY_RANDOMS[1];
    assert |x| == |y| == |chunk| + 4;
    assert x[|x| - 1] == 0 && y[|y| - 1] == 1 && y[0] == chunk[0];
    assert ToyCodec().hash(x) == [] && ToyCodec().hash(y) == y;
  }

  lemma ToyPasses(stream: Bytes)
    requires stream == Stream(ToyCodec(), [1, 2, 3, 4, 5], false, [9, 9, 9, 9])
    ensures var r := MapPass(stream, 4, MapHashWith(ToyCodec(), TOY_RANDOMS[0])); r.Collided? && |r.chunk| <= 4
    ensures MapPass(stream, 4, MapHashWith(ToyCodec(), TOY_RANDOMS[1])).Mapped?
  {
    ToyStream();
    var parts := Chunks(stream, 4);
    var f, g := MapHashWith(ToyCodec(), TOY_RANDOMS[0]), MapHashWith(ToyCodec(), TOY_RANDOMS[1]);
    ToyHashes(parts[0]);
    ToyHashes(parts[1]);
    ToyHashes(parts[2]);
    assert CollidesAt(Map(f, parts), 1);
    CollisionBreaksGuard(Map(f, parts), 1);
    MapPassGuards(stream, 4, f);
    MapPassGuards(stream, 4, g);
    ChunkCount(stream, 4);
  }

  /** The first random hash makes every part collide and the second does not, so the resource is advertised
      with the hash of a chunk; the receiver puts the payload together and rejects it. */
  lemma RepeatedPassRejected()
    ensures var c, payload: Bytes, salt: Bytes := ToyCodec(), [1, 2, 3, 4, 5], [9, 9, 9, 9];
            var o := Prepare(c, Stream(c, payload, false, salt), 4, payload, TOY_RANDOMS);
            && Lawful(c) && o.Some?
            && Assembled(c, o.value.parts, Compresses(c, payload, false), o.value.randomHash, o.value.hash) == Rejected
  {
    var c, payload: Bytes, salt: Bytes := ToyCodec(), [1, 2, 3, 4, 5], [9, 9, 9, 9];
    var stream := Stream(c, payload, false, salt);
    ToyStream();
    ToyPasses(stream);
    var chunk := MapPass(stream, 4, MapHashWith(c, TOY_RANDOMS[0])).chunk;
    var o := Prepare(c, stream, 4, chunk, [TOY_RANDOMS[1]]).value;
    assert TOY_RANDOMS[1..] == [TOY_RANDOMS[1]];
    assert Prepare(c, stream, 4, payload, TOY_RANDOMS) == Some(o);
    RecoversPayload(c, payload, false, salt, 4, o.randomHash, o.hash);
    ToyDiffers(payload, chunk, TOY_RANDOMS[1]);
  }

  lemma ToyDiffers(x: Bytes, y: Bytes, r: Bytes)
    requires |y| < |x| && |r| > 0 && r[|r| - 1] == 1
    ensures ToyCodec().hash(x + r) != ToyCodec().hash(y + r)
  {
    assert |x + r| > |y + r| > 0;
    assert (x + r)[|x + r| - 1] == 1 == (y + r)[|y + r| - 1];
  }
}
