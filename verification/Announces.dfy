/** Announces (reference/RNS/Destination.py, reference/RNS/Identity.py): building, parsing and validating them,
    and the table of known destinations over any sequence of announces. */
module Announces {
  import opened Prelude

  const KEYSIZE: nat := 64
  const NAME_HASH_LENGTH: nat := 10
  const RANDOM_LENGTH: nat := 10
  const RATCHETSIZE: nat := 32
  const SIGLENGTH: nat := 64

  /** The full hash, and signatures: an identity is its public key. */
  datatype Codec = Codec(hash: Bytes -> Bytes, sign: (Bytes, Bytes) -> Bytes, verify: (Bytes, Bytes, Bytes) -> bool)

  ghost predicate Lawful(c: Codec) {
    && (forall x :: |c.hash(x)| >= TRUNCATED_HASHLENGTH)
    && (forall k, m :: |c.sign(k, m)| == SIGLENGTH && c.verify(k, c.sign(k, m), m))
  }

  function IdentityHash(c: Codec, key: Bytes): Bytes {
    Truncated(c.hash(key))
  }

  /** The address of a destination: its name hash and its identity, hashed. */
  function DestinationHash(c: Codec, key: Bytes, nameHash: Bytes): Bytes {
    Truncated(c.hash(nameHash + IdentityHash(c, key)))
  }

  datatype Announce = Announce(destination: Bytes, contextFlag: bool, data: Bytes)

  function SignedPart(destination: Bytes, key: Bytes, nameHash: Bytes, random: Bytes, ratchet: Bytes, appData: Bytes): Bytes {
    destination + key + nameHash + random + ratchet + appData
  }

  /** announce, outside the reuse of an earlier path response. */
  function Build(c: Codec, key: Bytes, nameHash: Bytes, random: Bytes, ratchet: Option<Bytes>, appData: Option<Bytes>): Announce {
    var destination := DestinationHash(c, key, nameHash);
    var signature := c.sign(key, SignedPart(destination, key, nameHash, random, OrEmpty(ratchet), OrEmpty(appData)));
    Announce(destination, ratchet.Some?, key + nameHash + random + OrEmpty(ratchet) + signature + OrEmpty(appData))
  }

  datatype Parsed = Parsed(key: Bytes, nameHash: Bytes, random: Bytes, ratchet: Bytes, signature: Bytes,
                           signedAppData: Bytes, appData: Option<Bytes>)

  /** The slicing of validate_announce. Whether there is application data is judged by the length an announce
      without ratchet would have. */
  function Parse(a: Announce): Parsed {
    var d := a.data;
    var r := if a.contextFlag then 84 + RATCHETSIZE else 84;
    var appData := if |d| > r + SIGLENGTH then d[r + SIGLENGTH..] else [];
    Parsed(Slice(d, 0, 64), Slice(d, 64, 74), Slice(d, 74, 84), Slice(d, 84, r), Slice(d, r, r + SIGLENGTH), appData,
           if |d| > 148 then Some(appData) else None)
  }

  lemma SixParts(a: Bytes, b: Bytes, c: Bytes, d: Bytes, e: Bytes, f: Bytes)
    requires |a| == 64 && |b| == 10 && |c| == 10 && (|d| == 0 || |d| == 32) && |e| == 64
    ensures var s := a + b + c + d + e + f;
            var r := 84 + |d|;
            && |s| == r + 64 + |f| && s[0..64] == a && s[64..74] == b && s[74..84] == c && s[84..r] == d && s[r..r + 64] == e
            && s[r + 64..] == f
  {
  }

  predicate Sized(key: Bytes, nameHash: Bytes, random: Bytes, ratchet: Option<Bytes>) {
    && |key| == KEYSIZE && |nameHash| == NAME_HASH_LENGTH && |random| == RANDOM_LENGTH
    && (ratchet.Some? ==> |ratchet.value| == RATCHETSIZE)
  }

  /** Every field comes back. Application data comes back as it was if and only if it is not empty, or the empty
      bytes were sent with a ratchet, or nothing without one. */
  lemma ParseBuild(c: Codec, key: Bytes, nameHash: Bytes, random: Bytes, ratchet: Option<Bytes>, appData: Option<Bytes>)
    requires Lawful(c) && Sized(key, nameHash, random, ratchet)
    ensures var a := Build(c, key, nameHash, random, ratchet, appData);
            var p := Parse(a);
            && p.key == key && p.nameHash == nameHash && p.random == random && p.ratchet == OrEmpty(ratchet)
            && p.signedAppData == OrEmpty(appData)
            && c.verify(key, p.signature, SignedPart(a.destination, p.key, p.nameHash, p.random, p.ratchet, p.signedAppData))
            && (p.appData == appData <==> OrEmpty(appData) != [] || (appData.Some? <==> ratchet.Some?))
  {
    var destination := DestinationHash(c, key, nameHash);
    var signature := c.sign(key, SignedPart(destination, key, nameHash, random, OrEmpty(ratchet), OrEmpty(appData)));
    SixParts(key, nameHash, random, OrEmpty(ratchet), signature, OrEmpty(appData));
  }

  // ---- the table ----

  /** What is kept of a destination; `nameHash` is history. */
  datatype Known = Known(key: Bytes, appData: Option<Bytes>, nameHash: Bytes)

  datatype Tables = Tables(known: map<Bytes, Known>, ratchets: map<Bytes, Bytes>)

  /** validate_announce says yes: the signature holds, the address is the hash of name and identity, the identity is
      not shut out, and no other key is known for it. */
  predicate Accepts(c: Codec, t: Tables, blackholed: set<Bytes>, a: Announce) {
    var p := Parse(a);
    && |p.key| == KEYSIZE && IdentityHash(c, p.key) !in blackholed
    && c.verify(p.key, p.signature, SignedPart(a.destination, p.key, p.nameHash, p.random, p.ratchet, p.signedAppData))
    && a.destination == DestinationHash(c, p.key, p.nameHash)
    && (a.destination in t.known ==> t.known[a.destination].key == p.key)
  }

  function Validate(c: Codec, t: Tables, blackholed: set<Bytes>, a: Announce): Tables {
    if !Accepts(c, t, blackholed, a) then t
    else
      var p := Parse(a);
      Tables(t.known[a.destination := Known(p.key, p.appData, p.nameHash)],
             if p.ratchet != [] then t.ratchets[a.destination := p.ratchet] else t.ratchets)
  }

  datatype Event = Hear(announce: Announce, blackholed: set<Bytes>) | Forget(destination: Bytes)

  function Step(c: Codec, t: Tables, e: Event): Tables {
    match e
    case Hear(a, blackholed) => Validate(c, t, blackholed, a)
    case Forget(d) => t.(known := map k | k in t.known && k != d :: t.known[k])
  }

  function Run(c: Codec, events: seq<Event>): Tables {
    if events == [] then Tables(map[], map[]) else Step(c, Run(c, events[..|events| - 1]), events[|events| - 1])
  }

  /** Every address is the hash of its name hash and its identity. */
  ghost predicate Bound(c: Codec, t: Tables) {
    forall d :: d in t.known ==> d == DestinationHash(c, t.known[d].key, t.known[d].nameHash) && |t.known[d].key| == KEYSIZE
  }

  lemma {:induction false} BoundInEveryRun(c: Codec, events: seq<Event>)
    ensures Bound(c, Run(c, events))
  {
    if events != [] {
      BoundInEveryRun(c, events[..|events| - 1]);
    }
  }

  /** As long as an entry is not dropped it stays, and with the same key, whatever is heard. */
  lemma {:induction false} KeyNeverChanges(c: Codec, events: seq<Event>, n: nat, d: Bytes)
    requires n <= |events| && d in Run(c, events[..n]).known
    requires forall k :: n <= k < |events| ==> events[k] != Forget(d)
    ensures d in Run(c, events).known && Run(c, events).known[d].key == Run(c, events[..n]).known[d].key
  {
    if n == |events| {
      assert events[..n] == events;
    } else {
      var before := events[..|events| - 1];
      assert before[..n] == events[..n];
      KeyNeverChanges(c, before, n, d);
    }
  }

  /** A freshly built announce is accepted by anyone who has not shut its identity out, unless a different key is
      already known for its address, which takes two identities with one hash. */
  lemma FreshAccepted(c: Codec, events: seq<Event>, blackholed: set<Bytes>, key: Bytes, nameHash: Bytes, random: Bytes,
                      ratchet: Option<Bytes>, appData: Option<Bytes>)
    requires Lawful(c) && Sized(key, nameHash, random, ratchet) && IdentityHash(c, key) !in blackholed
    ensures var t := Run(c, events);
            var a := Build(c, key, nameHash, random, ratchet, appData);
            || (Accepts(c, t, blackholed, a) && var t' := Validate(c, t, blackholed, a);
                a.destination in t'.known && t'.known[a.destination].key == key
                && (ratchet.Some? ==> a.destination in t'.ratchets && t'.ratchets[a.destination] == ratchet.value))
            || (a.destination in t.known && var k := t.known[a.destination];
                k.key != key && DestinationHash(c, k.key, k.nameHash) == DestinationHash(c, key, nameHash))
  {
    ParseBuild(c, key, nameHash, random, ratchet, appData);
    BoundInEveryRun(c, events);
  }
}

/** The known_destinations and known_ratchets tables, updated in place. */
module AnnounceObject {
  import opened Prelude
  import Spec = Announces

  class KnownDestinations {
    var known: map<Bytes, Spec.Known>
    var ratchets: map<Bytes, Bytes>

    ghost function View(): Spec.Tables
      reads this
    {
      Spec.Tables(known, ratchets)
    }

    constructor ()
      ensures View() == Spec.Tables(map[], map[])
    {
      known, ratchets := map[], map[];
    }

    method ValidateAnnounce(c: Spec.Codec, blackholed: set<Bytes>, a: Spec.Announce) returns (ok: bool)
      modifies this
      ensures ok == Spec.Accepts(c, old(View()), blackholed, a)
      ensures View() == Spec.Validate(c, old(View()), blackholed, a)
    {
      var p := Spec.Parse(a);
      if |p.key| != Spec.KEYSIZE || Spec.IdentityHash(c, p.key) in blackholed {
        return false;
      }
      if !c.verify(p.key, p.signature, Spec.SignedPart(a.destination, p.key, p.nameHash, p.random, p.ratchet, p.signedAppData)) {
        return false;
      }
      if a.destination != Spec.DestinationHash(c, p.key, p.nameHash) {
        return false;
      }
      if a.destination in known && p.key != known[a.destination].key {
        return false;
      }
      known := known[a.destination := Spec.Known(p.key, p.appData, p.nameHash)];
      if p.ratchet != [] {
        ratchets := ratchets[a.destination := p.ratchet];
      }
      ok := true;
    }
  }
}
